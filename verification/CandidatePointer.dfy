/**
 The `candidate` pointer of a playbook (crates/apb-core/src/candidate_pointer.rs): any
 number of processes read, set and clear it. `clear_candidate_if` checks and then
 removes, so it is two steps here; every caller is meant to hold the pointer lock,
 which the system gives up when its holder dies.
 */
module CandidatePointer {
  import opened Options
  import opened Text

  type Process = nat

  /** `file` is the text of the pointer file; `armed` holds the clears that have seen
      their version and not yet removed the file. */
  datatype State = State(file: Option<string>, holder: Option<Process>, armed: map<Process, string>)

  datatype Event =
    | Acquire(p: Process)
    | Release(p: Process)
    | Put(p: Process, text: string)
    | Refuse(p: Process, version: string, read: bool)   // a file that does not read names nothing
    | Arm(p: Process, version: string)
    | Remove(p: Process, answer: bool)
    | RemoveFailed(p: Process)
    | Die(p: Process)

  /** A version is one plain path segment. */
  predicate IsSafeSegment(s: string) {
    && s != "" && s != "." && '/' !in s && '\\' !in s
    && forall i :: 0 <= i < |s| - 1 ==> s[i] != '.' || s[i + 1] != '.'
  }

  /** `read_candidate`. */
  function Candidate(file: Option<string>): Option<string> {
    if file.None? then None
    else
      var name := Trim(file.value);
      if name != "" && IsSafeSegment(name) then Some(name) else None
  }

  const START := State(None, None, map[])

  /** `locked` says that callers keep to the lock. */
  ghost predicate Step(locked: bool, s: State, e: Event, t: State) {
    var may := (p: Process) => p !in s.armed && (locked ==> s.holder == Some(p));
    match e
    case Acquire(p) => s.holder.None? && p !in s.armed && t == s.(holder := Some(p))
    case Release(p) => s.holder == Some(p) && p !in s.armed && t == s.(holder := None)
    case Put(p, text) => may(p) && t == s.(file := Some(text))
    case Refuse(p, version, read) => may(p) && (read ==> Candidate(s.file) != Some(version)) && t == s
    case Arm(p, version) =>
      may(p) && Candidate(s.file) == Some(version) && t == s.(armed := s.armed[p := version])
    case Remove(p, answer) =>
      p in s.armed && answer == s.file.Some? && t == s.(file := None, armed := s.armed - {p})
    case RemoveFailed(p) => p in s.armed && t == s.(armed := s.armed - {p})
    case Die(p) =>
      t == s.(armed := s.armed - {p}, holder := if s.holder == Some(p) then None else s.holder)
  }

  ghost predicate IsRun(locked: bool, states: seq<State>, events: seq<Event>) {
    && |states| == |events| + 1 && states[0] == START
    && forall i :: 0 <= i < |events| ==> Step(locked, states[i], events[i], states[i + 1])
  }

  /** An armed clear holds the lock, and the pointer still names its version. */
  ghost predicate Inv(s: State) {
    forall p :: p in s.armed ==> s.holder == Some(p) && Candidate(s.file) == Some(s.armed[p])
  }

  lemma {:induction false} LockKeepsTheInvariant(states: seq<State>, events: seq<Event>, i: nat)
    requires IsRun(true, states, events) && i < |states|
    ensures Inv(states[i])
  {
    if i > 0 {
      LockKeepsTheInvariant(states, events, i - 1);
      assert Step(true, states[i - 1], events[i - 1], states[i]);
    }
  }

  /** A removal takes away a pointer that names the version it was asked to clear, and
      says so. */
  ghost predicate Exact(s: State, e: Event) {
    e.Remove? && e.p in s.armed ==> Candidate(s.file) == Some(s.armed[e.p]) && e.answer
  }

  ghost predicate Safe(locked: bool) {
    forall states, events :: IsRun(locked, states, events) ==>
      forall i :: 0 <= i < |events| ==> Exact(states[i], events[i])
  }

  /** A pointer that names `version` stays through every step other than a new pointer
      and a clear of that very version. */
  lemma {:induction false} NewerPointerSurvives(states: seq<State>, events: seq<Event>, i: nat, j: nat, version: string)
    requires IsRun(true, states, events) && i <= j < |states|
    requires Candidate(states[i].file) == Some(version)
    requires forall k :: i <= k < j ==> !events[k].Put?
    requires forall k :: i <= k < j && events[k].Remove? && events[k].p in states[k].armed ==>
               states[k].armed[events[k].p] != version
    ensures states[j].file == states[i].file
  {
    if i < j {
      NewerPointerSurvives(states, events, i, j - 1, version);
      LockKeepsTheInvariant(states, events, j - 1);
      assert Step(true, states[j - 1], events[j - 1], states[j]);
    }
  }

  /** Without the lock a clear of an old version takes the new pointer away. */
  lemma UnlockedClearRemovesTheNewPointer(old_: string, new_: string)
    returns (states: seq<State>, events: seq<Event>)
    requires Candidate(Some(old_)) == Some(old_) && Candidate(Some(new_)) == Some(new_) && old_ != new_
    ensures IsRun(false, states, events) && |events| == 4
    ensures Candidate(states[3].file) == Some(new_) && events[3] == Remove(0, true)
    ensures states[3].armed == map[0 := old_] && states[4].file == None
  {
    events := [Put(0, old_), Arm(0, old_), Put(1, new_), Remove(0, true)];
    states := [
      START,
      State(Some(old_), None, map[]),
      State(Some(old_), None, map[0 := old_]),
      State(Some(new_), None, map[0 := old_]),
      State(None, None, map[])
    ];
    assert Step(false, states[0], events[0], states[1]);
    assert Step(false, states[1], events[1], states[2]);
    assert Step(false, states[2], events[2], states[3]);
    assert map[0 := old_] - {0} == map[];
    assert Step(false, states[3], events[3], states[4]);
  }

  /** Checking and then removing is exact in every interleaving just when the callers
      keep to the lock. */
  lemma SafeIffLocked(locked: bool)
    ensures Safe(locked) <==> locked
  {
    if locked {
      forall states, events | IsRun(true, states, events)
        ensures forall i :: 0 <= i < |events| ==> Exact(states[i], events[i])
      {
        forall i | 0 <= i < |events| ensures Exact(states[i], events[i]) {
          LockKeepsTheInvariant(states, events, i);
          assert Step(true, states[i], events[i], states[i + 1]);
        }
      }
    } else {
      TrimLeavesEnds("1");
      TrimLeavesEnds("2");
      assert IsSafeSegment("1") && IsSafeSegment("2");
      assert "1"[0] != "2"[0];
      var states, events := UnlockedClearRemovesTheNewPointer("1", "2");
      assert !Exact(states[3], events[3]);
    }
  }

  // ------------------------------------------------------------- its answers

  /** One plain segment of a path: no separator, and nothing that leads upwards. */
  ghost predicate IsPlain(s: string) {
    && s !in {"", "."}
    && (forall c :: c in s ==> c !in {'/', '\\'})
    && !exists a, b :: s == a + ".." + b
  }

  lemma SafeIsPlain(s: string)
    ensures IsSafeSegment(s) <==> IsPlain(s)
  {
    if i :| 0 <= i < |s| - 1 && s[i] == '.' && s[i + 1] == '.' {
      assert s == s[..i] + ".." + s[i + 2..];
    }
    if a, b :| s == a + ".." + b {
      assert s[|a|] == '.' && s[|a| + 1] == '.';
    }
  }

  /** The file holds `version`: a plain segment, with white space around it. */
  ghost predicate Names(file: Option<string>, version: string) {
    && IsPlain(version)
    && !IsSpace(version[0]) && !IsSpace(version[|version| - 1])
    && exists a, b :: AllSpace(a) && AllSpace(b) && file == Some(a + version + b)
  }

  lemma CandidateIsNamed(file: Option<string>, version: string)
    ensures Candidate(file) == Some(version) <==> Names(file, version)
  {
    SafeIsPlain(version);
    if Names(file, version) {
      var a, b :| AllSpace(a) && AllSpace(b) && file == Some(a + version + b);
      TrimFindsTheCore(a, version, b);
    } else if file.Some? {
      var a, b := TrimSplits(file.value);
    }
  }

  /** What a clear asks about and answers, at the event that answers it. */
  function Asked(s: State, e: Event): Option<(string, bool)> {
    match e
    case Refuse(_, version, _) => Some((version, false))
    case Remove(p, answer) => if p in s.armed then Some((s.armed[p], answer)) else None
    case _ => None
  }

  ghost predicate AnswersTruly(s: State, e: Event) {
    var asked := Asked(s, e);
    asked.Some? ==> (asked.value.1 <==> Names(s.file, asked.value.0))
  }

  /** Under the lock; `mayFail` says that the read of the pointer may fail. */
  ghost predicate Truthful(mayFail: bool) {
    forall states: seq<State>, events: seq<Event> :: IsRun(true, states, events) ==>
      forall i :: 0 <= i < |events| && (mayFail || !(events[i].Refuse? && !events[i].read)) ==>
        AnswersTruly(states[i], events[i])
  }

  /** A clear that loses its read refuses, whatever version the file holds. */
  lemma UnreadPointerIsKept(version: string) returns (states: seq<State>, events: seq<Event>)
    requires Names(Some(version), version)
    ensures IsRun(true, states, events) && events == [Acquire(0), Put(0, version), Refuse(0, version, false)]
    ensures Names(states[2].file, version) && !AnswersTruly(states[2], events[2])
  {
    events := [Acquire(0), Put(0, version), Refuse(0, version, false)];
    var held := State(None, Some(0), map[]);
    states := [START, held, held.(file := Some(version)), held.(file := Some(version))];
    assert Step(true, states[0], events[0], states[1]);
    assert Step(true, states[1], events[1], states[2]);
    assert Step(true, states[2], events[2], states[3]);
  }

  /** Over every run under the lock: a clear answers "removed" exactly when the pointer
      named its version, if and only if the read of the pointer does not fail. */
  lemma TruthfulIffPointerReads(mayFail: bool)
    ensures Truthful(mayFail) <==> !mayFail
  {
    if mayFail {
      assert "" + "1" + "" == "1" && AllSpace("");
      var states, events := UnreadPointerIsKept("1");
      assert !AnswersTruly(states[2], events[2]);
    } else {
      forall states: seq<State>, events: seq<Event>, i: nat |
        IsRun(true, states, events) && i < |events| && !(events[i].Refuse? && !events[i].read)
        ensures AnswersTruly(states[i], events[i])
      {
        LockKeepsTheInvariant(states, events, i);
        assert Step(true, states[i], events[i], states[i + 1]);
        var asked := Asked(states[i], events[i]);
        if asked.Some? {
          CandidateIsNamed(states[i].file, asked.value.0);
        }
      }
    }
  }

  /** The lock is free again after its holder lets go of it or dies. */
  lemma LockGoesRound(version: string) returns (states: seq<State>, events: seq<Event>)
    ensures events == [Acquire(0), Put(0, version), Release(0), Acquire(1), Die(1), Acquire(2)]
    ensures IsRun(true, states, events) && states[6] == State(Some(version), Some(2), map[])
  {
    events := [Acquire(0), Put(0, version), Release(0), Acquire(1), Die(1), Acquire(2)];
    var named := Some(version);
    states := [
      START,
      State(None, Some(0), map[]),
      State(named, Some(0), map[]),
      State(named, None, map[]),
      State(named, Some(1), map[]),
      State(named, None, map[]),
      State(named, Some(2), map[])
    ];
    var none: map<Process, string> := map[];
    assert none - {1} == none;
    forall i | 0 <= i < 6 ensures Step(true, states[i], events[i], states[i + 1]) {
    }
  }

  /** A removal that fails leaves the pointer, and the clear may be tried again. */
  lemma FailedRemovalIsTriedAgain(version: string) returns (states: seq<State>, events: seq<Event>)
    requires Candidate(Some(version)) == Some(version)
    ensures events == [Acquire(0), Put(0, version), Arm(0, version), RemoveFailed(0), Arm(0, version), Remove(0, true)]
    ensures IsRun(true, states, events) && states[4].file == Some(version) && states[6].file == None
  {
    events := [Acquire(0), Put(0, version), Arm(0, version), RemoveFailed(0), Arm(0, version), Remove(0, true)];
    var held, armed := State(Some(version), Some(0), map[]), State(Some(version), Some(0), map[0 := version]);
    states := [START, State(None, Some(0), map[]), held, armed, held, armed, State(None, Some(0), map[])];
    assert map[0 := version] - {0} == map[];
    forall i | 0 <= i < 6 ensures Step(true, states[i], events[i], states[i + 1]) {
    }
  }
}
