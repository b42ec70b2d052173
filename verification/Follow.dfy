/**
 Following a run under its limits: `follow` and `over_limit`
 (crates/apb-cli/src/eval.rs) with the wait they call
 (crates/apb-engine/src/run_wait.rs), on a virtual clock in milliseconds where
 only sleeping takes time. The run, the signal flag and the reported usage are
 arbitrary functions of that clock.
 */
module Follow {
  import opened Numerals
  import opened Options

  const POLL: nat := 2000
  const LIMIT_GRACE: nat := 5000
  const WAIT_POLL: nat := 200
  const STABLE_GRACE: nat := 1500

  /** A gate or a halt is answered within this time of a wait. */
  const SETTLED: nat := 2 * WAIT_POLL + STABLE_GRACE

  /** One reading of the run: `Gate` and `Halted` carry which input is missing,
      since a condition that changes restarts the grace. */
  datatype Reading = Working | Finished | Gate(needs: nat) | Halted(needs: nat) | Unreadable

  type World = nat -> Reading

  predicate IsPending(r: Reading) {
    r.Gate? || r.Halted?
  }

  /** The run is alive and waits for somebody. */
  ghost predicate Waits(v: Reading) {
    v !in {Working, Finished, Unreadable}
  }

  datatype Answer = SawFinished | NeedsInput | Stopped | Timeout | Failed

  /** The answer a reading leads to when it leads to one. */
  function AnswerOf(r: Reading): Answer {
    match r
    case Working => Timeout
    case Finished => SawFinished
    case Gate(_) => NeedsInput
    case Halted(_) => Stopped
    case Unreadable => Failed
  }

  /** From `g` on the run stays at the same reading. */
  ghost predicate StaysFrom(world: World, g: nat, v: Reading) {
    forall t :: t >= g ==> world(t) == v
  }

  /** Read every WAIT_POLL from `s` to `end`, the run is where it is at `end`. */
  ghost predicate Held(world: World, s: nat, end: nat) {
    s <= end && forall k: nat :: s + k * WAIT_POLL <= end ==> world(s + k * WAIT_POLL) == world(end)
  }

  function Max(a: nat, b: nat): nat {
    if a >= b then a else b
  }

  /** The moments at which the run was read, from `start` to `end`: both of them, and
      never more than WAIT_POLL apart. */
  ghost predicate Covers(readAt: set<nat>, start: nat, end: nat) {
    && start in readAt && end in readAt
    && (forall t :: t in readAt ==> start <= t <= end)
    && forall t :: start <= t < end ==> ReadNear(readAt, t)
  }

  ghost predicate ReadNear(readAt: set<nat>, t: int) {
    exists r :: r in readAt && r <= t < r + WAIT_POLL
  }

  ghost predicate Saw(world: World, readAt: set<nat>) {
    exists t :: t in readAt && world(t) == Finished
  }

  /** Between two readings, the earlier one at `last`: the run is neither finished nor
      unreadable there, and `since` is the first of the readings equal to it. */
  ghost predicate Between(world: World, start: nat, last: nat, since: Option<(nat, Reading)>) {
    && start <= last && world(last) != Finished && world(last) != Unreadable
    && (since.Some? <==> IsPending(world(last)))
    && (since.Some? ==>
          var (s, r) := since.value;
          && start <= s <= last < s + STABLE_GRACE && r == world(last) && Held(world, s, last)
          && (last - s) % WAIT_POLL == 0
          && (s == start || (s >= start + WAIT_POLL && world(s - WAIT_POLL) != r)))
  }

  /** A reading that repeats the last one extends the stretch; `end` is the next
      reading, at most one WAIT_POLL on. */
  lemma HeldGrows(world: World, s: nat, last: nat, end: nat)
    requires Held(world, s, last) && (last - s) % WAIT_POLL == 0
    requires last < end <= last + WAIT_POLL && world(end) == world(last)
    ensures Held(world, s, end)
    ensures end == last + WAIT_POLL ==> (end - s) % WAIT_POLL == 0
  {
    forall k: nat | s + k * WAIT_POLL <= end ensures world(s + k * WAIT_POLL) == world(end) {
      if s + k * WAIT_POLL > last {
        var n := (last - s) / WAIT_POLL;
        assert last == s + n * WAIT_POLL && n < k < n + 2;
      }
    }
  }

  /** The pending condition after reading `r` at `end`. */
  function Noted(since: Option<(nat, Reading)>, r: Reading, end: nat): Option<(nat, Reading)> {
    if !IsPending(r) then None
    else if since.Some? && since.value.1 == r then since
    else Some((end, r))
  }

  /** What is noted at `end`, the reading after `last`. */
  lemma NotedIsHeld(world: World, start: nat, last: Option<nat>, since: Option<(nat, Reading)>, end: nat)
    requires last.None? ==> end == start && since.None?
    requires last.Some? ==> Between(world, start, last.value, since) && last.value < end <= last.value + WAIT_POLL
    requires IsPending(world(end))
    ensures var (s, r) := Noted(since, world(end), end).value;
            start <= s <= end && r == world(end) && Held(world, s, end) && end < s + STABLE_GRACE + WAIT_POLL
    ensures var (s, r) := Noted(since, world(end), end).value;
            (last.Some? ==> end == last.value + WAIT_POLL) ==>
              (end - s) % WAIT_POLL == 0 && (s == start || (s >= start + WAIT_POLL && world(s - WAIT_POLL) != r))
  {
    if since.Some? && since.value.1 == world(end) {
      HeldGrows(world, since.value.0, last.value, end);
    } else {
      assert Held(world, end, end);
    }
  }

  lemma OneMoreReading(readAt: set<nat>, start: nat, last: nat, end: nat)
    requires Covers(readAt, start, last) && last < end <= last + WAIT_POLL
    ensures Covers(readAt + {end}, start, end)
  {
    forall t | start <= t < end ensures ReadNear(readAt + {end}, t) {
      assert t < last ==> ReadNear(readAt, t);
      assert last in readAt + {end};
    }
  }

  /** One `wait_run`. It is decided by the reading at the moment it ends; a finished
      or unreadable run is answered at once, a gate or a halt only once it has been
      read for the whole grace, and whatever the run settles on is answered soon
      after it settles. */
  method Wait(world: World, start: nat, timeout: nat) returns (answer: Answer, end: nat, ghost readAt: set<nat>)
    ensures start <= end <= start + timeout
    ensures Covers(readAt, start, end)
    ensures answer == SawFinished <==> Saw(world, readAt)
    ensures answer == SawFinished <==> world(end) == Finished
    ensures answer == Failed <==> world(end) == Unreadable
    ensures answer != Timeout ==> answer == AnswerOf(world(end))
    ensures answer in {NeedsInput, Stopped} ==>
              exists s :: start <= s && s + STABLE_GRACE <= end && Held(world, s, end)
    ensures answer == Timeout ==> end == start + timeout
    ensures forall f :: StaysFrom(world, f, Finished) ==> end <= Max(f, start) + WAIT_POLL
    ensures forall g, v :: Waits(v) && StaysFrom(world, g, v) ==> end < Max(g, start) + SETTLED
  {
    var deadline := start + timeout;
    var since: Option<(nat, Reading)> := None;
    end := start;
    ghost var last: Option<nat> := None;
    readAt := {};
    while true
      invariant !Saw(world, readAt)
      invariant last.None? ==> readAt == {}
      invariant last.Some? ==> start <= last.value && Covers(readAt, start, last.value)
      invariant start <= end <= deadline
      invariant last.None? ==> end == start && since.None?
      invariant last.Some? ==> Between(world, start, last.value, since) && last.value < end <= last.value + WAIT_POLL
      invariant last.Some? && end < deadline ==> end == last.value + WAIT_POLL
      decreases deadline - end
    {
      var r := world(end);
      ghost var before := readAt;
      readAt := readAt + {end};
      if last.Some? {
        OneMoreReading(before, start, last.value, end);
      }
      if r.Unreadable? {
        return Failed, end, readAt;
      }
      if r.Finished? {
        return SawFinished, end, readAt;
      }
      if IsPending(r) {
        NotedIsHeld(world, start, last, since, end);
      }
      since := Noted(since, r, end);
      if since.Some? && end - since.value.0 >= STABLE_GRACE {
        return AnswerOf(r), end, readAt;
      }
      if end >= deadline {
        return Timeout, end, readAt;
      }
      last := Some(end);
      var nap := if WAIT_POLL <= deadline - end then WAIT_POLL else deadline - end;
      end := end + (if nap >= 1 then nap else 1);
    }
  }

  // ------------------------------------------------------------------- limits

  datatype Usage = Usage(input: nat, output: nat, cost: Option<real>)
  datatype Limits = Limits(maxTokens: Option<nat>, maxUsd: Option<real>)
  datatype Crossed = TokenLimit | CostLimit

  /** `u64::saturating_add`. */
  function SaturatingAdd(a: nat, b: nat): nat {
    if a + b > U64_MAX then U64_MAX else a + b
  }

  /** Saturation never hides a crossed limit, unless that limit is the largest one; the
      cost limit is crossed exactly by a higher cost, a missing cost counting as zero. */
  function OverLimit(u: Usage, l: Limits): (r: Option<Crossed>)
    ensures l.maxTokens.Some? && l.maxTokens.value < U64_MAX ==>
              (r == Some(TokenLimit) <==> u.input + u.output > l.maxTokens.value)
    ensures l.maxTokens.None? || l.maxTokens.value >= U64_MAX ==> r != Some(TokenLimit)
    ensures l.maxUsd.Some? ==>
              (r.Some? <==>
                 || r == Some(TokenLimit)
                 || (u.cost.Some? && u.cost.value > l.maxUsd.value)
                 || (u.cost.None? && l.maxUsd.value < 0.0))
    ensures l.maxUsd.None? ==> r != Some(CostLimit)
  {
    if l.maxTokens.Some? && SaturatingAdd(u.input, u.output) > l.maxTokens.value then Some(TokenLimit)
    else
      var cost := if u.cost.Some? then u.cost.value else 0.0;
      if l.maxUsd.Some? && cost > l.maxUsd.value then Some(CostLimit) else None
  }

  // ------------------------------------------------------------------- follow

  datatype StopReason =
    | Interrupted | TimedOut | GateUnanswered | NoProgress | LimitCrossed(crossed: Crossed) | WaitFailed

  /** Everything `follow` may depend on. */
  datatype Scene = Scene(world: World, interrupted: nat -> bool, usage: nat -> Usage, limits: Limits)

  /** The moments where a poll that runs out ends, and the usage is read. */
  ghost predicate PollEnds(start: nat, timeout: nat, t: nat) {
    start < t <= start + timeout && ((t - start) % POLL == 0 || t == start + timeout)
  }

  ghost predicate CrossedAt(scene: Scene, t: nat, crossed: Crossed) {
    OverLimit(scene.usage(t), scene.limits) == Some(crossed)
  }

  /** The usage is over some limit. */
  ghost predicate OverAt(scene: Scene, t: nat) {
    OverLimit(scene.usage(t), scene.limits).Some?
  }

  /** No such moment lies between two consecutive ones. */
  lemma NoPollEndsBetween(start: nat, timeout: nat, polls: nat, t: nat)
    requires PollEnds(start, timeout, t) && t > start + polls * POLL
    ensures t == start + timeout || t >= start + (polls + 1) * POLL
  {
    if t != start + timeout {
      var k := (t - start) / POLL;
      assert t - start == k * POLL && k > polls;
    }
  }

  /** A poll that runs out: the usage is read, and a crossed limit gives the run its
      last grace. `over` is that limit, if any. */
  method ReadUsage(scene: Scene, start: nat)
    returns (over: Option<Crossed>, reason: Option<StopReason>, end: nat, ghost readAt: set<nat>)
    ensures over == OverLimit(scene.usage(start), scene.limits)
    ensures over.None? ==> end == start && readAt == {}
    ensures over.Some? ==> Covers(readAt, start, end) && (reason.None? <==> Saw(scene.world, readAt))
    ensures over.Some? ==>
              && start <= end <= start + LIMIT_GRACE
              && reason == (if scene.world(end) == Finished then None else Some(LimitCrossed(over.value)))
    ensures over.Some? ==> forall f :: StaysFrom(scene.world, f, Finished) ==> end <= Max(f, start) + WAIT_POLL
    ensures over.Some? ==> forall g, v :: Waits(v) && StaysFrom(scene.world, g, v) ==>
              end < Max(g, start) + SETTLED
  {
    reason, end, readAt := None, start, {};
    over := OverLimit(scene.usage(end), scene.limits);
    if over.Some? {
      var answer;
      answer, end, readAt := Wait(scene.world, end, LIMIT_GRACE);
      reason := if answer == SawFinished then None else Some(LimitCrossed(over.value));
    }
  }

  /** Two stretches of reading, one after the other. */
  lemma CoversBoth(first: set<nat>, second: set<nat>, start: nat, middle: nat, end: nat)
    requires if first == {} then middle == start else Covers(first, start, middle)
    requires Covers(second, middle, end)
    ensures Covers(first + second, start, end)
  {
    assert start <= middle <= end;
    forall t | start <= t < end ensures ReadNear(first + second, t) {
      assert if t < middle then ReadNear(first, t) else ReadNear(second, t);
    }
  }

  /** The end of a poll that runs out. */
  function PollEnd(at: nat, deadline: nat): nat
    requires at <= deadline
  {
    if at + POLL <= deadline then at + POLL else deadline
  }

  /** One turn of `follow` once neither a signal nor the deadline ended it: a poll, and
      the last grace when it runs out over a limit (`graced`). */
  method Poll(scene: Scene, at: nat, deadline: nat)
    returns (done: bool, reason: Option<StopReason>, end: nat, graced: bool, ghost readAt: set<nat>)
    requires at <= deadline
    ensures at <= end && Covers(readAt, at, end)
    ensures if graced then PollEnd(at, deadline) <= end <= PollEnd(at, deadline) + LIMIT_GRACE
            else end <= PollEnd(at, deadline)
    ensures !done ==> end == PollEnd(at, deadline) && !graced
    ensures !done ==> !Saw(scene.world, readAt) && scene.world(end) != Finished
    ensures !done ==> OverLimit(scene.usage(end), scene.limits).None?
    ensures done ==> (reason.None? <==> Saw(scene.world, readAt)) && (reason.None? <==> scene.world(end) == Finished)
    ensures done && reason.Some? ==> reason.value !in {Interrupted, TimedOut} && IsTrue(scene, reason.value, end)
    ensures graced ==> done && (reason.Some? ==> reason.value.LimitCrossed?)
    ensures graced ==> OverAt(scene, PollEnd(at, deadline))
    ensures done && reason.Some? && reason.value.LimitCrossed? ==>
              graced && CrossedAt(scene, PollEnd(at, deadline), reason.value.crossed)
    ensures TurnSettles(scene.world, at, PollEnd(at, deadline), end, graced)
  {
    var answer;
    answer, end, readAt := Wait(scene.world, at, PollEnd(at, deadline) - at);
    done, graced := true, false;
    if answer == SawFinished {
      reason := None;
    } else if answer == NeedsInput {
      reason := Some(GateUnanswered);
    } else if answer == Stopped {
      reason := Some(NoProgress);
    } else if answer == Failed {
      reason := Some(WaitFailed);
    } else {
      var over;
      ghost var more;
      ghost var read := end;
      over, reason, end, more := ReadUsage(scene, end);
      done, graced := over.Some?, over.Some?;
      if over.Some? {
        CoversBoth(readAt, more, at, read, end);
        readAt := readAt + more;
      }
    }
  }

  /** What the run settles on ends one turn soon after, `ranOut` being the end of its poll. */
  ghost predicate TurnSettles(world: World, at: nat, ranOut: nat, end: nat, graced: bool) {
    && (forall f :: StaysFrom(world, f, Finished) ==> end <= Max(f, at) + WAIT_POLL)
    && forall g, v :: Waits(v) && StaysFrom(world, g, v) ==>
         if graced then ranOut < Max(g, at) + SETTLED && end < Max(g, ranOut) + SETTLED else end < Max(g, at) + SETTLED
  }

  /** A following that is not over has not settled long ago. */
  ghost predicate GoesOnUnsettled(world: World, start: nat, deadline: nat, end: nat) {
    && (forall f :: StaysFrom(world, f, Finished) ==> end <= Max(f, start))
    && forall g, v :: Waits(v) && StaysFrom(world, g, v) ==>
         end <= Max(g, start) + POLL || (end == deadline && end < Max(g, start) + POLL + SETTLED)
  }

  /** What the run settles on ends the following soon after. */
  ghost predicate EndsSettled(world: World, start: nat, deadline: nat, end: nat) {
    && (forall f :: StaysFrom(world, f, Finished) ==> end <= Max(f, start) + WAIT_POLL)
    && forall g, v :: Waits(v) && StaysFrom(world, g, v) ==>
         end < Max(g, start) + POLL + (if end <= deadline then 1 else 2) * SETTLED
  }

  lemma OneTurn(world: World, start: nat, deadline: nat, at: nat, end: nat, done: bool, graced: bool)
    requires start <= at < deadline && GoesOnUnsettled(world, start, deadline, at)
    requires TurnSettles(world, at, PollEnd(at, deadline), end, graced)
    requires at <= end && (!graced ==> end <= deadline)
    requires !done ==> end == PollEnd(at, deadline) && !graced && world(end) != Finished
    ensures if done then EndsSettled(world, start, deadline, end) else GoesOnUnsettled(world, start, deadline, end)
  {
  }

  /** The moment at which poll `k` begins. */
  function TurnAt(start: nat, k: nat): nat {
    start + k * POLL
  }

  /** The first `turns` polls began before the deadline and with the flag down. */
  ghost predicate TurnsBegan(scene: Scene, start: nat, deadline: nat, turns: nat) {
    forall k: nat :: k < turns ==> TurnAt(start, k) < deadline && !scene.interrupted(TurnAt(start, k))
  }

  /** From `g` on the flag is up. */
  ghost predicate SignalledFrom(scene: Scene, g: nat) {
    forall t :: t >= g ==> scene.interrupted(t)
  }

  /** A signal ends the following within one poll, and the last grace if that poll runs
      out over a limit. */
  ghost predicate EndsSignalled(scene: Scene, start: nat, timeout: nat, end: nat) {
    forall g :: SignalledFrom(scene, g) ==>
      || end <= Max(g, start) + POLL
      || exists t: nat ::
           PollEnds(start, timeout, t) && OverAt(scene, t) && t <= Max(g, start) + POLL && end <= t + LIMIT_GRACE
  }

  /** How far the turn that began at `at` goes. */
  ghost predicate TurnEnds(scene: Scene, at: nat, deadline: nat, end: nat, graced: bool)
    requires at <= deadline
  {
    if graced then OverAt(scene, PollEnd(at, deadline)) && end <= PollEnd(at, deadline) + LIMIT_GRACE
    else end <= PollEnd(at, deadline)
  }

  /** The turns so far, the last one up to `end`. */
  ghost predicate TurnedTo(scene: Scene, start: nat, deadline: nat, turns: nat, end: nat, graced: bool) {
    && TurnsBegan(scene, start, deadline, turns)
    && if turns == 0 then end == start else TurnEnds(scene, TurnAt(start, turns - 1), deadline, end, graced)
  }

  lemma OneMoreTurn(scene: Scene, start: nat, deadline: nat, turns: nat, end: nat, graced: bool)
    requires TurnsBegan(scene, start, deadline, turns)
    requires var at := TurnAt(start, turns);
             at < deadline && !scene.interrupted(at) && TurnEnds(scene, at, deadline, end, graced)
    ensures TurnedTo(scene, start, deadline, turns + 1, end, graced)
  {
  }

  /** The last turn began before the signal. */
  lemma LastTurnEnds(scene: Scene, start: nat, timeout: nat, turns: nat, end: nat, graced: bool)
    requires TurnedTo(scene, start, start + timeout, turns, end, graced)
    ensures EndsSignalled(scene, start, timeout, end)
    ensures scene.interrupted(start) ==> end == start && turns == 0
  {
    if turns > 0 {
      assert !scene.interrupted(TurnAt(start, 0));
      var t := PollEnd(TurnAt(start, turns - 1), start + timeout);
      assert PollEnds(start, timeout, t) by {
        if t != start + timeout {
          assert t - start == turns * POLL;
        }
      }
    }
  }

  /** Why a wait ended the following is true of the run then. */
  ghost predicate IsTrue(scene: Scene, reason: StopReason, end: nat) {
    match reason
    case Interrupted => scene.interrupted(end)
    case GateUnanswered => scene.world(end).Gate?
    case NoProgress => scene.world(end).Halted?
    case WaitFailed => scene.world(end) == Unreadable
    case _ => true
  }

  /** No limit was crossed so far where the usage was read. */
  ghost predicate NoneCrossed(scene: Scene, start: nat, timeout: nat, end: nat) {
    forall t: nat, c :: PollEnds(start, timeout, t) && t <= end ==> !CrossedAt(scene, t, c)
  }

  /** A limit stop names a limit that was crossed at most the last grace ago, and a crossed
      one leads to such a stop or to a finished run; only that goes past the deadline. */
  ghost predicate LimitsTell(scene: Scene, start: nat, timeout: nat, end: nat, reason: Option<StopReason>) {
    && (reason.Some? && reason.value.LimitCrossed? ==>
          exists t :: start <= t <= end <= t + LIMIT_GRACE && CrossedAt(scene, t, reason.value.crossed))
    && (forall t: nat, c :: PollEnds(start, timeout, t) && t < end && CrossedAt(scene, t, c) ==>
          reason.None? || reason.value.LimitCrossed?)
    && (end > start + timeout ==> reason.None? || reason.value.LimitCrossed?)
  }

  lemma LimitsOfATurn(scene: Scene, start: nat, timeout: nat, polls: nat, end: nat, done: bool, graced: bool,
                      reason: Option<StopReason>)
    requires var at, deadline := start + polls * POLL, start + timeout;
             && at < deadline && NoneCrossed(scene, start, timeout, at) && at <= end
             && (if graced then PollEnd(at, deadline) <= end <= PollEnd(at, deadline) + LIMIT_GRACE
                 else end <= PollEnd(at, deadline))
             && (graced && reason.Some? ==> reason.value.LimitCrossed?)
             && (done && reason.Some? && reason.value.LimitCrossed? ==>
                   graced && CrossedAt(scene, PollEnd(at, deadline), reason.value.crossed))
             && (!done ==> end == PollEnd(at, deadline) && OverLimit(scene.usage(end), scene.limits).None?)
    ensures if done then LimitsTell(scene, start, timeout, end, reason) else NoneCrossed(scene, start, timeout, end)
  {
    var at := start + polls * POLL;
    forall t: nat | PollEnds(start, timeout, t) && t > at ensures t >= PollEnd(at, start + timeout) {
      NoPollEndsBetween(start, timeout, polls, t);
    }
  }

  /** A following that goes on at `at`, after `turns` polls that ran out. */
  ghost predicate GoesOn(scene: Scene, start: nat, timeout: nat, at: nat, turns: nat, readAt: set<nat>) {
    && start <= at <= start + timeout
    && (at == TurnAt(start, turns) || at == start + timeout) && turns * POLL < at - start + POLL
    && TurnedTo(scene, start, start + timeout, turns, at, false)
    && !Saw(scene.world, readAt)
    && (if readAt == {} then at == start else Covers(readAt, start, at))
    && NoneCrossed(scene, start, timeout, at)
    && GoesOnUnsettled(scene.world, start, start + timeout, at)
  }

  /** Why a following ended is true, and the run's own end comes before every other reason. */
  ghost predicate ReasonTells(scene: Scene, start: nat, timeout: nat, reason: Option<StopReason>, end: nat,
                              readAt: set<nat>) {
    && (if readAt == {} then end == start else Covers(readAt, start, end))
    && (reason.None? <==> Saw(scene.world, readAt))
    && (reason.None? ==> scene.world(end) == Finished)
    && (reason.Some? ==> IsTrue(scene, reason.value, end))
    && (reason == Some(TimedOut) ==> end == start + timeout && !scene.interrupted(end))
    && (reason.Some? && reason.value !in {Interrupted, TimedOut} ==> scene.world(end) != Finished)
  }

  /** A following that a signal or the deadline ends. */
  lemma EndsBetween(scene: Scene, start: nat, timeout: nat, end: nat, turns: nat, readAt: set<nat>, reason: StopReason)
    requires GoesOn(scene, start, timeout, end, turns, readAt)
    requires reason == Interrupted || (reason == TimedOut && end == start + timeout)
    requires scene.interrupted(end) <==> reason == Interrupted
    ensures ReasonTells(scene, start, timeout, Some(reason), end, readAt)
    ensures LimitsTell(scene, start, timeout, end, Some(reason))
    ensures EndsSettled(scene.world, start, start + timeout, end)
  {
  }

  /** One turn of the loop once neither a signal nor the deadline ended it. */
  method Turn(scene: Scene, start: nat, timeout: nat, at: nat, ghost turns: nat, ghost before: set<nat>)
    returns (done: bool, reason: Option<StopReason>, end: nat, graced: bool, ghost readAt: set<nat>)
    requires GoesOn(scene, start, timeout, at, turns, before) && at < start + timeout && !scene.interrupted(at)
    ensures at <= end <= start + timeout + LIMIT_GRACE
    ensures !done ==> GoesOn(scene, start, timeout, end, turns + 1, readAt) && at < end && !graced
    ensures done ==>
              && ReasonTells(scene, start, timeout, reason, end, readAt)
              && LimitsTell(scene, start, timeout, end, reason)
              && EndsSettled(scene.world, start, start + timeout, end)
              && TurnedTo(scene, start, start + timeout, turns + 1, end, graced)
              && reason !in {Some(Interrupted), Some(TimedOut)}
              && (reason.Some? ==> (graced <==> reason.value.LimitCrossed?))
    ensures (turns + 1) * POLL < timeout + POLL
  {
    done, reason, end, graced, readAt := Poll(scene, at, start + timeout);
    CoversBoth(before, readAt, start, at, end);
    readAt := before + readAt;
    OneTurn(scene.world, start, start + timeout, at, end, done, graced);
    LimitsOfATurn(scene, start, timeout, turns, end, done, graced, reason);
    OneMoreTurn(scene, start, start + timeout, turns, end, graced);
  }

  /** `follow` from `start` on. `polls` counts the waits, `stops` the stop calls, and
      `readAt` holds the moments the run was read, `turns` how many polls began. */
  method Follow(scene: Scene, start: nat, timeout: nat)
    returns (reason: Option<StopReason>, end: nat, polls: nat, stops: nat, ghost readAt: set<nat>, ghost turns: nat)
    // bounds
    ensures start <= end <= start + timeout + LIMIT_GRACE
    ensures polls * POLL < timeout + 2 * POLL
    // why it ended
    ensures ReasonTells(scene, start, timeout, reason, end, readAt)
    ensures LimitsTell(scene, start, timeout, end, reason)
    // the run is stopped just when it was not seen finished
    ensures stops == if reason.Some? then 1 else 0
    // no poll begins with the flag up, and a signal ends the following
    ensures TurnsBegan(scene, start, start + timeout, turns)
    ensures turns <= polls <= turns + 1
    ensures reason.Some? ==> polls == turns + if reason.value.LimitCrossed? then 1 else 0
    ensures scene.interrupted(start) ==> reason == Some(Interrupted) && end == start && polls == 0
    ensures reason == Some(Interrupted) ==> end == TurnAt(start, turns) || end == start + timeout
    ensures EndsSignalled(scene, start, timeout, end)
    // what the run settles on ends the wait soon after
    ensures EndsSettled(scene.world, start, start + timeout, end)
  {
    var deadline := start + timeout;
    end, polls, readAt, turns := start, 0, {}, 0;
    var graced := false;
    while true
      invariant GoesOn(scene, start, timeout, end, turns, readAt)
      invariant polls == turns && !graced
      decreases deadline - end
    {
      if scene.interrupted(end) {
        reason := Some(Interrupted);
        EndsBetween(scene, start, timeout, end, turns, readAt, Interrupted);
        break;
      }
      if deadline == end {
        reason := Some(TimedOut);
        EndsBetween(scene, start, timeout, end, turns, readAt, TimedOut);
        break;
      }
      var done;
      done, reason, end, graced, readAt := Turn(scene, start, timeout, end, turns, readAt);
      turns := turns + 1;
      polls := polls + if graced then 2 else 1;
      if done {
        break;
      }
    }
    LastTurnEnds(scene, start, timeout, turns, end, graced);
    stops := 0;
    if reason.Some? {
      stops := stops + 1;
    }
  }
}
