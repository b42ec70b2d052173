/**
 `apb profile edit` (crates/apb-cli/src/profile.rs, `profile_edit_cmd`) with the
 compare-and-swap publish it ends in (crates/apb-mcp/src/profile_tools.rs,
 `profile_write`): any number of sessions, and other writers that go through
 the same locked publish, interleave step by step and may be killed anywhere.

 `profile.yaml` and `SOUL.md` are two reads with anything in between; the
 publish is two renames with a window in which the profile directory is not
 there. The hash is taken to be injective on the bytes it is given, so the
 digest is modelled as those bytes: the yaml, a NUL, the SOUL text. A yaml
 text that holds a NUL does not parse. The publish takes a SOUL text it cannot
 read for an empty one, which the editor's own read refuses to do.
 */
module ProfileEdit {
  import opened Options

  const NUL: char := '\0'

  /** The profile directory. A missing SOUL.md reads as empty. */
  datatype Content = Content(yaml: string, soul: Option<string>)

  function SoulText(c: Content): string {
    match c.soul case Some(s) => s case None => ""
  }

  /** The SOUL text the publish compares with: a failed read counts as empty. */
  function SeenSoul(c: Content, soulRead: bool): string {
    if soulRead then SoulText(c) else ""
  }

  function Digest(yaml: string, soul: string): string {
    yaml + [NUL] + soul
  }

  predicate NoNul(s: string) {
    NUL !in s
  }

  datatype Phase =
    | Reading                       // nothing read yet
    | ReadYaml                      // profile.yaml read
    | ReadBoth                      // SOUL.md read: the digest is known
    | Editing                       // staged, the editor is open
    | Edited                        // the editor exited with success
    | Valid                         // the edited files were read back and checked
    | Locked                        // `profile_write` holds the lock
    | Checked                       // the digest matched, the stored yaml parsed
    | Away(trash: Content)          // the old directory is renamed away
    | Published                     // the new directory is in place, the lock is free
    | Ended

  /** `yaml` and `soul` are what the editor opened; `soulRead` says that the publish
      could read the SOUL text it compares with. */
  datatype Session = Session(
    phase: Phase, yaml: string, soul: string, soulRead: bool, staged: bool, editorOk: bool, published: bool)

  /** A publish: what its writer had opened, whether it read the SOUL text it replaced,
      what was there, what is there now. */
  datatype Save = Save(yaml: string, soul: string, soulRead: bool, replaced: Content, published: Content)

  datatype State = State(
    initial: Content, disk: Option<Content>, lock: Option<nat>, sessions: map<nat, Session>, saves: seq<Save>)

  function Initial(c: Content): State {
    State(c, Some(c), None, map[], [])
  }

  datatype Step =
    | Open(k: nat)
    | ReadsYaml(k: nat)
    | ReadsSoul(k: nat)
    | Stages(k: nat, ok: bool)
    | EditorExits(k: nat, ok: bool)
    | ReadsBackAndChecks(k: nat, ok: bool)
    | Locks(k: nat)
    | Compares(k: nat, parses: bool, soulRead: bool)   // a yaml that does not read does not parse
    | MovesAway(k: nat, ok: bool)
    | MovesIn(k: nat, ok: bool, rollbackOk: bool, yaml: string, soul: string)
    | Answers(k: nat, ok: bool)                      // the rest of `profile_write` may still fail
    | Killed(k: nat)
    | OtherWrites(yaml: string, soul: string, parses: bool)   // another surface, under the same lock

  predicate At(s: State, k: nat, phase: Phase) {
    k in s.sessions && s.sessions[k].phase == phase
  }

  predicate Enabled(s: State, step: Step) {
    match step
    case Open(k) => k !in s.sessions
    case ReadsYaml(k) => At(s, k, Reading)
    case ReadsSoul(k) => At(s, k, ReadYaml)
    case Stages(k, _) => At(s, k, ReadBoth)
    case EditorExits(k, _) => At(s, k, Editing)
    case ReadsBackAndChecks(k, _) => At(s, k, Edited)
    case Locks(k) => At(s, k, Valid) && s.lock.None?
    case Compares(k, parses, _) => At(s, k, Locked) && (parses && s.disk.Some? ==> NoNul(s.disk.value.yaml))
    case MovesAway(k, _) => At(s, k, Checked) && s.disk.Some?
    case MovesIn(k, _, _, yaml, _) => k in s.sessions && s.sessions[k].phase.Away? && NoNul(yaml)
    case Answers(k, _) => At(s, k, Published)
    case Killed(k) => k in s.sessions && !s.sessions[k].phase.Ended?
    case OtherWrites(yaml, _, parses) =>
      s.lock.None? && s.disk.Some? && NoNul(yaml) && parses && NoNul(s.disk.value.yaml)
  }

  function With(s: State, k: nat, v: Session): State {
    s.(sessions := s.sessions[k := v])
  }

  /** The session ends without removing the staged edits, and lets go of the lock. */
  function Fails(s: State, k: nat): State
    requires k in s.sessions
  {
    With(s, k, s.sessions[k].(phase := Ended)).(lock := if s.lock == Some(k) then None else s.lock)
  }

  function Apply(s: State, step: Step): State
    requires Enabled(s, step)
  {
    match step
    case Open(k) => With(s, k, Session(Reading, "", "", false, false, false, false))
    case ReadsYaml(k) =>
      if s.disk.None? then Fails(s, k)
      else With(s, k, s.sessions[k].(phase := ReadYaml, yaml := s.disk.value.yaml))
    case ReadsSoul(k) =>
      With(s, k, s.sessions[k].(phase := ReadBoth, soul := if s.disk.Some? then SoulText(s.disk.value) else ""))
    case Stages(k, ok) => if ok then With(s, k, s.sessions[k].(phase := Editing, staged := true)) else Fails(s, k)
    case EditorExits(k, ok) =>
      if ok then With(s, k, s.sessions[k].(phase := Edited, editorOk := true))
      else With(s, k, s.sessions[k].(phase := Ended, staged := false))
    case ReadsBackAndChecks(k, ok) => if ok then With(s, k, s.sessions[k].(phase := Valid)) else Fails(s, k)
    case Locks(k) => With(s, k, s.sessions[k].(phase := Locked)).(lock := Some(k))
    case Compares(k, parses, soulRead) =>
      var v := s.sessions[k];
      if s.disk.Some? && parses && Digest(s.disk.value.yaml, SeenSoul(s.disk.value, soulRead)) == Digest(v.yaml, v.soul)
      then With(s, k, v.(phase := Checked, soulRead := soulRead))
      else Fails(s, k)
    case MovesAway(k, ok) =>
      if ok then With(s, k, s.sessions[k].(phase := Away(s.disk.value))).(disk := None) else Fails(s, k)
    case MovesIn(k, ok, rollbackOk, yaml, soul) =>
      var v := s.sessions[k];
      if ok then
        With(s, k, v.(phase := Published, published := true)).(
          disk := Some(Content(yaml, Some(soul))), lock := None,
          saves := s.saves + [Save(v.yaml, v.soul, v.soulRead, v.phase.trash, Content(yaml, Some(soul)))])
      else Fails(s, k).(disk := if rollbackOk then Some(v.phase.trash) else None)
    case Answers(k, ok) => With(s, k, s.sessions[k].(phase := Ended, staged := s.sessions[k].staged && !ok))
    case Killed(k) => Fails(s, k)
    case OtherWrites(yaml, soul, _) =>
      var c := s.disk.value;
      s.(disk := Some(Content(yaml, Some(soul))),
         saves := s.saves + [Save(c.yaml, SoulText(c), true, c, Content(yaml, Some(soul)))])
  }

  // ------------------------------------------------------------------- runs

  predicate IsRun(from: State, steps: seq<Step>)
    decreases |steps|, 0
  {
    steps != [] ==>
      IsRun(from, steps[..|steps| - 1]) && Enabled(After(from, steps[..|steps| - 1]), steps[|steps| - 1])
  }

  function After(from: State, steps: seq<Step>): State
    requires IsRun(from, steps)
    decreases |steps|, 1
  {
    if steps == [] then from else Apply(After(from, steps[..|steps| - 1]), steps[|steps| - 1])
  }

  // ----------------------------------------------------------------- digest

  /** When two pairs hash alike and the stored yaml parses, they are the same
      pair exactly when the other yaml holds no NUL either. */
  lemma DigestNamesThePair(y1: string, s1: string, y2: string, s2: string)
    requires NoNul(y2) && Digest(y1, s1) == Digest(y2, s2)
    ensures y1 == y2 && s1 == s2 <==> NoNul(y1)
  {
    var d := Digest(y1, s1);
    if NoNul(y1) {
      assert d[|y1|] == NUL && d[|y2|] == NUL;
      assert forall i :: 0 <= i < |y1| ==> d[i] == y1[i] && d[i] != NUL;
      assert forall i :: 0 <= i < |y2| ==> d[i] == y2[i] && d[i] != NUL;
      assert |y1| == |y2|;
      assert y1 == d[..|y1|] == y2;
      assert s1 == d[|y1| + 1..] == s2;
    }
  }

  /** The condition is needed: every pair whose yaml holds a NUL hashes like another
      one, whose yaml holds none. */
  lemma NulHidesThePair(yaml: string, hidden: string, soul: string)
    requires NoNul(yaml)
    ensures Digest(yaml + [NUL] + hidden, soul) == Digest(yaml, hidden + [NUL] + soul)
    ensures !NoNul(yaml + [NUL] + hidden) && yaml + [NUL] + hidden != yaml
  {
    assert (yaml + [NUL] + hidden)[|yaml|] == NUL;
    assert Digest(yaml + [NUL] + hidden, soul) == yaml + [NUL] + (hidden + [NUL] + soul);
  }

  /** A text that holds a NUL has one part before it that holds none. */
  lemma NulSplits(s: string) returns (front: string, back: string)
    requires !NoNul(s)
    ensures NoNul(front) && s == front + [NUL] + back
    decreases |s|
  {
    if s[0] == NUL {
      front, back := "", s[1..];
    } else {
      front, back := NulSplits(s[1..]);
      front := [s[0]] + front;
    }
  }

  /** So no yaml with a NUL is told apart by the digest. */
  lemma DigestTellsPairsIffNoNul(yaml: string, soul: string)
    ensures (forall y, t :: NoNul(y) && Digest(y, t) == Digest(yaml, soul) ==> y == yaml && t == soul) <==> NoNul(yaml)
  {
    forall y, t | NoNul(yaml) && NoNul(y) && Digest(y, t) == Digest(yaml, soul) ensures y == yaml && t == soul {
      DigestNamesThePair(yaml, soul, y, t);
    }
    if !NoNul(yaml) {
      var front, back := NulSplits(yaml);
      NulHidesThePair(front, back, soul);
    }
  }

  // -------------------------------------------------------------- invariant

  /** What the profile is, whether or not its directory is in place right now. */
  function Current(s: State): Content {
    Version(s.initial, s.saves, |s.saves|)
  }

  /** The profile after the first `n` saves. */
  function Version(initial: Content, saves: seq<Save>, n: nat): Content
    requires n <= |saves|
  {
    if n == 0 then initial else saves[n - 1].published
  }

  /** The saves form one chain: each replaced what the one before published, and
      that is what its writer had opened, as far as the publish could see. */
  ghost predicate Chained(s: State) {
    forall i :: 0 <= i < |s.saves| ==>
      && s.saves[i].replaced == Version(s.initial, s.saves, i)
      && s.saves[i].yaml == s.saves[i].replaced.yaml
      && s.saves[i].soul == SeenSoul(s.saves[i].replaced, s.saves[i].soulRead)
  }

  predicate Holding(p: Phase) {
    p.Locked? || p.Checked? || p.Away?
  }

  ghost predicate SessionInv(s: State, k: nat)
    requires k in s.sessions
  {
    var v := s.sessions[k];
    && (Holding(v.phase) ==> s.lock == Some(k))
    && (NoNul(s.initial.yaml) ==> NoNul(v.yaml))
    && (v.phase.Checked? ==> s.disk.Some? && NoNul(s.disk.value.yaml)
                             && Digest(s.disk.value.yaml, SeenSoul(s.disk.value, v.soulRead)) == Digest(v.yaml, v.soul))
    && (v.phase.Away? ==> s.disk.None? && v.phase.trash == Current(s) && NoNul(s.initial.yaml)
                          && v.yaml == v.phase.trash.yaml && v.soul == SeenSoul(v.phase.trash, v.soulRead))
  }

  /** What a session keeps about its staged edits. */
  predicate StagingInv(v: Session) {
    && (v.editorOk && !v.staged ==> v.published)
    && (v.phase.Editing? ==> v.staged)
    && (v.phase.Edited? || v.phase.Valid? || Holding(v.phase) || v.phase.Published? ==> v.staged && v.editorOk)
    && (v.phase.Published? ==> v.published)
    && (v.phase.Reading? || v.phase.ReadYaml? || v.phase.ReadBoth? || v.phase.Editing? ==> !v.editorOk)
  }

  ghost predicate Inv(s: State) {
    && Chained(s)
    && (s.disk.Some? ==> s.disk.value == Current(s))
    && (NoNul(s.initial.yaml) ==> NoNul(Current(s).yaml))
    && (!NoNul(s.initial.yaml) ==> s.saves == [])
    && LockInv(s)
    && (forall k :: k in s.sessions ==> SessionInv(s, k) && StagingInv(s.sessions[k]))
  }

  /** A save on top of a chain continues it when its writer had read what is current. */
  lemma ChainGrows(s: State, t: State, save: Save)
    requires Chained(s) && t.initial == s.initial && t.saves == s.saves + [save]
    requires save.replaced == Current(s) && save.yaml == save.replaced.yaml
    requires save.soul == SeenSoul(save.replaced, save.soulRead)
    ensures Chained(t) && Current(t) == save.published
  {
    forall i | 0 <= i < |t.saves|
      ensures t.saves[i].replaced == Version(t.initial, t.saves, i)
      ensures t.saves[i].yaml == t.saves[i].replaced.yaml
      ensures t.saves[i].soul == SeenSoul(t.saves[i].replaced, t.saves[i].soulRead)
    {
      if i < |s.saves| {
        assert t.saves[i] == s.saves[i];
      }
    }
  }

  lemma SavesStayChained(s: State, step: Step)
    requires Enabled(s, step) && Inv(s)
    ensures Chained(Apply(s, step))
    ensures var t := Apply(s, step); t.disk.Some? ==> t.disk.value == Current(t)
    ensures var t := Apply(s, step); NoNul(s.initial.yaml) ==> NoNul(Current(t).yaml)
    ensures !NoNul(s.initial.yaml) ==> Apply(s, step).saves == []
  {
    var t := Apply(s, step);
    if step.MovesIn? {
      assert SessionInv(s, step.k);
    }
    if |t.saves| > |s.saves| {
      ChainGrows(s, t, t.saves[|s.saves|]);
    }
  }

  lemma OtherStagingKept(s: State, step: Step, x: nat)
    requires Enabled(s, step) && x in s.sessions && (step.OtherWrites? || step.k != x)
    ensures x in Apply(s, step).sessions && Apply(s, step).sessions[x] == s.sessions[x]
  {
  }

  /** The steps up to the lock. */
  predicate IsEarlyStep(step: Step) {
    || step.Open? || step.ReadsYaml? || step.ReadsSoul? || step.Stages? || step.EditorExits?
    || step.ReadsBackAndChecks? || step.Locks?
  }

  lemma EarlyStagingKept(s: State, step: Step)
    requires Enabled(s, step) && IsEarlyStep(step)
    requires step.k in s.sessions ==> StagingInv(s.sessions[step.k])
    ensures StagingInv(Apply(s, step).sessions[step.k])
  {
  }

  lemma LateStagingKept(s: State, step: Step)
    requires Enabled(s, step) && !IsEarlyStep(step) && !step.OtherWrites?
    requires step.k in s.sessions && StagingInv(s.sessions[step.k])
    ensures StagingInv(Apply(s, step).sessions[step.k])
  {
  }

  lemma StagingKept(s: State, step: Step, x: nat)
    requires Enabled(s, step) && x in Apply(s, step).sessions
    requires x in s.sessions ==> StagingInv(s.sessions[x])
    ensures StagingInv(Apply(s, step).sessions[x])
  {
    if step.OtherWrites? || step.k != x {
      OtherStagingKept(s, step, x);
    } else if IsEarlyStep(step) {
      EarlyStagingKept(s, step);
    } else {
      LateStagingKept(s, step);
    }
  }

  ghost predicate LockInv(s: State) {
    s.lock.Some? ==> s.lock.value in s.sessions && Holding(s.sessions[s.lock.value].phase)
  }

  lemma EarlyLockKept(s: State, step: Step)
    requires Enabled(s, step) && Inv(s) && IsEarlyStep(step)
    ensures Apply(s, step).initial == s.initial && LockInv(Apply(s, step))
  {
    if step.k in s.sessions {
      assert SessionInv(s, step.k);
    }
  }

  /** The lock stays with the one session that is publishing. */
  lemma LockKept(s: State, step: Step)
    requires Enabled(s, step) && Inv(s)
    ensures Apply(s, step).initial == s.initial && LockInv(Apply(s, step))
  {
    if IsEarlyStep(step) {
      EarlyLockKept(s, step);
    } else if !step.OtherWrites? {
      assert SessionInv(s, step.k);
    }
  }

  /** An early step of one session leaves the profile and the other sessions alone. */
  lemma EarlyStepIsOwn(s: State, step: Step, x: nat)
    requires Enabled(s, step) && IsEarlyStep(step) && step.k != x && x in s.sessions
    ensures var t := Apply(s, step);
            && t.initial == s.initial && t.saves == s.saves && t.disk == s.disk
            && x in t.sessions && t.sessions[x] == s.sessions[x]
            && (s.lock == Some(x) ==> t.lock == Some(x))
  {
  }

  lemma SameSessionKept(s: State, t: State, x: nat)
    requires x in s.sessions && SessionInv(s, x) && x in t.sessions && t.sessions[x] == s.sessions[x]
    requires t.initial == s.initial && t.saves == s.saves && t.disk == s.disk
    requires s.lock == Some(x) ==> t.lock == Some(x)
    ensures SessionInv(t, x)
  {
  }

  lemma EarlyOtherSessionKept(s: State, step: Step, x: nat)
    requires Enabled(s, step) && Inv(s) && x in s.sessions && IsEarlyStep(step) && step.k != x
    ensures SessionInv(Apply(s, step), x)
  {
    EarlyStepIsOwn(s, step, x);
    SameSessionKept(s, Apply(s, step), x);
  }

  lemma OtherSessionKept(s: State, step: Step, x: nat)
    requires Enabled(s, step) && Inv(s) && x in s.sessions && (step.OtherWrites? || step.k != x)
    ensures SessionInv(Apply(s, step), x)
  {
    if IsEarlyStep(step) {
      EarlyOtherSessionKept(s, step, x);
    } else {
      assert SessionInv(s, x);
      if !step.OtherWrites? {
        assert SessionInv(s, step.k);
      }
    }
  }

  lemma EarlyOwnSessionKept(s: State, step: Step)
    requires Enabled(s, step) && Inv(s) && IsEarlyStep(step)
    ensures SessionInv(Apply(s, step), step.k)
  {
    if step.k in s.sessions {
      assert SessionInv(s, step.k);
    }
  }

  lemma OwnSessionKept(s: State, step: Step)
    requires Enabled(s, step) && Inv(s) && !step.OtherWrites?
    ensures step.k in Apply(s, step).sessions && SessionInv(Apply(s, step), step.k)
  {
    if IsEarlyStep(step) {
      EarlyOwnSessionKept(s, step);
    } else {
      assert SessionInv(s, step.k);
      if step.MovesAway? && step.ok {
        var v := s.sessions[step.k];
        DigestNamesThePair(v.yaml, v.soul, s.disk.value.yaml, SeenSoul(s.disk.value, v.soulRead));
      }
    }
  }

  lemma SessionsKept(s: State, step: Step, x: nat)
    requires Enabled(s, step) && Inv(s) && x in Apply(s, step).sessions
    ensures SessionInv(Apply(s, step), x)
  {
    if !step.OtherWrites? && step.k == x {
      OwnSessionKept(s, step);
    } else {
      OtherSessionKept(s, step, x);
    }
  }

  lemma StepKeepsTheInvariant(s: State, step: Step)
    requires Enabled(s, step) && Inv(s)
    ensures Inv(Apply(s, step))
  {
    var t := Apply(s, step);
    SavesStayChained(s, step);
    forall x | x in t.sessions ensures SessionInv(t, x) && StagingInv(t.sessions[x]) {
      SessionsKept(s, step, x);
      StagingKept(s, step, x);
    }
    LockKept(s, step);
  }

  lemma {:induction false} RunKeepsTheInvariant(c: Content, steps: seq<Step>)
    requires IsRun(Initial(c), steps)
    ensures Inv(After(Initial(c), steps)) && After(Initial(c), steps).initial == c
  {
    if steps != [] {
      RunKeepsTheInvariant(c, steps[..|steps| - 1]);
      StepKeepsTheInvariant(After(Initial(c), steps[..|steps| - 1]), steps[|steps| - 1]);
    }
  }

  // -------------------------------------------------------------- theorems

  /** The save replaced the very pair its editor had opened. */
  predicate IsExact(save: Save) {
    save.yaml == save.replaced.yaml && save.soul == SoulText(save.replaced)
  }

  /** No lost update: in every interleaving, each save replaced what the save before it
      published, with the yaml its editor had opened; the SOUL text is the opened one
      whenever the publish read it or the editor had opened one that is not empty. The
      directory, whenever it is there, holds the last save. */
  lemma NoLostUpdate(c: Content, steps: seq<Step>, i: nat)
    requires IsRun(Initial(c), steps) && i < |After(Initial(c), steps).saves|
    ensures var s := After(Initial(c), steps);
            var save := s.saves[i];
            && save.replaced == Version(c, s.saves, i)
            && save.yaml == save.replaced.yaml
            && (save.soulRead || save.soul != "" ==> IsExact(save))
            && (IsExact(save) <==> save.soulRead || SoulText(save.replaced) == "")
            && (s.disk.Some? ==> s.disk.value == Version(c, s.saves, |s.saves|))
  {
    RunKeepsTheInvariant(c, steps);
  }

  lemma OneMore(c: Content, steps: seq<Step>, s: State, step: Step)
    requires IsRun(Initial(c), steps) && After(Initial(c), steps) == s && Enabled(s, step)
    ensures IsRun(Initial(c), steps + [step]) && After(Initial(c), steps + [step]) == Apply(s, step)
  {
    assert (steps + [step])[..|steps|] == steps;
  }

  /** One session alone, with nothing else going on. */
  function OneSession(c: Content, disk: Option<Content>, lock: Option<nat>, v: Session, saves: seq<Save>): State {
    State(c, disk, lock, map[0 := v], saves)
  }

  lemma OneSessionStep(c: Content, steps: seq<Step>, s: State, step: Step, t: State) returns (more: seq<Step>)
    requires IsRun(Initial(c), steps) && After(Initial(c), steps) == s && Enabled(s, step) && t == Apply(s, step)
    ensures IsRun(Initial(c), more) && After(Initial(c), more) == t
  {
    OneMore(c, steps, s, step);
    more := steps + [step];
  }

  /** The session has read the profile. */
  lemma ReadAlone(c: Content) returns (steps: seq<Step>)
    ensures IsRun(Initial(c), steps)
    ensures After(Initial(c), steps) ==
            OneSession(c, Some(c), None, Session(ReadBoth, c.yaml, SoulText(c), false, false, false, false), [])
  {
    var v := Session(Reading, "", "", false, false, false, false);
    steps := OneSessionStep(c, [], Initial(c), Open(0), OneSession(c, Some(c), None, v, []));
    var w := v.(phase := ReadYaml, yaml := c.yaml);
    steps := OneSessionStep(c, steps, OneSession(c, Some(c), None, v, []), ReadsYaml(0),
                            OneSession(c, Some(c), None, w, []));
    v := w.(phase := ReadBoth, soul := SoulText(c));
    steps := OneSessionStep(c, steps, OneSession(c, Some(c), None, w, []), ReadsSoul(0),
                            OneSession(c, Some(c), None, v, []));
  }

  /** And its editor exited, and its edits are valid. */
  lemma EditedAlone(c: Content) returns (steps: seq<Step>)
    ensures IsRun(Initial(c), steps)
    ensures After(Initial(c), steps) ==
            OneSession(c, Some(c), None, Session(Valid, c.yaml, SoulText(c), false, true, true, false), [])
  {
    steps := ReadAlone(c);
    var v := Session(ReadBoth, c.yaml, SoulText(c), false, false, false, false);
    var w := v.(phase := Editing, staged := true);
    steps := OneSessionStep(c, steps, OneSession(c, Some(c), None, v, []), Stages(0, true),
                            OneSession(c, Some(c), None, w, []));
    v := w.(phase := Edited, editorOk := true);
    steps := OneSessionStep(c, steps, OneSession(c, Some(c), None, w, []), EditorExits(0, true),
                            OneSession(c, Some(c), None, v, []));
    steps := OneSessionStep(c, steps, OneSession(c, Some(c), None, v, []), ReadsBackAndChecks(0, true),
                            OneSession(c, Some(c), None, v.(phase := Valid), []));
  }

  /** Up to the comparison: another surface publishes a SOUL text, and the session gets
      the lock. */
  lemma LockedOverAnotherSoul(yaml: string, soul: string) returns (steps: seq<Step>, s: State)
    requires NoNul(yaml)
    ensures var c, now := Content(yaml, None), Content(yaml, Some(soul));
            && IsRun(Initial(c), steps) && After(Initial(c), steps) == s
            && s == State(c, Some(now), Some(0), map[0 := Session(Locked, yaml, "", false, true, true, false)],
                          [Save(yaml, "", true, c, now)])
  {
    var c, now := Content(yaml, None), Content(yaml, Some(soul));
    steps := EditedAlone(c);
    var v := Session(Valid, yaml, "", false, true, true, false);
    var saves := [] + [Save(yaml, "", true, c, now)];
    steps := OneSessionStep(c, steps, OneSession(c, Some(c), None, v, []), OtherWrites(yaml, soul, true),
                            OneSession(c, Some(now), None, v, saves));
    s := OneSession(c, Some(now), Some(0), v.(phase := Locked), saves);
    steps := OneSessionStep(c, steps, OneSession(c, Some(now), None, v, saves), Locks(0), s);
  }

  /** The condition is needed: a SOUL text published after the editor opened a profile
      without one is overwritten when the publish cannot read it. */
  lemma UnreadSoulIsOverwritten(yaml: string, soul: string, newYaml: string, newSoul: string)
    returns (steps: seq<Step>, s: State)
    requires NoNul(yaml) && NoNul(newYaml) && soul != ""
    ensures var c := Content(yaml, None);
            && IsRun(Initial(c), steps) && After(Initial(c), steps) == s && |s.saves| == 2
            && s.saves[1].replaced == Content(yaml, Some(soul)) && !IsExact(s.saves[1])
            && s.disk == Some(Content(newYaml, Some(newSoul)))
  {
    var c := Content(yaml, None);
    steps, s := LockedOverAnotherSoul(yaml, soul);
    OneMore(c, steps, s, Compares(0, true, false));
    steps, s := steps + [Compares(0, true, false)], Apply(s, Compares(0, true, false));
    OneMore(c, steps, s, MovesAway(0, true));
    steps, s := steps + [MovesAway(0, true)], Apply(s, MovesAway(0, true));
    OneMore(c, steps, s, MovesIn(0, true, true, newYaml, newSoul));
    steps, s := steps + [MovesIn(0, true, true, newYaml, newSoul)], Apply(s, MovesIn(0, true, true, newYaml, newSoul));
  }

  /** No publish of the run fails to read the SOUL text it compares with. */
  ghost predicate SoulReadsWork(steps: seq<Step>) {
    forall i :: 0 <= i < |steps| && steps[i].Compares? ==> steps[i].soulRead
  }

  ghost predicate AllRead(s: State) {
    && (forall i :: 0 <= i < |s.saves| ==> s.saves[i].soulRead)
    && (forall k :: k in s.sessions && (s.sessions[k].phase.Checked? || s.sessions[k].phase.Away?) ==>
          s.sessions[k].soulRead)
  }

  lemma {:induction false} WorkingReadsAreNoted(c: Content, steps: seq<Step>)
    requires IsRun(Initial(c), steps) && SoulReadsWork(steps)
    ensures AllRead(After(Initial(c), steps))
  {
    if steps != [] {
      var front, step := steps[..|steps| - 1], steps[|steps| - 1];
      WorkingReadsAreNoted(c, front);
      OneStepReads(After(Initial(c), front), step);
    }
  }

  lemma OneStepReads(s: State, step: Step)
    requires Enabled(s, step) && AllRead(s) && (step.Compares? ==> step.soulRead)
    ensures AllRead(Apply(s, step))
  {
  }

  /** No run loses an update; `mayFail` says that a publish may fail to read SOUL.md. */
  ghost predicate NothingIsLost(mayFail: bool) {
    forall c, steps :: mayFail || SoulReadsWork(steps) ==> LosesNothing(c, steps)
  }

  ghost predicate LosesNothing(c: Content, steps: seq<Step>) {
    IsRun(Initial(c), steps) ==>
      var saves := After(Initial(c), steps).saves;
      forall i :: 0 <= i < |saves| ==> IsExact(saves[i])
  }

  /** Over every run: all saves replace the pair their editor opened if and only if the
      locked read of SOUL.md does not fail. */
  lemma NothingIsLostIffSoulReads(mayFail: bool)
    ensures NothingIsLost(mayFail) <==> !mayFail
  {
    if mayFail {
      var steps, s := UnreadSoulIsOverwritten("a", "b", "c", "d");
      var c := Content("a", None);
      assert !IsExact(s.saves[1]) && !LosesNothing(c, steps);
    } else {
      forall c, steps | SoulReadsWork(steps) ensures LosesNothing(c, steps) {
        if IsRun(Initial(c), steps) {
          WorkingReadsAreNoted(c, steps);
          forall i | 0 <= i < |After(Initial(c), steps).saves| ensures IsExact(After(Initial(c), steps).saves[i]) {
            NoLostUpdate(c, steps, i);
          }
        }
      }
    }
  }

  /** Once the editor exited with success, the staged edits are gone only after a
      publish succeeded. */
  lemma EditsOutliveEveryFailure(c: Content, steps: seq<Step>, k: nat)
    requires IsRun(Initial(c), steps) && k in After(Initial(c), steps).sessions
    ensures var v := After(Initial(c), steps).sessions[k]; v.editorOk && !v.staged ==> v.published
  {
    RunKeepsTheInvariant(c, steps);
  }

  // ----------------------------------------------- comparison and roll-back

  lemma {:induction false} BeginningIsRun(from: State, steps: seq<Step>, n: nat)
    requires IsRun(from, steps) && n <= |steps|
    ensures IsRun(from, steps[..n])
  {
    if n < |steps| {
      BeginningIsRun(from, steps[..|steps| - 1], n);
      assert steps[..|steps| - 1][..n] == steps[..n];
    } else {
      assert steps[..n] == steps;
    }
  }

  /** The state in which step `n` of a run is taken. */
  ghost function Before(from: State, steps: seq<Step>, n: nat): State
    requires IsRun(from, steps) && n <= |steps|
  {
    BeginningIsRun(from, steps, n);
    After(from, steps[..n])
  }

  /** The comparison under the lock lets exactly the pair through that the editor opened,
      as far as it reads the SOUL text: an unchanged profile is always accepted. */
  lemma AcceptsExactlyTheOpenedPair(c: Content, steps: seq<Step>, k: nat, parses: bool, soulRead: bool)
    requires IsRun(Initial(c), steps) && Enabled(After(Initial(c), steps), Compares(k, parses, soulRead))
    ensures var s := After(Initial(c), steps);
            var v := s.sessions[k];
            At(Apply(s, Compares(k, parses, soulRead)), k, Checked) <==>
            parses && exists soul :: s.disk == Some(Content(v.yaml, soul)) &&
                                     v.soul == if soulRead && soul.Some? then soul.value else ""
  {
    RunKeepsTheInvariant(c, steps);
    var s := After(Initial(c), steps);
    var v := s.sessions[k];
    if s.disk.Some? && parses {
      assert SessionInv(s, k) && NoNul(v.yaml);
      var soul := SeenSoul(s.disk.value, soulRead);
      if Digest(s.disk.value.yaml, soul) == Digest(v.yaml, v.soul) {
        DigestNamesThePair(v.yaml, v.soul, s.disk.value.yaml, soul);
      }
      assert s.disk == Some(Content(s.disk.value.yaml, s.disk.value.soul));
    }
  }

  /** A publish that took the old directory away and never put one back. */
  predicate Loses(s: State, step: Step) {
    match step
    case MovesIn(_, ok, rollbackOk, _, _) => !ok && !rollbackOk
    case Killed(k) => k in s.sessions && s.sessions[k].phase.Away?
    case _ => false
  }

  ghost predicate SomeAway(s: State) {
    exists k :: k in s.sessions && s.sessions[k].phase.Away?
  }

  ghost predicate InPlaceOrAway(s: State) {
    s.disk.Some? || SomeAway(s)
  }

  ghost predicate LostIn(from: State, steps: seq<Step>)
    requires IsRun(from, steps)
  {
    exists n: nat :: n < |steps| && Loses(Before(from, steps, n), steps[n])
  }

  lemma EarlyStepLosesNothing(s: State, step: Step)
    requires Enabled(s, step) && Inv(s) && IsEarlyStep(step)
    ensures Apply(s, step).disk == s.disk && (SomeAway(Apply(s, step)) <==> SomeAway(s)) && !Loses(s, step)
  {
    var t := Apply(s, step);
    forall k | k in s.sessions && s.sessions[k].phase.Away? ensures k in t.sessions && t.sessions[k].phase.Away? {
      if step.k != k {
        EarlyStepIsOwn(s, step, k);
      }
    }
  }

  lemma OneStepLoses(s: State, step: Step)
    requires Enabled(s, step) && Inv(s)
    ensures var t := Apply(s, step);
            InPlaceOrAway(t) <==> InPlaceOrAway(s) && !Loses(s, step)
  {
    if IsEarlyStep(step) {
      EarlyStepLosesNothing(s, step);
    } else if step.OtherWrites? {
    } else {
      assert SessionInv(s, step.k);
      LateStepLoses(s, step);
    }
  }

  lemma LateStepLoses(s: State, step: Step)
    requires Enabled(s, step) && Inv(s) && !IsEarlyStep(step) && !step.OtherWrites?
    ensures var t := Apply(s, step);
            InPlaceOrAway(t) <==> InPlaceOrAway(s) && !Loses(s, step)
  {
    var t := Apply(s, step);
    if SomeAway(s) {
      var k :| k in s.sessions && s.sessions[k].phase.Away?;
      assert SessionInv(s, k);
      assert step.k != k ==> k in t.sessions && t.sessions[k] == s.sessions[k];
    }
    assert step.k in t.sessions;
  }

  lemma InPlaceIsCurrent(s: State)
    requires Inv(s) && s.disk.Some?
    ensures s.disk.value == Version(s.initial, s.saves, |s.saves|) && !SomeAway(s)
  {
    forall k | k in s.sessions ensures !s.sessions[k].phase.Away? {
      assert SessionInv(s, k);
    }
  }

  lemma {:induction false} MissingMeansLost(c: Content, steps: seq<Step>)
    requires IsRun(Initial(c), steps)
    ensures InPlaceOrAway(After(Initial(c), steps)) <==> !LostIn(Initial(c), steps)
  {
    if steps != [] {
      var front := steps[..|steps| - 1];
      MissingMeansLost(c, front);
      RunKeepsTheInvariant(c, front);
      OneStepLoses(After(Initial(c), front), steps[|front|]);
      LostInMore(Initial(c), steps);
    }
  }

  /** Over every run: a profile is in place, and then it is what the last save published,
      unless a publish is just between its two renames; or one was killed there, or failed
      to put the old directory back. In particular a roll-back that works restores it. */
  lemma InPlaceUnlessLost(c: Content, steps: seq<Step>)
    requires IsRun(Initial(c), steps)
    ensures var s := After(Initial(c), steps);
            && (s.disk.Some? || SomeAway(s) <==> !LostIn(Initial(c), steps))
            && (s.disk.Some? ==> s.disk.value == Version(c, s.saves, |s.saves|) && !SomeAway(s))
  {
    RunKeepsTheInvariant(c, steps);
    MissingMeansLost(c, steps);
    if After(Initial(c), steps).disk.Some? {
      InPlaceIsCurrent(After(Initial(c), steps));
    }
  }

  lemma LostInMore(from: State, steps: seq<Step>)
    requires IsRun(from, steps) && steps != []
    ensures var front := steps[..|steps| - 1];
            LostIn(from, steps) <==> LostIn(from, front) || Loses(After(from, front), steps[|front|])
  {
    LastStep(from, steps);
    assert forall n: nat :: n < |steps| - 1 ==> steps[n] == steps[..|steps| - 1][n];
  }

  // ------------------------------------------------- what a run says about a session

  lemma LastStep(from: State, steps: seq<Step>)
    requires IsRun(from, steps) && steps != []
    ensures var front := steps[..|steps| - 1];
            && Before(from, steps, |front|) == After(from, front)
            && Enabled(After(from, front), steps[|front|])
            && After(from, steps) == Apply(After(from, front), steps[|front|])
            && forall n: nat :: n < |steps| ==> Before(from, steps, n) == Before(from, front, n)
  {
    var front := steps[..|steps| - 1];
    forall n: nat | n < |steps| ensures Before(from, steps, n) == Before(from, front, n) {
      assert front[..n] == steps[..n];
    }
    assert front[..|front|] == front;
  }

  predicate IsStaged(s: State, k: nat) {
    k in s.sessions && s.sessions[k].staged
  }

  predicate HasEnded(s: State, k: nat) {
    k in s.sessions && s.sessions[k].phase.Ended?
  }

  /** The editor failed, or the whole publish worked. */
  predicate Unstages(step: Step, k: nat) {
    step == EditorExits(k, false) || step == Answers(k, true)
  }

  ghost predicate StagedIn(steps: seq<Step>, k: nat) {
    exists n: nat :: n < |steps| && steps[n] == Stages(k, true)
  }

  ghost predicate UnstagedIn(steps: seq<Step>, k: nat) {
    exists n: nat :: n < |steps| && Unstages(steps[n], k)
  }

  lemma EarlyStepStages(s: State, step: Step, k: nat)
    requires Enabled(s, step) && IsEarlyStep(step)
    ensures var t := Apply(s, step);
            && (IsStaged(t, k) <==> (IsStaged(s, k) || step == Stages(k, true)) && !Unstages(step, k))
            && (HasEnded(s, k) || Unstages(step, k) ==> HasEnded(t, k))
            && (step == Stages(k, true) || Unstages(step, k) ==> k in s.sessions && !HasEnded(s, k))
  {
  }

  lemma OneStepStages(s: State, step: Step, k: nat)
    requires Enabled(s, step)
    ensures var t := Apply(s, step);
            && (IsStaged(t, k) <==> (IsStaged(s, k) || step == Stages(k, true)) && !Unstages(step, k))
            && (HasEnded(s, k) || Unstages(step, k) ==> HasEnded(t, k))
            && (step == Stages(k, true) || Unstages(step, k) ==> k in s.sessions && !HasEnded(s, k))
  {
    if IsEarlyStep(step) {
      EarlyStepStages(s, step, k);
    }
  }

  /** Over every run: the edits of a session are staged exactly when they once were, its
      editor did not fail, and its publish did not work to the end. So they survive every
      other failure, a kill included. */
  lemma {:induction false} StagedTellsTheRun(c: Content, steps: seq<Step>, k: nat)
    requires IsRun(Initial(c), steps)
    ensures IsStaged(After(Initial(c), steps), k) <==> StagedIn(steps, k) && !UnstagedIn(steps, k)
    ensures UnstagedIn(steps, k) ==> HasEnded(After(Initial(c), steps), k)
  {
    if steps != [] {
      var front, step := steps[..|steps| - 1], steps[|steps| - 1];
      StagedTellsTheRun(c, front, k);
      LastStep(Initial(c), steps);
      OneStepStages(After(Initial(c), front), step, k);
      assert forall n: nat :: n < |front| ==> steps[n] == front[n];
      assert StagedIn(steps, k) <==> StagedIn(front, k) || step == Stages(k, true) by {
        assert steps[|front|] == step;
      }
      assert UnstagedIn(steps, k) <==> UnstagedIn(front, k) || Unstages(step, k) by {
        assert steps[|front|] == step;
      }
    }
  }

  /** The session read this yaml, or this SOUL text, at that step. */
  predicate ReadYamlAt(s: State, step: Step, k: nat, yaml: string) {
    step == ReadsYaml(k) && s.disk.Some? && s.disk.value.yaml == yaml
  }

  predicate ReadSoulAt(s: State, step: Step, k: nat, soul: string) {
    step == ReadsSoul(k) && soul == match s.disk case Some(Content(_, Some(text))) => text case _ => ""
  }

  ghost predicate ReadYamlIn(from: State, steps: seq<Step>, k: nat, yaml: string)
    requires IsRun(from, steps)
  {
    exists n: nat :: n < |steps| && ReadYamlAt(Before(from, steps, n), steps[n], k, yaml)
  }

  ghost predicate ReadSoulIn(from: State, steps: seq<Step>, k: nat, soul: string)
    requires IsRun(from, steps)
  {
    exists n: nat :: n < |steps| && ReadSoulAt(Before(from, steps, n), steps[n], k, soul)
  }

  ghost predicate Happened(steps: seq<Step>, step: Step) {
    exists n: nat :: n < |steps| && steps[n] == step
  }

  predicate WasValid(v: Session) {
    v.published || v.phase.Valid? || Holding(v.phase) || v.phase.Published?
  }

  predicate HasYaml(v: Session) {
    !v.phase.Reading? && !v.phase.Ended?
  }

  predicate HasBoth(v: Session) {
    HasYaml(v) && !v.phase.ReadYaml?
  }

  /** Where the parts of a session come from in one step. */
  ghost predicate CameInAStep(s: State, step: Step, t: State, k: nat)
    requires k in t.sessions
  {
    var v := t.sessions[k];
    && (HasYaml(v) ==>
          (k in s.sessions && HasYaml(s.sessions[k]) && s.sessions[k].yaml == v.yaml) || ReadYamlAt(s, step, k, v.yaml))
    && (HasBoth(v) ==>
          (k in s.sessions && HasBoth(s.sessions[k]) && s.sessions[k].soul == v.soul) || ReadSoulAt(s, step, k, v.soul))
    && (v.editorOk ==> (k in s.sessions && s.sessions[k].editorOk) || step == EditorExits(k, true))
    && (WasValid(v) ==> (k in s.sessions && WasValid(s.sessions[k])) || step == ReadsBackAndChecks(k, true))
  }

  lemma EarlyStepBrings(s: State, step: Step, k: nat)
    requires Enabled(s, step) && IsEarlyStep(step) && k in Apply(s, step).sessions
    ensures CameInAStep(s, step, Apply(s, step), k)
  {
    if step.k != k {
      EarlyStepIsOwn(s, step, k);
    }
  }

  lemma OneStepBrings(s: State, step: Step, k: nat)
    requires Enabled(s, step) && k in Apply(s, step).sessions
    ensures CameInAStep(s, step, Apply(s, step), k)
  {
    if IsEarlyStep(step) {
      EarlyStepBrings(s, step, k);
    }
  }

  ghost predicate CameIn(from: State, steps: seq<Step>, k: nat)
    requires IsRun(from, steps)
  {
    k in After(from, steps).sessions ==>
      var v := After(from, steps).sessions[k];
      && (HasYaml(v) ==> ReadYamlIn(from, steps, k, v.yaml))
      && (HasBoth(v) ==> ReadSoulIn(from, steps, k, v.soul))
      && (v.editorOk ==> Happened(steps, EditorExits(k, true)))
      && (WasValid(v) ==> Happened(steps, ReadsBackAndChecks(k, true)))
  }

  lemma InMoreSteps(from: State, steps: seq<Step>, k: nat, text: string, other: Step)
    requires IsRun(from, steps) && steps != []
    ensures var front, step := steps[..|steps| - 1], steps[|steps| - 1];
            && (ReadYamlIn(from, front, k, text) || ReadYamlAt(After(from, front), step, k, text) ==>
                  ReadYamlIn(from, steps, k, text))
            && (ReadSoulIn(from, front, k, text) || ReadSoulAt(After(from, front), step, k, text) ==>
                  ReadSoulIn(from, steps, k, text))
            && (Happened(front, other) || step == other ==> Happened(steps, other))
  {
    var front := steps[..|steps| - 1];
    LastStep(from, steps);
    assert forall n: nat :: n < |front| ==> steps[n] == front[n];
    assert steps[|front|] == steps[|steps| - 1];
  }

  /** Over every run: a session that is still at work compares with what it read at its two
      reads, and one that published had its editor succeed and its edits pass the checks. */
  lemma {:induction false} SessionTellsTheRun(c: Content, steps: seq<Step>, k: nat)
    requires IsRun(Initial(c), steps)
    ensures CameIn(Initial(c), steps, k)
  {
    if steps != [] && k in After(Initial(c), steps).sessions {
      var front, step := steps[..|steps| - 1], steps[|steps| - 1];
      var v := After(Initial(c), steps).sessions[k];
      SessionTellsTheRun(c, front, k);
      LastStep(Initial(c), steps);
      OneStepBrings(After(Initial(c), front), step, k);
      InMoreSteps(Initial(c), steps, k, v.yaml, EditorExits(k, true));
      InMoreSteps(Initial(c), steps, k, v.soul, ReadsBackAndChecks(k, true));
    }
  }

  // ------------------------------------------------------------- whole courses

  /** And it is between the two renames of its publish. */
  lemma AwayAlone(c: Content) returns (steps: seq<Step>)
    requires NoNul(c.yaml)
    ensures IsRun(Initial(c), steps)
    ensures After(Initial(c), steps) ==
            OneSession(c, None, Some(0), Session(Away(c), c.yaml, SoulText(c), true, true, true, false), [])
  {
    steps := EditedAlone(c);
    var v := Session(Valid, c.yaml, SoulText(c), false, true, true, false);
    var w := v.(phase := Locked);
    steps := OneSessionStep(c, steps, OneSession(c, Some(c), None, v, []), Locks(0),
                            OneSession(c, Some(c), Some(0), w, []));
    v := w.(phase := Checked, soulRead := true);
    steps := OneSessionStep(c, steps, OneSession(c, Some(c), Some(0), w, []), Compares(0, true, true),
                            OneSession(c, Some(c), Some(0), v, []));
    steps := OneSessionStep(c, steps, OneSession(c, Some(c), Some(0), v, []), MovesAway(0, true),
                            OneSession(c, None, Some(0), v.(phase := Away(c)), []));
  }

  /** An edit that nothing disturbs is published, for every profile that parses and whatever
      the new texts are, and its staged copy goes. */
  lemma UndisturbedEditIsPublished(c: Content, yaml: string, soul: string) returns (steps: seq<Step>, s: State)
    requires NoNul(c.yaml) && NoNul(yaml)
    ensures IsRun(Initial(c), steps) && After(Initial(c), steps) == s
    ensures s.disk == Some(Content(yaml, Some(soul))) && s.lock.None? && 0 in s.sessions
    ensures s.sessions[0].phase.Ended? && s.sessions[0].published && !s.sessions[0].staged
  {
    steps := AwayAlone(c);
    var v := Session(Away(c), c.yaml, SoulText(c), true, true, true, false);
    var now := Content(yaml, Some(soul));
    var saves := [] + [Save(c.yaml, SoulText(c), true, c, now)];
    var w := v.(phase := Published, published := true);
    steps := OneSessionStep(c, steps, OneSession(c, None, Some(0), v, []), MovesIn(0, true, true, yaml, soul),
                            OneSession(c, Some(now), None, w, saves));
    s := OneSession(c, Some(now), None, w.(phase := Ended, staged := false), saves);
    steps := OneSessionStep(c, steps, OneSession(c, Some(now), None, w, saves), Answers(0, true), s);
  }

  /** A kill between the two renames, and a roll-back that fails, leave no profile. */
  lemma LostBetweenTheRenames(c: Content, killed: bool) returns (steps: seq<Step>, s: State)
    requires NoNul(c.yaml)
    ensures IsRun(Initial(c), steps) && After(Initial(c), steps) == s
    ensures s.disk.None? && s.lock.None? && !SomeAway(s)
  {
    steps := AwayAlone(c);
    var v := Session(Away(c), c.yaml, SoulText(c), true, true, true, false);
    s := OneSession(c, None, None, v.(phase := Ended), []);
    steps := OneSessionStep(c, steps, OneSession(c, None, Some(0), v, []),
                            if killed then Killed(0) else MovesIn(0, false, false, "", ""), s);
  }
}
