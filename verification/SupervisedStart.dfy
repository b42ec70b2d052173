/**
 The hand-over of `apb run --supervise`: the parent gates the tree and obtains
 the consent, writes a take-once handoff, spawns a child and polls a handshake
 file; the child takes the handoff, gates again and prepares the run
 (crates/apb-cli/src/run.rs, consent.rs; the handoff file itself in
 crates/apb-engine/src/launch_handoff.rs). Edits of the playbook, other
 processes that reach for the handoff, time and crashes interleave anywhere.

 Taken for granted of the engine: preparation refuses a tree other than the
 one the gate pinned, and a run id is not empty and does not start with "ERR: ".
 */
module SupervisedStart {
  import opened Options
  import opened Text

  /** What the gate reads: whether the tree declares `irreversible`, and the
      consent nonce of its digest and sources (trees may share one). */
  datatype Tree = Tree(content: nat, irreversible: bool, nonce: string)

  /** A confirmation of irreversible effects: a bare flag, an explicit `false`, or a nonce. */
  datatype Confirmation = Flag(given: bool) | Nonce(nonce: string)

  /** `Ask`: the value of `--confirm-irreversible`, if it was given. */
  datatype CliConsent = Ask(flag: Option<string>) | Forwarded(who: string, nonce: string) | NoConsent

  datatype Granted = Granted(who: string, nonce: string)

  /** `Confirmation::from_cli`. */
  function FromCli(value: string): Confirmation {
    var v := Trim(value);
    if v == "" || v == "true" then Flag(true)
    else if v == "false" then Flag(false)
    else Nonce(v)
  }

  /** `ConsentNeed::check`. A nonce has no white space around it, so that the trim of
      one that was forwarded changes nothing. */
  predicate Accepts(tree: Tree, c: Confirmation) {
    match c
    case Nonce(n) => n == tree.nonce
    case Flag(given) => given
  }

  function LowerChar(c: char): char {
    if 'A' <= c <= 'Z' then (c as int + 32) as char else c
  }

  /** What `ask_terminal` makes of a typed line. */
  predicate IsYes(line: string) {
    var t := Lowered(Trim(line));
    t == "y" || t == "yes"
  }

  function Lowered(t: string): (r: string)
    ensures |r| == |t| && forall i :: 0 <= i < |r| ==> r[i] == LowerChar(t[i])
  {
    seq(|t|, i requires 0 <= i < |t| => LowerChar(t[i]))
  }

  /** `consent::obtain` for a tree that needs consent. `nested`: the process runs
      inside a run step. `line`: what a person typed, if there is one to ask. */
  function Obtain(tree: Tree, how: CliConsent, nested: bool, line: Option<string>): (r: Option<Granted>)
    ensures r.Some? ==> r.value.nonce == tree.nonce && !nested
    ensures r.Some? && how.Forwarded? ==> how.nonce == tree.nonce && r.value.who == how.who
    ensures how.NoConsent? ==> r.None?
  {
    if nested then None
    else match how
      case Ask(Some(value)) => if Accepts(tree, FromCli(value)) then Some(Granted("cli_flag", tree.nonce)) else None
      case Ask(None) => if line.Some? && IsYes(line.value) then Some(Granted("cli", tree.nonce)) else None
      case Forwarded(who, n) => if Accepts(tree, Nonce(n)) then Some(Granted(who, tree.nonce)) else None
      case NoConsent => None
  }

  /** The part of `gate_run` about consent: a tree without irreversible effects
      needs none. `launchOk` is the launch policy's answer. */
  datatype Gated = Refused | Passed(consent: Option<Granted>)

  function Gate(tree: Tree, how: CliConsent, nested: bool, line: Option<string>, launchOk: bool): (g: Gated)
    ensures g.Passed? && tree.irreversible ==> g.consent.Some? && g.consent.value.nonce == tree.nonce
    ensures g.Passed? && how.NoConsent? ==> !tree.irreversible
    ensures g.Passed? && how.Forwarded? && tree.irreversible ==> how.nonce == tree.nonce
  {
    if !launchOk then Refused
    else if !tree.irreversible then Passed(None)
    else match Obtain(tree, how, nested, line)
      case Some(g) => Passed(Some(g))
      case None => Refused
  }

  // ---------------------------------------------------------- who consented

  /** `text` is `word` with white space around it. */
  ghost predicate Says(text: string, word: string) {
    exists a, b :: AllSpace(a) && AllSpace(b) && text == a + word + b
  }

  /** A flag that was given: bare, as `true`, or with this very nonce. */
  ghost predicate FlagConfirms(value: string, nonce: string) {
    || Says(value, "") || Says(value, "true")
    || (nonce != "false" && Trim(nonce) == nonce && Says(value, nonce))
  }

  const YES_WORDS := {"y", "Y", "yes", "yeS", "yEs", "yES", "Yes", "YeS", "YEs", "YES"}

  ghost predicate TypedYes(line: string) {
    exists word :: word in YES_WORDS && Says(line, word)
  }

  /** Somebody consented to the tree of this nonce: by flag, by typing yes where no flag
      was given, or through the parent process, for this nonce. */
  ghost predicate Consented(how: CliConsent, line: Option<string>, who: string, nonce: string) {
    || (how.Ask? && how.flag.Some? && FlagConfirms(how.flag.value, nonce) && who == "cli_flag")
    || (how == Ask(None) && line.Some? && TypedYes(line.value) && who == "cli")
    || how == Forwarded(who, nonce)
  }

  lemma SaysItsTrim(text: string, word: string)
    requires Trim(word) == word
    ensures Says(text, word) <==> Trim(text) == word
  {
    var a, b := TrimSplits(text);
    if Says(text, word) {
      var c, d :| AllSpace(c) && AllSpace(d) && text == c + word + d;
      TrimLeavesEnds(word);
      TrimFindsTheCore(c, word, d);
    }
  }

  lemma YesWords(t: string)
    ensures Lowered(t) == "y" || Lowered(t) == "yes" <==> t in YES_WORDS
  {
    var lower := Lowered(t);
    if |t| == 1 {
      assert lower == [lower[0]] && t == [t[0]];
    } else if |t| == 3 {
      assert lower == [lower[0], lower[1], lower[2]] && t == [t[0], t[1], t[2]];
    }
  }

  lemma YesIsTyped(line: string)
    ensures IsYes(line) <==> TypedYes(line)
  {
    var t := Trim(line);
    YesWords(t);
    forall word | word in YES_WORDS ensures Says(line, word) <==> t == word {
      TrimLeavesEnds(word);
      SaysItsTrim(line, word);
    }
  }

  lemma FlagIsRead(tree: Tree, value: string)
    ensures Accepts(tree, FromCli(value)) <==> FlagConfirms(value, tree.nonce)
  {
    TrimLeavesEnds("true");
    TrimLeavesEnds("");
    SaysItsTrim(value, "");
    SaysItsTrim(value, "true");
    var a, b := TrimSplits(value);
    TrimLeavesEnds(Trim(value));
    if Trim(tree.nonce) == tree.nonce {
      SaysItsTrim(value, tree.nonce);
    }
  }

  /** A consent is granted exactly when somebody gave it, for this very tree, outside a
      run step; and it names who did. */
  lemma GrantedIffConsented(tree: Tree, how: CliConsent, nested: bool, line: Option<string>, g: Granted)
    ensures Obtain(tree, how, nested, line) == Some(g) <==>
            !nested && g.nonce == tree.nonce && Consented(how, line, g.who, tree.nonce)
  {
    if how.Ask? && how.flag.Some? {
      FlagIsRead(tree, how.flag.value);
    }
    if line.Some? {
      YesIsTyped(line.value);
    }
  }

  /** The gate lets a tree pass exactly when the launch policy does and, if the tree has
      irreversible effects, somebody consented. */
  lemma PassesIffConsented(tree: Tree, how: CliConsent, nested: bool, line: Option<string>, launchOk: bool)
    ensures Gate(tree, how, nested, line, launchOk).Passed? <==>
            launchOk && (tree.irreversible ==> !nested && exists who :: Consented(how, line, who, tree.nonce))
  {
    var r := Obtain(tree, how, nested, line);
    if r.Some? {
      GrantedIffConsented(tree, how, nested, line, r.value);
    }
    forall who | Consented(how, line, who, tree.nonce) && !nested ensures r.Some? {
      GrantedIffConsented(tree, how, nested, line, Granted(who, tree.nonce));
    }
  }

  // ------------------------------------------------------------------ state

  const MAX_AGE: nat := 60          // seconds a handoff may be old when it is taken
  const HANDSHAKE_WAIT: nat := 10   // seconds the parent polls
  const ERR := "ERR: "

  /** `whole`: it was written to its end, so it reads. */
  datatype Handoff = Handoff(written: nat, consent: Option<Granted>, whole: bool)

  /** How a write may end: the file is created exclusively first, then written and
      synced; a failure after the creation leaves it, whole or not. */
  datatype WriteEnd = Written | NotCreated | LeftBehind(whole: bool)

  /** What the parent printed: a run id, or a failure for one of three reasons. */
  datatype Outcome = StartedLine(run: string) | RefusedLine | ReportedLine | TimeoutLine

  datatype Parent =
    | BeforeGate
    | AfterGate(consent: Option<Granted>)
    | AfterWrite
    | Polling(deadline: nat)
    | Returned(outcome: Outcome)
    | ParentKilled

  datatype Child =
    | NotSpawned
    | Spawned
    | KnowsParent(writerIsParent: bool)                       // `parent_pid()` was read
    | Opened(writerIsParent: bool, file: Option<Handoff>)     // the handoff was read, not yet deleted
    | Ready(how: CliConsent)                                  // `take` answered
    | Pinned(tree: Tree)                                      // the child's gate passed
    | Prepared(run: string)
    | Done

  datatype Run = Run(id: string, tree: Tree)

  /** What went wrong so far: a write after it created the file, a removal of it. */
  datatype Faults = Faults(write: bool, removal: bool)

  const NO_FAULTS := Faults(false, false)

  /** `shown` is the tree the parent's gate saw, `granted` the consent it obtained,
      `takes` how often a handoff was taken successfully. */
  datatype State = State(
    now: nat, tree: Tree, nested: bool, parent: Parent, child: Child,
    handoff: Option<Handoff>, handshake: string,
    shown: Option<Tree>, granted: Option<Granted>, takes: nat, runs: seq<Run>, faults: Faults)

  function Initial(tree: Tree, nested: bool): State {
    State(0, tree, nested, BeforeGate, NotSpawned, None, "", None, None, 0, [], NO_FAULTS)
  }

  datatype Step =
    | Edit(tree: Tree)
    | Tick(to: nat)
    | ParentGates(flag: Option<string>, line: Option<string>, launchOk: bool)
    | ParentRefuses                    // budget, notify or challenge refused
    | ParentWrites(end: WriteEnd)
    | ParentSpawns(ok: bool, removed: bool)
    | ParentReads(removed: bool)
    | ParentTimesOut(removed: bool)
    | KillParent
    | StrangerTakes                    // a process that is not the parent's child
    | ChildArgsFail(msg: string, told: bool)
    | ChildReadsParent
    | ChildOpens
    | ChildTakes(removed: bool)
    | ChildGates(launchOk: bool, msg: string, told: bool)
    | ChildPrepares(ok: bool, run: string, msg: string, told: bool)
    | ChildReports(ok: bool)
    | KillChild

  predicate IsPrefix(p: string, s: string) {
    |p| <= |s| && s[..|p|] == p
  }

  predicate IsRunId(s: string) {
    s != "" && !IsPrefix(ERR, s)
  }

  predicate ParentRuns(s: State) {
    !s.parent.Returned? && !s.parent.ParentKilled?
  }

  predicate Enabled(s: State, step: Step) {
    match step
    case Edit(_) => true
    case Tick(to) => s.now <= to
    case ParentGates(_, _, _) => s.parent.BeforeGate?
    case ParentRefuses => s.parent.AfterGate?
    case ParentWrites(_) => s.parent.AfterGate?
    case ParentSpawns(_, _) => s.parent.AfterWrite?
    case ParentReads(_) => s.parent.Polling? && s.handshake != ""
    case ParentTimesOut(_) => s.parent.Polling? && s.now > s.parent.deadline
    case KillParent => ParentRuns(s)
    case StrangerTakes => s.handoff.Some?
    case ChildArgsFail(_, _) => s.child.Spawned?
    case ChildReadsParent => s.child.Spawned?
    case ChildOpens => s.child.KnowsParent?
    case ChildTakes(_) => s.child.Opened?
    case ChildGates(_, _, _) => s.child.Ready?
    case ChildPrepares(ok, run, _, _) => s.child.Pinned? && (ok ==> IsRunId(run) && s.tree == s.child.tree)
    case ChildReports(_) => s.child.Prepared?
    case KillChild => s.child != NotSpawned
  }

  /** A return before the drop guard of the handoff exists. */
  function ReturnEarly(s: State, outcome: Outcome): State {
    s.(parent := Returned(outcome))
  }

  /** `discard`, which ignores a failure. */
  function Discard(s: State, removed: bool): State {
    if removed then s.(handoff := None) else s.(faults := s.faults.(removal := true))
  }

  /** Every return after the handoff was written goes through the drop guard. */
  function Return(s: State, outcome: Outcome, removed: bool): State {
    Discard(s.(parent := Returned(outcome)), removed)
  }

  /** The child ends with an error it tells through the handshake, if that is written. */
  function Report(s: State, msg: string, told: bool): State {
    s.(handshake := if told then ERR + msg else s.handshake, child := Done)
  }

  /** What `take` answers: the handoff must have been written by the child's own
      parent and be young enough. */
  function Taken(s: State): CliConsent
    requires s.child.Opened?
  {
    if TakeSucceeds(s)
    then
      match s.child.file.value.consent
      case Some(g) => Forwarded(g.who, g.nonce)
      case None => NoConsent
    else NoConsent
  }

  predicate TakeSucceeds(s: State)
    requires s.child.Opened?
  {
    && s.child.file.Some? && s.child.file.value.whole && s.child.writerIsParent
    && s.now <= s.child.file.value.written + MAX_AGE
  }

  function Apply(s: State, step: Step): State
    requires Enabled(s, step)
  {
    match step
    case Edit(tree) => s.(tree := tree)
    case Tick(to) => s.(now := to)
    case ParentGates(flag, line, launchOk) =>
      (match Gate(s.tree, Ask(flag), s.nested, line, launchOk)
       case Refused => ReturnEarly(s, RefusedLine)
       case Passed(consent) => s.(parent := AfterGate(consent), shown := Some(s.tree), granted := consent))
    case ParentRefuses => ReturnEarly(s, RefusedLine)
    case ParentWrites(end) =>
      (match end
       case Written => s.(handoff := Some(Handoff(s.now, s.parent.consent, true)), parent := AfterWrite)
       case NotCreated => ReturnEarly(s, RefusedLine)
       case LeftBehind(whole) =>
         ReturnEarly(s, RefusedLine).(
           handoff := Some(Handoff(s.now, s.parent.consent, whole)), faults := s.faults.(write := true)))
    case ParentSpawns(ok, removed) =>
      if ok then s.(parent := Polling(s.now + HANDSHAKE_WAIT), child := Spawned) else Return(s, RefusedLine, removed)
    case ParentReads(removed) =>
      var line := if IsPrefix(ERR, s.handshake) then ReportedLine else StartedLine(s.handshake);
      Return(s, line, removed).(handshake := "")
    case ParentTimesOut(removed) => Return(s, TimeoutLine, removed).(handshake := "")
    case KillParent => s.(parent := ParentKilled)
    case StrangerTakes => s.(handoff := None)
    case ChildArgsFail(msg, told) => Report(s, msg, told)
    case ChildReadsParent => s.(child := KnowsParent(ParentRuns(s)))
    case ChildOpens => s.(child := Opened(s.child.writerIsParent, s.handoff))
    case ChildTakes(removed) =>
      Discard(s.(child := Ready(Taken(s)), takes := s.takes + if TakeSucceeds(s) then 1 else 0), removed)
    case ChildGates(launchOk, msg, told) =>
      (match Gate(s.tree, s.child.how, s.nested, None, launchOk)
       case Refused => Report(s, msg, told)
       case Passed(_) => s.(child := Pinned(s.tree)))
    case ChildPrepares(ok, run, msg, told) =>
      if ok then s.(child := Prepared(run), runs := s.runs + [Run(run, s.tree)]) else Report(s, msg, told)
    case ChildReports(ok) => s.(child := Done, handshake := if ok then s.child.run else s.handshake)
    case KillChild => s.(child := Done)
  }

  // ------------------------------------------------------------------- runs

  predicate IsRun(from: State, steps: seq<Step>)
    decreases |steps|, 0
  {
    steps != [] ==>
      IsRun(from, steps[..|steps| - 1]) && Enabled(After(from, steps[..|steps| - 1]), steps[|steps| - 1])
  }

  function After(from: State, steps: seq<Step>): State
    requires IsRun(from, steps)
    decreases |steps|, 1
  {
    if steps == [] then from else Apply(After(from, steps[..|steps| - 1]), steps[|steps| - 1])
  }

  ghost predicate Reachable(s: State) {
    exists tree, nested, steps :: IsRun(Initial(tree, nested), steps) && After(Initial(tree, nested), steps) == s
  }

  // -------------------------------------------------------------- invariant

  /** What the handoff carries is what the parent obtained. */
  predicate OwnConsent(s: State, consent: Option<Granted>) {
    consent == s.granted
  }

  /** A tree with irreversible effects got past a gate of the child only with that consent. */
  predicate Covered(s: State, tree: Tree) {
    tree.irreversible ==> s.granted.Some? && s.granted.value.nonce == tree.nonce
  }

  ghost predicate Started(s: State, run: string) {
    exists n :: 0 <= n < |s.runs| && s.runs[n].id == run
  }

  /** Whether the child has not called `take` to its end yet. */
  predicate BeforeTake(c: Child) {
    c.NotSpawned? || c.Spawned? || c.KnowsParent? || c.Opened?
  }

  /** What every step keeps about the consent the parent obtained. */
  ghost predicate GrantInv(s: State) {
    && (s.granted.Some? ==> s.shown.Some? && s.granted.value.nonce == s.shown.value.nonce && !s.nested)
    && (s.parent.BeforeGate? ==> s.granted.None? && s.child.NotSpawned? && s.handoff.None?)
    && (s.parent.AfterGate? ==> s.parent.consent == s.granted && s.child.NotSpawned? && s.handoff.None?)
    && (s.parent.AfterWrite? ==> s.child.NotSpawned?)
    && (s.handoff.Some? ==> OwnConsent(s, s.handoff.value.consent))
  }

  /** What every step keeps about the child. */
  ghost predicate ChildInv(s: State) {
    && (s.child.Opened? && s.child.file.Some? ==> OwnConsent(s, s.child.file.value.consent))
    && (s.child.Ready? && s.child.how.Forwarded? ==> s.granted == Some(Granted(s.child.how.who, s.child.how.nonce)))
    && (s.child.Ready? ==> !s.child.how.Ask?)
    && (s.child.Pinned? ==> Covered(s, s.child.tree))
  }

  /** What every step keeps about the prepared runs. */
  ghost predicate RunsInv(s: State) {
    && (s.child.NotSpawned? ==> s.runs == [])
    && (forall n :: 0 <= n < |s.runs| ==> Covered(s, s.runs[n].tree))
  }

  /** What every step keeps about the handoff file: taken at most once, and gone at the
      return but for a fault. */
  predicate FileInv(s: State) {
    && s.takes <= 1 && (BeforeTake(s.child) ==> s.takes == 0)
    && (s.parent.Returned? && s.handoff.Some? ==> s.faults != NO_FAULTS)
  }

  ghost predicate ConsentInv(s: State) {
    GrantInv(s) && ChildInv(s) && RunsInv(s) && FileInv(s)
  }

  /** What every step keeps about the handshake and the printed line. */
  ghost predicate LineInv(s: State) {
    && (s.runs != [] ==> s.child.Prepared? || s.child.Done?)
    && (s.child.NotSpawned? || s.parent.Polling? || s.parent.Returned? || s.parent.ParentKilled?)
    && (s.child.NotSpawned? ==> s.handshake == "")
    && (s.child.Prepared? ==> Started(s, s.child.run) && IsRunId(s.child.run))
    && (IsPrefix(ERR, s.handshake) ==> s.runs == [] && s.child.Done?)
    && (s.handshake != "" && !IsPrefix(ERR, s.handshake) ==> Started(s, s.handshake))
    && (s.parent.Returned? ==>
          match s.parent.outcome
          case StartedLine(run) => Started(s, run)
          case RefusedLine => s.child.NotSpawned?
          case ReportedLine => s.runs == [] && s.child.Done?
          case TimeoutLine => true)
  }

  /** The steps of the child; all others are the parent's or come from outside. */
  predicate IsChildStep(step: Step) {
    || step.ChildArgsFail? || step.ChildReadsParent? || step.ChildOpens? || step.ChildTakes? || step.ChildGates?
    || step.ChildPrepares? || step.ChildReports? || step.KillChild?
  }

  lemma ParentKeepsGrant(s: State, step: Step)
    requires Enabled(s, step) && !IsChildStep(step) && GrantInv(s)
    ensures GrantInv(Apply(s, step))
  {
  }

  lemma ParentKeepsChild(s: State, step: Step)
    requires Enabled(s, step) && !IsChildStep(step) && GrantInv(s) && ChildInv(s) && RunsInv(s)
    ensures ChildInv(Apply(s, step)) && RunsInv(Apply(s, step))
  {
  }

  lemma ParentKeepsFile(s: State, step: Step)
    requires Enabled(s, step) && !IsChildStep(step) && GrantInv(s) && FileInv(s)
    ensures FileInv(Apply(s, step))
  {
  }

  lemma ChildKeepsGrant(s: State, step: Step)
    requires Enabled(s, step) && IsChildStep(step) && GrantInv(s)
    ensures GrantInv(Apply(s, step))
  {
  }

  lemma ChildKeepsChild(s: State, step: Step)
    requires Enabled(s, step) && IsChildStep(step) && GrantInv(s) && ChildInv(s)
    ensures ChildInv(Apply(s, step))
  {
  }

  lemma ChildKeepsRuns(s: State, step: Step)
    requires Enabled(s, step) && IsChildStep(step) && ChildInv(s) && RunsInv(s)
    ensures RunsInv(Apply(s, step))
  {
  }

  lemma ChildKeepsFile(s: State, step: Step)
    requires Enabled(s, step) && IsChildStep(step) && FileInv(s)
    ensures FileInv(Apply(s, step))
  {
  }

  lemma ConsentKept(s: State, step: Step)
    requires Enabled(s, step) && ConsentInv(s)
    ensures ConsentInv(Apply(s, step))
  {
    if IsChildStep(step) {
      ChildKeepsGrant(s, step);
      ChildKeepsChild(s, step);
      ChildKeepsRuns(s, step);
      ChildKeepsFile(s, step);
    } else {
      ParentKeepsGrant(s, step);
      ParentKeepsChild(s, step);
      ParentKeepsFile(s, step);
    }
  }

  lemma ParentKeepsLine(s: State, step: Step)
    requires Enabled(s, step) && !IsChildStep(step) && LineInv(s)
    ensures LineInv(Apply(s, step))
  {
    assert forall run :: Started(s, run) ==> Started(Apply(s, step), run);
  }

  lemma ChildKeepsLine(s: State, step: Step)
    requires Enabled(s, step) && IsChildStep(step) && LineInv(s)
    ensures LineInv(Apply(s, step))
  {
    var t := Apply(s, step);
    if step.ChildPrepares? && step.ok {
      assert t.runs[|s.runs|].id == step.run;
    } else {
      assert t.runs == s.runs;
      assert forall run :: Started(s, run) ==> Started(t, run);
    }
  }

  lemma LineKept(s: State, step: Step)
    requires Enabled(s, step) && LineInv(s)
    ensures LineInv(Apply(s, step))
  {
    if IsChildStep(step) {
      ChildKeepsLine(s, step);
    } else {
      ParentKeepsLine(s, step);
    }
  }

  lemma {:induction false} RunKeepsTheInvariant(from: State, steps: seq<Step>)
    requires IsRun(from, steps) && ConsentInv(from) && LineInv(from)
    ensures ConsentInv(After(from, steps)) && LineInv(After(from, steps))
  {
    if steps != [] {
      RunKeepsTheInvariant(from, steps[..|steps| - 1]);
      ConsentKept(After(from, steps[..|steps| - 1]), steps[|steps| - 1]);
      LineKept(After(from, steps[..|steps| - 1]), steps[|steps| - 1]);
    }
  }

  lemma ReachableKeepsTheInvariant(s: State)
    requires Reachable(s)
    ensures ConsentInv(s) && LineInv(s)
  {
    var tree, nested, steps :| IsRun(Initial(tree, nested), steps) && After(Initial(tree, nested), steps) == s;
    RunKeepsTheInvariant(Initial(tree, nested), steps);
  }

  // -------------------------------------------------------------- theorems

  /** Consent: in every interleaving, a run of a tree with irreversible effects
      was prepared only under the nonce of the tree the parent's consent was
      given for, and never from inside a run step. */
  lemma ChildRunsOnlyWhatWasConsentedTo(s: State, n: nat)
    requires Reachable(s) && n < |s.runs| && s.runs[n].tree.irreversible
    ensures s.granted.Some? && s.shown.Some? && !s.nested
    ensures s.runs[n].tree.nonce == s.granted.value.nonce == s.shown.value.nonce
  {
    ReachableKeepsTheInvariant(s);
    assert Covered(s, s.runs[n].tree);
  }

  lemma {:induction false} BeginningIsRun(from: State, steps: seq<Step>, n: nat)
    requires IsRun(from, steps) && n <= |steps|
    ensures IsRun(from, steps[..n])
  {
    if n < |steps| {
      BeginningIsRun(from, steps[..|steps| - 1], n);
      assert steps[..|steps| - 1][..n] == steps[..n];
    } else {
      assert steps[..n] == steps;
    }
  }

  /** The state in which step `n` of a run is taken. */
  ghost function Before(from: State, steps: seq<Step>, n: nat): (s: State)
    requires IsRun(from, steps) && n <= |steps|
  {
    BeginningIsRun(from, steps, n);
    After(from, steps[..n])
  }

  /** One step further, everything before is as it was. */
  lemma LastStep(from: State, steps: seq<Step>)
    requires IsRun(from, steps) && steps != []
    ensures var front := steps[..|steps| - 1];
            && Before(from, steps, |front|) == After(from, front)
            && After(from, steps) == Apply(After(from, front), steps[|front|])
            && forall n: nat :: n < |steps| ==> Before(from, steps, n) == Before(from, front, n)
  {
    var front := steps[..|steps| - 1];
    forall n: nat | n < |steps| ensures Before(from, steps, n) == Before(from, front, n) {
      assert front[..n] == steps[..n];
    }
    assert front[..|front|] == front;
  }

  /** At this step of the parent's gate somebody consented to the tree at hand. */
  ghost predicate GivesConsent(s: State, step: Step, g: Granted) {
    && step.ParentGates? && step.launchOk && s.tree.irreversible && !s.nested && g.nonce == s.tree.nonce
    && Consented(Ask(step.flag), step.line, g.who, s.tree.nonce)
  }

  lemma OneStepGrants(s: State, step: Step, g: Granted)
    requires Enabled(s, step) && GrantInv(s)
    ensures Apply(s, step).granted == Some(g) <==> s.granted == Some(g) || GivesConsent(s, step, g)
  {
    if step.ParentGates? {
      GrantedIffConsented(s.tree, Ask(step.flag), s.nested, step.line, g);
    }
  }

  ghost predicate GivenIn(from: State, steps: seq<Step>, g: Granted)
    requires IsRun(from, steps)
  {
    exists n: nat :: n < |steps| && GivesConsent(Before(from, steps, n), steps[n], g)
  }

  lemma GivenInMore(from: State, steps: seq<Step>, g: Granted)
    requires IsRun(from, steps) && steps != []
    ensures var front := steps[..|steps| - 1];
            GivenIn(from, steps, g) <==>
            GivenIn(from, front, g) || GivesConsent(After(from, front), steps[|front|], g)
  {
    LastStep(from, steps);
    assert forall n: nat :: n < |steps| - 1 ==> steps[n] == steps[..|steps| - 1][n];
  }

  /** Over every run: the parent holds a consent exactly when its gate met somebody who
      gave it, for the tree it saw at that moment. */
  lemma {:induction false} GrantWasGiven(tree: Tree, nested: bool, steps: seq<Step>, g: Granted)
    requires IsRun(Initial(tree, nested), steps)
    ensures After(Initial(tree, nested), steps).granted == Some(g) <==> GivenIn(Initial(tree, nested), steps, g)
  {
    if steps != [] {
      var from, front := Initial(tree, nested), steps[..|steps| - 1];
      GrantWasGiven(tree, nested, front, g);
      GivenInMore(from, steps, g);
      RunKeepsTheInvariant(from, front);
      OneStepGrants(After(from, front), steps[|front|], g);
    }
  }

  /** Behind every prepared run of a tree with irreversible effects stands somebody who
      consented to a tree of its nonce at the parent's gate: with the flag, or by typing yes. */
  lemma EveryRunWasConsentedTo(tree: Tree, nested: bool, steps: seq<Step>, k: nat) returns (n: nat, who: string)
    requires IsRun(Initial(tree, nested), steps)
    requires k < |After(Initial(tree, nested), steps).runs|
    requires After(Initial(tree, nested), steps).runs[k].tree.irreversible
    ensures n < |steps|
    ensures GivesConsent(Before(Initial(tree, nested), steps, n), steps[n],
                         Granted(who, After(Initial(tree, nested), steps).runs[k].tree.nonce))
  {
    var s := After(Initial(tree, nested), steps);
    assert Reachable(s);
    ChildRunsOnlyWhatWasConsentedTo(s, k);
    who := s.granted.value.who;
    GrantWasGiven(tree, nested, steps, s.granted.value);
    n :| n < |steps| && GivesConsent(Before(Initial(tree, nested), steps, n), steps[n], s.granted.value);
  }

  /** What the parent's and the child's states say about the steps before: there was no
      write or one, at the moment the handoff carries, and so for the read of the parent. */
  ghost predicate HistoryInv(from: State, steps: seq<Step>, s: State)
    requires IsRun(from, steps)
  {
    && (s.parent.BeforeGate? || s.parent.AfterGate? ==> NotWritten(steps))
    && (!s.child.NotSpawned? || s.parent.AfterWrite? ==> WasWritten(from, steps))
    && (s.handoff.Some? ==> WrittenAsItSays(from, steps, s.handoff.value))
    && (s.child.Opened? && s.child.file.Some? ==> WrittenAsItSays(from, steps, s.child.file.value))
    && (s.child.NotSpawned? || s.child.Spawned? ==> NotRead(steps))
    && (s.child.KnowsParent? || s.child.Opened? ==> ReadAs(from, steps, s.child.writerIsParent))
    && (s.parent.Polling? ==> SpawnedInTime(from, steps, s.parent.deadline))
  }

  ghost predicate NotWritten(steps: seq<Step>) {
    forall n: nat :: n < |steps| ==> !steps[n].ParentWrites?
  }

  ghost predicate NotRead(steps: seq<Step>) {
    forall n: nat :: n < |steps| ==> !steps[n].ChildReadsParent?
  }

  ghost predicate WasWritten(from: State, steps: seq<Step>)
    requires IsRun(from, steps)
  {
    exists n: nat :: n < |steps| && steps[n] == ParentWrites(Written)
  }

  /** The handoff is whole unless a write failed, and carries the moment of its write. */
  ghost predicate WrittenAsItSays(from: State, steps: seq<Step>, h: Handoff)
    requires IsRun(from, steps)
  {
    forall n: nat :: n < |steps| && steps[n].ParentWrites? ==>
      h.written == Before(from, steps, n).now && (steps[n] == ParentWrites(Written) ==> h.whole)
  }

  /** The child read its parent, which was still running or not. */
  ghost predicate ReadAs(from: State, steps: seq<Step>, running: bool)
    requires IsRun(from, steps)
  {
    && (exists n: nat :: n < |steps| && steps[n].ChildReadsParent?)
    && forall n: nat :: n < |steps| && steps[n].ChildReadsParent? ==> ParentRuns(Before(from, steps, n)) == running
  }

  ghost predicate SpawnedInTime(from: State, steps: seq<Step>, deadline: nat)
    requires IsRun(from, steps)
  {
    exists n: nat :: n < |steps| && steps[n].ParentSpawns? && deadline == Before(from, steps, n).now + HANDSHAKE_WAIT
  }

  /** What one more step leaves of the history. */
  lemma HistoryGrows(from: State, steps: seq<Step>)
    requires IsRun(from, steps) && steps != []
    ensures var front, step := steps[..|steps| - 1], steps[|steps| - 1];
            && (WasWritten(from, front) || step == ParentWrites(Written) ==> WasWritten(from, steps))
            && (NotWritten(front) && !step.ParentWrites? ==> NotWritten(steps))
            && (NotRead(front) && !step.ChildReadsParent? ==> NotRead(steps))
  {
    var front := steps[..|steps| - 1];
    LastStep(from, steps);
    assert forall n: nat :: n < |front| ==> steps[n] == front[n];
    assert steps[|front|] == steps[|steps| - 1];
  }

  /** The handoff carries this moment, and is whole if the write works. */
  predicate SaysNow(h: Handoff, s: State, step: Step) {
    h.written == s.now && (step == ParentWrites(Written) ==> h.whole)
  }

  lemma WritingGrows(from: State, steps: seq<Step>, h: Handoff)
    requires IsRun(from, steps) && steps != []
    ensures var front, step := steps[..|steps| - 1], steps[|steps| - 1];
            && (!step.ParentWrites? && WrittenAsItSays(from, front, h) ==> WrittenAsItSays(from, steps, h))
            && (NotWritten(front) && SaysNow(h, After(from, front), step) ==> WrittenAsItSays(from, steps, h))
  {
    var front := steps[..|steps| - 1];
    LastStep(from, steps);
    assert forall n: nat :: n < |front| ==> steps[n] == front[n];
  }

  lemma ReadingGrows(from: State, steps: seq<Step>, running: bool)
    requires IsRun(from, steps) && steps != []
    ensures var front, step := steps[..|steps| - 1], steps[|steps| - 1];
            && (!step.ChildReadsParent? && ReadAs(from, front, running) ==> ReadAs(from, steps, running))
            && (step.ChildReadsParent? && NotRead(front) && ParentRuns(After(from, front)) == running ==>
                  ReadAs(from, steps, running))
  {
    var front := steps[..|steps| - 1];
    LastStep(from, steps);
    assert forall n: nat :: n < |front| ==> steps[n] == front[n];
    assert steps[|front|] == steps[|steps| - 1];
  }

  lemma SpawningGrows(from: State, steps: seq<Step>, deadline: nat)
    requires IsRun(from, steps) && steps != []
    ensures var front, step := steps[..|steps| - 1], steps[|steps| - 1];
            SpawnedInTime(from, front, deadline) ||
            (step.ParentSpawns? && deadline == After(from, front).now + HANDSHAKE_WAIT) ==>
              SpawnedInTime(from, steps, deadline)
  {
    var front := steps[..|steps| - 1];
    LastStep(from, steps);
    assert forall n: nat :: n < |front| ==> steps[n] == front[n];
    assert steps[|front|] == steps[|steps| - 1];
  }

  /** How the handoff and the parent change in a step. */
  predicate ParentChanges(s: State, step: Step, t: State) {
    && (t.handoff.None? || t.handoff == s.handoff ||
        (step.ParentWrites? && SaysNow(t.handoff.value, s, step)))
    && (step.ParentWrites? ==> s.parent.AfterGate? && s.child.NotSpawned? && s.handoff.None?)
    && (t.parent.BeforeGate? || t.parent.AfterGate? ==>
          (s.parent.BeforeGate? || s.parent.AfterGate?) && !step.ParentWrites?)
    && (t.parent.AfterWrite? ==> s.parent.AfterWrite? || step == ParentWrites(Written))
    && (t.parent.Polling? ==>
          t.parent == s.parent || (step.ParentSpawns? && t.parent.deadline == s.now + HANDSHAKE_WAIT))
  }

  /** How the child changes in a step. */
  predicate ChildChanges(s: State, step: Step, t: State) {
    && (step.ChildReadsParent? ==> s.child.Spawned?)
    && (!t.child.NotSpawned? ==> !s.child.NotSpawned? || s.parent.AfterWrite?)
    && (t.child.NotSpawned? || t.child.Spawned? ==>
          (s.child.NotSpawned? || s.child.Spawned?) && !step.ChildReadsParent?)
    && (t.child.KnowsParent? ==>
          t.child == s.child || (step.ChildReadsParent? && t.child.writerIsParent == ParentRuns(s)))
    && (t.child.Opened? ==>
          t.child == s.child || (s.child.KnowsParent? && t.child == Opened(s.child.writerIsParent, s.handoff)))
  }

  lemma StepChangesParent(s: State, step: Step)
    requires Enabled(s, step) && GrantInv(s)
    ensures ParentChanges(s, step, Apply(s, step))
  {
    if IsChildStep(step) {
      ChildStepLeavesParent(s, step);
    }
  }

  lemma ChildStepLeavesParent(s: State, step: Step)
    requires Enabled(s, step) && IsChildStep(step)
    ensures Apply(s, step).parent == s.parent
    ensures Apply(s, step).handoff == s.handoff || Apply(s, step).handoff.None?
  {
  }

  lemma StepChangesChild(s: State, step: Step)
    requires Enabled(s, step) && GrantInv(s)
    ensures ChildChanges(s, step, Apply(s, step))
  {
    if IsChildStep(step) {
      ChildStepChangesChild(s, step);
    }
  }

  lemma ChildStepChangesChild(s: State, step: Step)
    requires Enabled(s, step) && IsChildStep(step)
    ensures ChildChanges(s, step, Apply(s, step))
  {
  }

  lemma OneStepOfHistory(from: State, steps: seq<Step>, t: State)
    requires IsRun(from, steps) && steps != []
    requires var front, step := steps[..|steps| - 1], steps[|steps| - 1];
             var s := After(from, front);
             HistoryInv(from, front, s) && ParentChanges(s, step, t) && ChildChanges(s, step, t)
    ensures HistoryInv(from, steps, t)
  {
    HistoryGrows(from, steps);
    if t.handoff.Some? {
      WritingGrows(from, steps, t.handoff.value);
    }
    if t.child.Opened? && t.child.file.Some? {
      WritingGrows(from, steps, t.child.file.value);
    }
    if t.child.KnowsParent? || t.child.Opened? {
      ReadingGrows(from, steps, t.child.writerIsParent);
    }
    if t.parent.Polling? {
      SpawningGrows(from, steps, t.parent.deadline);
    }
  }

  lemma {:induction false} HistoryIsKept(tree: Tree, nested: bool, steps: seq<Step>)
    requires IsRun(Initial(tree, nested), steps)
    ensures HistoryInv(Initial(tree, nested), steps, After(Initial(tree, nested), steps))
  {
    if steps != [] {
      var from, front, step := Initial(tree, nested), steps[..|steps| - 1], steps[|steps| - 1];
      var s := After(from, front);
      HistoryIsKept(tree, nested, front);
      RunKeepsTheInvariant(from, front);
      StepChangesParent(s, step);
      StepChangesChild(s, step);
      OneStepOfHistory(from, steps, Apply(s, step));
    }
  }

  lemma StepAt(from: State, steps: seq<Step>, n: nat)
    requires IsRun(from, steps) && n < |steps|
    ensures Enabled(Before(from, steps, n), steps[n])
    ensures Before(from, steps, n + 1) == Apply(Before(from, steps, n), steps[n])
  {
    BeginningIsRun(from, steps, n + 1);
    LastStep(from, steps[..n + 1]);
    assert steps[..n + 1][..n] == steps[..n];
  }

  lemma BeforeInABeginning(from: State, steps: seq<Step>, n: nat, m: nat)
    requires IsRun(from, steps) && m < n <= |steps|
    ensures IsRun(from, steps[..n]) && steps[..n][m] == steps[m]
    ensures Before(from, steps[..n], m) == Before(from, steps, m)
  {
    BeginningIsRun(from, steps, n);
    assert steps[..n][..m] == steps[..m];
  }

  /** What is known of the steps before step `n`. */
  lemma HistoryBefore(tree: Tree, nested: bool, steps: seq<Step>, n: nat)
    requires IsRun(Initial(tree, nested), steps) && n < |steps|
    ensures var from := Initial(tree, nested);
            && IsRun(from, steps[..n]) && HistoryInv(from, steps[..n], Before(from, steps, n))
            && ConsentInv(Before(from, steps, n))
    ensures forall m: nat :: m < n ==>
              steps[..n][m] == steps[m] &&
              Before(Initial(tree, nested), steps[..n], m) == Before(Initial(tree, nested), steps, m)
  {
    var from := Initial(tree, nested);
    BeginningIsRun(from, steps, n);
    HistoryIsKept(tree, nested, steps[..n]);
    RunKeepsTheInvariant(from, steps[..n]);
    forall m: nat | m < n
      ensures steps[..n][m] == steps[m] && Before(from, steps[..n], m) == Before(from, steps, m)
    {
      BeforeInABeginning(from, steps, n, m);
    }
  }

  /** The parent has neither returned nor been killed. */
  predicate IsStillThere(p: Parent) {
    p.BeforeGate? || p.AfterGate? || p.AfterWrite? || p.Polling?
  }

  /** The child looked at its parent before step `n`, while that was still there. */
  ghost predicate SawItsParent(from: State, steps: seq<Step>, n: nat)
    requires IsRun(from, steps) && n <= |steps|
  {
    exists r: nat :: r < n && steps[r].ChildReadsParent? && IsStillThere(Before(from, steps, r).parent)
  }

  /** The handoff was written to its end at most 60 s before step `n`. */
  ghost predicate WrittenLately(from: State, steps: seq<Step>, n: nat)
    requires IsRun(from, steps) && n <= |steps|
  {
    exists w: nat :: w < n && steps[w] == ParentWrites(Written) &&
                     Before(from, steps, n).now <= Before(from, steps, w).now + 60
  }

  /** What a beginning of the run says about the child's look at its parent. */
  lemma ReadInABeginning(from: State, steps: seq<Step>, n: nat, running: bool)
    requires IsRun(from, steps) && n <= |steps| && IsRun(from, steps[..n]) && ReadAs(from, steps[..n], running)
    ensures running <==> SawItsParent(from, steps, n)
  {
    forall r: nat | r < n && steps[r].ChildReadsParent?
      ensures IsStillThere(Before(from, steps, r).parent) <==> running
    {
      BeforeInABeginning(from, steps, n, r);
      assert steps[..n][r].ChildReadsParent?;
    }
    var r: nat :| r < n && steps[..n][r].ChildReadsParent?;
    assert steps[r].ChildReadsParent?;
  }

  lemma ReadBefore(tree: Tree, nested: bool, steps: seq<Step>, n: nat)
    requires IsRun(Initial(tree, nested), steps) && n < |steps|
    requires Before(Initial(tree, nested), steps, n).child.Opened?
    ensures var from := Initial(tree, nested);
            Before(from, steps, n).child.writerIsParent <==> SawItsParent(from, steps, n)
  {
    var from := Initial(tree, nested);
    BeginningIsRun(from, steps, n);
    HistoryIsKept(tree, nested, steps[..n]);
    ReadInABeginning(from, steps, n, Before(from, steps, n).child.writerIsParent);
  }

  lemma WrittenBefore(tree: Tree, nested: bool, steps: seq<Step>, n: nat)
    requires IsRun(Initial(tree, nested), steps) && n < |steps|
    requires var c := Before(Initial(tree, nested), steps, n).child; c.Opened? && c.file.Some?
    ensures var from := Initial(tree, nested);
            var s := Before(from, steps, n);
            s.child.file.value.whole &&
            (s.now <= s.child.file.value.written + 60 <==> WrittenLately(from, steps, n))
  {
    HistoryBefore(tree, nested, steps, n);
    var from := Initial(tree, nested);
    var s := Before(from, steps, n);
    var file := s.child.file.value;
    assert WrittenAsItSays(from, steps[..n], file);
    var w: nat :| w < n && steps[..n][w] == ParentWrites(Written);
    assert steps[w] == ParentWrites(Written) && file.whole && file.written == Before(from, steps, w).now;
    forall x: nat | x < n && steps[x] == ParentWrites(Written) ensures file.written == Before(from, steps, x).now {
      assert steps[..n][x].ParentWrites?;
    }
  }

  lemma OneTake(s: State, removed: bool)
    requires s.child.Opened?
    ensures var t := Apply(s, ChildTakes(removed));
            && t.child.Ready?
            && (t.takes == s.takes + 1 <==>
                  && s.child.file.Some? && s.child.file.value.whole && s.child.writerIsParent
                  && s.now <= s.child.file.value.written + 60)
            && (t.takes != s.takes + 1 ==> t.takes == s.takes && t.child.how == NoConsent)
            && (t.takes == s.takes + 1 ==> t.child.how == Handed(s.child.file.value.consent))
  {
  }

  /** How a consent reaches the child. */
  function Handed(consent: Option<Granted>): CliConsent {
    match consent
    case Some(g) => Forwarded(g.who, g.nonce)
    case None => NoConsent
  }

  /** A handoff file is accepted exactly when its writer was still the parent of the child
      when the child looked, and it was written to its end at most 60 s before; then the
      child holds what the parent obtained. */
  lemma TakesExactlyItsParentsFreshHandoff(tree: Tree, nested: bool, steps: seq<Step>, n: nat)
    requires IsRun(Initial(tree, nested), steps) && n < |steps| && steps[n].ChildTakes?
    ensures var from := Initial(tree, nested);
            var s, t := Before(from, steps, n), Before(from, steps, n + 1);
            && s.child.Opened? && t.child.Ready?
            && (t.takes == s.takes + 1 <==>
                  s.child.file.Some? && SawItsParent(from, steps, n) && WrittenLately(from, steps, n))
            && (t.takes != s.takes + 1 ==> t.takes == s.takes && t.child.how == NoConsent)
            && (t.takes == s.takes + 1 ==> t.child.how == Handed(s.granted))
  {
    HistoryBefore(tree, nested, steps, n);
    StepAt(Initial(tree, nested), steps, n);
    var s := Before(Initial(tree, nested), steps, n);
    OneTake(s, steps[n].removed);
    ReadBefore(tree, nested, steps, n);
    if s.child.file.Some? {
      WrittenBefore(tree, nested, steps, n);
    }
  }

  /** The parent gives up only after the whole wait since it spawned the child. */
  lemma TimesOutOnlyAfterTheWait(tree: Tree, nested: bool, steps: seq<Step>, n: nat)
    requires IsRun(Initial(tree, nested), steps) && n < |steps| && steps[n].ParentTimesOut?
    ensures var from := Initial(tree, nested);
            exists p: nat :: p < n && steps[p].ParentSpawns? &&
                             Before(from, steps, n).now > Before(from, steps, p).now + 10
  {
    HistoryBefore(tree, nested, steps, n);
    StepAt(Initial(tree, nested), steps, n);
    var from := Initial(tree, nested);
    var p: nat :| p < n && steps[..n][p].ParentSpawns? &&
                  Before(from, steps, n).parent.deadline == Before(from, steps[..n], p).now + HANDSHAKE_WAIT;
    assert steps[p].ParentSpawns?;
  }

  /** The handoff is taken at most once, and one that outlives the parent's return was
      left by a write that failed after it created the file, or by a failed removal. */
  lemma HandoffIsTakenOnceAndGone(s: State)
    requires Reachable(s)
    ensures s.takes <= 1
    ensures s.parent.Returned? && s.handoff.Some? ==> s.faults != NO_FAULTS
  {
    ReachableKeepsTheInvariant(s);
  }

  /** With no more than these faults the handoff is gone whenever the parent returned. */
  ghost predicate GoneAtReturn(may: Faults) {
    forall s :: Reachable(s) && s.parent.Returned? && Within(s.faults, may) ==> s.handoff.None?
  }

  predicate Within(f: Faults, may: Faults) {
    (f.write ==> may.write) && (f.removal ==> may.removal)
  }

  /** Over every interleaving: the handoff does not outlive the parent's return if and
      only if no write fails after it created the file and no removal fails. */
  lemma HandoffIsGoneIffNoFault(may: Faults)
    ensures GoneAtReturn(may) <==> may == NO_FAULTS
  {
    if may == NO_FAULTS {
      forall s | Reachable(s) && s.parent.Returned? && Within(s.faults, may) ensures s.handoff.None? {
        HandoffIsTakenOnceAndGone(s);
      }
    } else if may.write {
      var s := FailedWriteLeavesTheHandoff(Tree(0, false, ""), true);
    } else {
      var s := FailedRemovalLeavesTheHandoff(Tree(0, false, ""));
    }
  }

  /** What the printed line means: a started line names a prepared run, and a
      failure line means that no run was prepared and none ever will be, for
      every reason but the timeout. */
  lemma LineIsHonest(s: State)
    requires Reachable(s) && s.parent.Returned?
    ensures s.parent.outcome.StartedLine? ==> Started(s, s.parent.outcome.run)
    ensures s.parent.outcome.RefusedLine? || s.parent.outcome.ReportedLine? ==> s.runs == []
  {
    ReachableKeepsTheInvariant(s);
  }

  lemma OneMore(s: State, step: Step)
    requires Reachable(s) && Enabled(s, step)
    ensures Reachable(Apply(s, step))
  {
    var tree, nested, steps :| IsRun(Initial(tree, nested), steps) && After(Initial(tree, nested), steps) == s;
    assert (steps + [step])[..|steps|] == steps;
    assert IsRun(Initial(tree, nested), steps + [step]);
  }

  /** The consent a bare flag gives, where the tree needs one, and what the child makes
      of its handoff. */
  function FlagConsent(tree: Tree): Option<Granted> {
    if tree.irreversible then Some(Granted("cli_flag", tree.nonce)) else None
  }

  function HandedConsent(tree: Tree): CliConsent {
    if tree.irreversible then Forwarded("cli_flag", tree.nonce) else NoConsent
  }

  lemma HandedOver(s0: State) returns (s: State)
    requires s0 == Initial(s0.tree, false) && Reachable(s0)
    ensures Reachable(s)
    ensures s == s0.(parent := Polling(HANDSHAKE_WAIT), child := Spawned, shown := Some(s0.tree),
                     granted := FlagConsent(s0.tree), handoff := Some(Handoff(0, FlagConsent(s0.tree), true)))
  {
    s := s0;
    OneMore(s, ParentGates(Some("true"), None, true));
    s := Apply(s, ParentGates(Some("true"), None, true));
    OneMore(s, ParentWrites(Written));
    s := Apply(s, ParentWrites(Written));
    OneMore(s, ParentSpawns(true, true));
    s := Apply(s, ParentSpawns(true, true));
  }

  /** A write that fails after the creation leaves the handoff, with the consent in it
      when only the last sync failed. */
  lemma FailedWriteLeavesTheHandoff(tree: Tree, whole: bool) returns (s: State)
    ensures Reachable(s) && s.parent == Returned(RefusedLine) && s.faults == Faults(true, false)
    ensures s.handoff == Some(Handoff(0, FlagConsent(tree), whole))
  {
    s := Initial(tree, false);
    assert IsRun(s, []);
    assert Reachable(s);
    OneMore(s, ParentGates(Some("true"), None, true));
    s := Apply(s, ParentGates(Some("true"), None, true));
    OneMore(s, ParentWrites(LeftBehind(whole)));
    s := Apply(s, ParentWrites(LeftBehind(whole)));
  }

  /** So does a removal that fails, here after the child could not be spawned. */
  lemma FailedRemovalLeavesTheHandoff(tree: Tree) returns (s: State)
    ensures Reachable(s) && s.parent == Returned(RefusedLine) && s.faults == Faults(false, true)
    ensures s.handoff == Some(Handoff(0, FlagConsent(tree), true))
  {
    s := Initial(tree, false);
    assert IsRun(s, []);
    assert Reachable(s);
    OneMore(s, ParentGates(Some("true"), None, true));
    s := Apply(s, ParentGates(Some("true"), None, true));
    OneMore(s, ParentWrites(Written));
    s := Apply(s, ParentWrites(Written));
    OneMore(s, ParentSpawns(false, false));
    s := Apply(s, ParentSpawns(false, false));
  }

  lemma TakenInTime(s0: State) returns (s: State)
    requires s0 == Initial(s0.tree, false) && Reachable(s0)
    ensures Reachable(s) && s.parent == Polling(HANDSHAKE_WAIT) && s.child == Pinned(s0.tree)
    ensures s.tree == s0.tree && s.runs == [] && s.now == 0
  {
    s := HandedOver(s0);
    OneMore(s, ChildReadsParent);
    var s1 := s.(child := KnowsParent(true));
    OneMore(s1, ChildOpens);
    var s2 := s1.(child := Opened(true, s.handoff));
    OneMore(s2, ChildTakes(true));
    var s3 := s2.(child := Ready(HandedConsent(s0.tree)), handoff := None, takes := 1);
    OneMore(s3, ChildGates(true, "", true));
    s := s3.(child := Pinned(s0.tree));
  }

  /** The child prepares its run after the parent gave up. */
  lemma PreparedAfterTheTimeout(s0: State) returns (s: State)
    requires Reachable(s0) && s0.parent == Polling(HANDSHAKE_WAIT) && s0.child == Pinned(s0.tree)
    requires s0.runs == [] && s0.now == 0
    ensures Reachable(s) && s.parent == Returned(TimeoutLine) && s.runs == [Run("r", s0.tree)]
  {
    OneMore(s0, Tick(HANDSHAKE_WAIT + 1));
    var s1 := s0.(now := HANDSHAKE_WAIT + 1);
    OneMore(s1, ParentTimesOut(true));
    var s2 := s1.(parent := Returned(TimeoutLine), handoff := None, handshake := "");
    OneMore(s2, ChildPrepares(true, "r", "", true));
    s := s2.(child := Prepared("r"), runs := [Run("r", s0.tree)]);
  }

  /** The timeout line promises nothing, for any tree: a child that took the handoff in
      time prepares its run after the parent reported that the start failed. */
  lemma TimeoutLineMayHideARun(tree: Tree) returns (s: State)
    ensures Reachable(s) && s.parent == Returned(TimeoutLine) && s.runs == [Run("r", tree)]
  {
    s := Initial(tree, false);
    assert IsRun(s, []);
    assert Reachable(s);
    s := TakenInTime(s);
    s := PreparedAfterTheTimeout(s);
  }

  /** Behind this line no run was prepared, nor ever will be. */
  ghost predicate NoRunBehind(line: Outcome) {
    forall s :: Reachable(s) && s.parent == Returned(line) ==> s.runs == []
  }

  /** A line that does not say "started" guarantees that there is no run if and only if
      it is not the timeout line. */
  lemma FailureLineIsFinalIffNoTimeout(line: Outcome)
    requires !line.StartedLine?
    ensures NoRunBehind(line) <==> line != TimeoutLine
  {
    if line == TimeoutLine {
      var s := TimeoutLineMayHideARun(Tree(0, false, ""));
    } else {
      forall s | Reachable(s) && s.parent == Returned(line) ensures s.runs == [] {
        LineIsHonest(s);
      }
    }
  }

  // ------------------------------------------------------------- whole courses

  lemma OneStepOn(s: State, step: Step, t: State)
    requires Reachable(s) && Enabled(s, step) && t == Apply(s, step)
    ensures Reachable(t)
  {
    OneMore(s, step);
  }

  /** The parent handed its consent over and waits for the child it spawned. */
  function Waiting(tree: Tree): State {
    Initial(tree, false).(parent := Polling(HANDSHAKE_WAIT), child := Spawned, shown := Some(tree),
                          granted := FlagConsent(tree), handoff := Some(Handoff(0, FlagConsent(tree), true)))
  }

  lemma WaitingIsReached(tree: Tree)
    ensures Reachable(Waiting(tree))
  {
    assert IsRun(Initial(tree, false), []);
    assert Reachable(Initial(tree, false));
    var s := HandedOver(Initial(tree, false));
  }

  /** The parent reads what the child wrote into the handshake, and returns. */
  lemma ParentReadsIt(s: State, t: State)
    requires Reachable(s) && s.parent == Polling(HANDSHAKE_WAIT) && s.handshake != ""
    requires t == s.(parent := Returned(if IsPrefix(ERR, s.handshake) then ReportedLine else StartedLine(s.handshake)),
                     handoff := None, handshake := "")
    ensures Reachable(t)
  {
    OneStepOn(s, ParentReads(true), t);
  }

  /** A start that nothing disturbs is reported with its run, for every tree. */
  lemma StartIsReported(tree: Tree) returns (s: State)
    ensures Reachable(s) && s.parent == Returned(StartedLine("r")) && s.runs == [Run("r", tree)] && s.handoff.None?
  {
    assert IsRun(Initial(tree, false), []);
    assert Reachable(Initial(tree, false));
    var s0 := TakenInTime(Initial(tree, false));
    var s1 := s0.(child := Prepared("r"), runs := [Run("r", tree)]);
    OneStepOn(s0, ChildPrepares(true, "r", "", true), s1);
    var s2 := s1.(child := Child.Done, handshake := "r");
    OneStepOn(s1, ChildReports(true), s2);
    s := s2.(parent := Returned(StartedLine("r")), handoff := None, handshake := "");
    ParentReadsIt(s2, s);
  }

  /** So is the message of a child that fails before it takes the handoff. */
  lemma FailureIsReported(tree: Tree, msg: string) returns (s: State)
    ensures Reachable(s) && s.parent == Returned(ReportedLine) && s.runs == [] && s.handoff.None?
  {
    WaitingIsReached(tree);
    var s1 := Waiting(tree).(child := Child.Done, handshake := ERR + msg);
    OneStepOn(Waiting(tree), ChildArgsFail(msg, true), s1);
    assert IsPrefix(ERR, ERR + msg);
    s := s1.(parent := Returned(ReportedLine), handoff := None, handshake := "");
    ParentReadsIt(s1, s);
  }

  /** The child takes what is left of the handoff, and its gate refuses the tree at hand. */
  lemma ChildRefuses(s0: State, how: CliConsent, msg: string) returns (s: State)
    requires Reachable(s0) && s0.parent == Polling(HANDSHAKE_WAIT) && s0.child == Spawned && s0.now == 0 && !s0.nested
    requires s0.runs == [] && s0.takes == 0 && s0.handshake == ""
    requires how == if s0.handoff.Some? then Handed(s0.handoff.value.consent) else NoConsent
    requires s0.tree.irreversible && (how.Forwarded? ==> how.nonce != s0.tree.nonce)
    requires s0.handoff.Some? ==> s0.handoff.value.whole && s0.handoff.value.written == 0
    ensures Reachable(s) && s.parent == Returned(ReportedLine) && s.runs == [] && s.tree == s0.tree
  {
    var s1 := s0.(child := KnowsParent(true));
    OneStepOn(s0, ChildReadsParent, s1);
    var s2 := s1.(child := Opened(true, s0.handoff));
    OneStepOn(s1, ChildOpens, s2);
    var s3 := s2.(child := Ready(how), handoff := None, takes := if s0.handoff.Some? then 1 else 0);
    OneStepOn(s2, ChildTakes(true), s3);
    var s4 := s3.(child := Child.Done, handshake := ERR + msg);
    assert Gate(s3.tree, how, false, None, true) == Refused;
    OneStepOn(s3, ChildGates(true, msg, true), s4);
    assert IsPrefix(ERR, ERR + msg);
    s := s4.(parent := Returned(ReportedLine), handoff := None, handshake := "");
    ParentReadsIt(s4, s);
  }

  /** A tree that was edited after the consent is refused when its nonce changed. */
  lemma EditedTreeIsRefused(tree: Tree, edited: Tree) returns (s: State)
    requires edited.irreversible && (tree.irreversible ==> edited.nonce != tree.nonce)
    ensures Reachable(s) && s.parent == Returned(ReportedLine) && s.runs == [] && s.tree == edited
  {
    WaitingIsReached(tree);
    var s0 := Waiting(tree).(tree := edited);
    OneStepOn(Waiting(tree), Edit(edited), s0);
    s := ChildRefuses(s0, HandedConsent(tree), "");
  }

  /** A handoff that a stranger took is no consent for the child. */
  lemma StolenHandoffIsNoConsent(tree: Tree) returns (s: State)
    requires tree.irreversible
    ensures Reachable(s) && s.parent == Returned(ReportedLine) && s.runs == []
  {
    WaitingIsReached(tree);
    var s0 := Waiting(tree).(handoff := None);
    OneStepOn(Waiting(tree), StrangerTakes, s0);
    s := ChildRefuses(s0, NoConsent, "");
  }

  /** A parent that is killed leaves the handoff, and the child that finds it orphaned does
      not take it as a consent. */
  lemma OrphanedHandoffIsNoConsent(tree: Tree) returns (s: State)
    ensures Reachable(s) && s.parent == ParentKilled && s.child == Ready(NoConsent) && s.takes == 0
  {
    WaitingIsReached(tree);
    var s1 := Waiting(tree).(parent := ParentKilled);
    OneStepOn(Waiting(tree), KillParent, s1);
    var s2 := s1.(child := KnowsParent(false));
    OneStepOn(s1, ChildReadsParent, s2);
    var s3 := s2.(child := Opened(false, s2.handoff));
    OneStepOn(s2, ChildOpens, s3);
    s := s3.(child := Ready(NoConsent), handoff := None);
    OneStepOn(s3, ChildTakes(true), s);
  }
}
