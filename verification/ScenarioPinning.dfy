/**
 Playing scenarios (crates/apb-cli/src/scenario.rs): the parent's partition into stale
 and playable scenarios, the digests it pins, the child's reads while anyone edits the
 files, and the exit code. Contents are opaque values with a digest.
 */
module ScenarioPinning {
  import opened Options

  type Content(==, !new) = nat
  type Digest = string

  /** The stored version and its scenario files at one moment. */
  datatype Disk = Disk(playbook: Option<Content>, scenarios: map<string, Content>)

  /** What does not change: the digest of a content, the scenario rules, staleness. */
  datatype Rules = Rules(
    digest: Content -> Digest,
    fits: (Content, Content) -> bool,
    stale: (Content, Digest) -> bool)

  ghost predicate Injective(digest: Content -> Digest) {
    forall a, b :: digest(a) == digest(b) ==> a == b
  }

  // ------------------------------------------------------------------ the child

  /** The arguments of a child: names and the digests the parent checked. */
  datatype ChildArgs = ChildArgs(scenario: string, scenarioDigest: Digest, playbookDigest: Digest)
  datatype Request = Request(scenario: Content, playbook: Content)

  /** `child_request`, from the version the child read and the disk it then reads the
      scenario from; `pinned` says that it compares the digests. */
  function ChildRequest(rules: Rules, pinned: bool, v: Content, disk: Disk, a: ChildArgs): Option<Request> {
    if a.scenario !in disk.scenarios then None
    else
      var s := disk.scenarios[a.scenario];
      if pinned && (rules.digest(s) != a.scenarioDigest || rules.digest(v) != a.playbookDigest) then None
      else if !rules.fits(s, v) then None
      else Some(Request(s, v))
  }

  // ----------------------------------------------------------- parent and child

  /** The parent reads the version, then the scenario, checks them, and hands on what it
      checked. */
  datatype Parent = Loading | HasVersion(playbook: Content) | HandedOn(scenario: Content, playbook: Content)

  /** The child reads both again. */
  datatype Child = NotStarted | Started(args: ChildArgs) | HasRead(args: ChildArgs, playbook: Content)
                 | Playing(request: Request) | Refused

  datatype State = State(disk: Disk, parent: Parent, child: Child)

  datatype Step = Edit(disk: Disk) | ParentLoads | ParentHandsOn(name: string) | ChildLoads | ChildAnswers

  ghost predicate IsStep(rules: Rules, pinned: bool, s: State, step: Step, t: State) {
    match step
    case Edit(disk) => t == s.(disk := disk)
    case ParentLoads =>
      s.parent.Loading? && s.disk.playbook.Some? && t == s.(parent := HasVersion(s.disk.playbook.value))
    case ParentHandsOn(name) =>
      s.parent.HasVersion? && name in s.disk.scenarios &&
      var sc, v := s.disk.scenarios[name], s.parent.playbook;
      rules.fits(sc, v) &&
      t == s.(parent := HandedOn(sc, v), child := Started(ChildArgs(name, rules.digest(sc), rules.digest(v))))
    case ChildLoads =>
      s.child.Started? &&
      t == s.(child := if s.disk.playbook.Some? then HasRead(s.child.args, s.disk.playbook.value) else Refused)
    case ChildAnswers =>
      s.child.HasRead? &&
      var r := ChildRequest(rules, pinned, s.child.playbook, s.disk, s.child.args);
      t == s.(child := if r.Some? then Playing(r.value) else Refused)
  }

  ghost predicate IsRun(rules: Rules, pinned: bool, states: seq<State>, steps: seq<Step>) {
    && |states| == |steps| + 1 && states[0].parent.Loading? && states[0].child.NotStarted?
    && forall i :: 0 <= i < |steps| ==> IsStep(rules, pinned, states[i], steps[i], states[i + 1])
  }

  /** The child's arguments are what the parent checked, and so is what it plays. */
  ghost predicate Pinned(rules: Rules, s: State) {
    match s.child
    case NotStarted => true
    case Refused => true
    case Started(a) => IsOf(rules, s.parent, a)
    case HasRead(a, _) => IsOf(rules, s.parent, a)
    case Playing(r) => s.parent == HandedOn(r.scenario, r.playbook)
  }

  ghost predicate IsOf(rules: Rules, p: Parent, a: ChildArgs) {
    p.HandedOn? && a.scenarioDigest == rules.digest(p.scenario) && a.playbookDigest == rules.digest(p.playbook)
  }

  lemma {:induction false} RunStaysPinned(rules: Rules, states: seq<State>, steps: seq<Step>, i: nat)
    requires Injective(rules.digest) && IsRun(rules, true, states, steps) && i < |states|
    ensures Pinned(rules, states[i])
    ensures states[i].child != NotStarted ==> states[i].parent.HandedOn?
  {
    if i > 0 {
      RunStaysPinned(rules, states, steps, i - 1);
      assert IsStep(rules, true, states[i - 1], steps[i - 1], states[i]);
    }
  }

  /** A request is for what the parent checked. */
  predicate PlaysChecked(s: State) {
    s.child.Playing? ==> s.parent == HandedOn(s.child.request.scenario, s.child.request.playbook)
  }

  /** Whatever is edited in between. */
  ghost predicate PlaysWhatWasChecked(pinned: bool) {
    forall rules: Rules, states: seq<State>, steps, i ::
      Injective(rules.digest) && IsRun(rules, pinned, states, steps) && 0 <= i < |states| ==> PlaysChecked(states[i])
  }

  /** Over every interleaving of the reads of both with edits: the child plays what the
      parent checked if and only if it compares the digests. The two contents checked
      need never have been on the disk together. */
  lemma PlaysWhatWasCheckedIffPinned(pinned: bool)
    ensures PlaysWhatWasChecked(pinned) <==> pinned
  {
    if pinned {
      forall rules: Rules, states: seq<State>, steps, i |
        Injective(rules.digest) && IsRun(rules, true, states, steps) && 0 <= i < |states|
        ensures PlaysChecked(states[i])
      {
        RunStaysPinned(rules, states, steps, i);
      }
    } else {
      var rules := Rules(Unary, (s, v) => true, (s, d) => false);
      UnaryIsInjective();
      var states, steps := EditedInBetween(rules, "s", 0, 1, 2);
      assert !PlaysChecked(states[5]);
    }
  }

  /** A digest without collisions. */
  function Unary(n: Content): (d: Digest)
    ensures |d| == n
  {
    seq(n, i => '1')
  }

  lemma UnaryIsInjective()
    ensures Injective(Unary)
  {
    forall a, b | Unary(a) == Unary(b) ensures a == b {
      assert |Unary(a)| == a && |Unary(b)| == b;
    }
  }

  /** Without the comparison an edit of the scenario after the check is played. */
  lemma EditedInBetween(rules: Rules, name: string, playbook: Content, checked: Content, edited: Content)
    returns (states: seq<State>, steps: seq<Step>)
    requires rules.fits(checked, playbook) && rules.fits(edited, playbook)
    ensures IsRun(rules, false, states, steps) && |states| == 6
    ensures states[5].child == Playing(Request(edited, playbook)) && states[5].parent == HandedOn(checked, playbook)
  {
    var before, after := Disk(Some(playbook), map[name := checked]), Disk(Some(playbook), map[name := edited]);
    var args := ChildArgs(name, rules.digest(checked), rules.digest(playbook));
    steps := [ParentLoads, ParentHandsOn(name), Edit(after), ChildLoads, ChildAnswers];
    states := [
      State(before, Loading, NotStarted),
      State(before, HasVersion(playbook), NotStarted),
      State(before, HandedOn(checked, playbook), Started(args)),
      State(after, HandedOn(checked, playbook), Started(args)),
      State(after, HandedOn(checked, playbook), HasRead(args, playbook)),
      State(after, HandedOn(checked, playbook), Playing(Request(edited, playbook)))
    ];
  }

  /** The pinned child plays exactly when it reads again what the parent checked. */
  lemma PlaysIffUnchanged(rules: Rules, states: seq<State>, steps: seq<Step>, i: nat)
    requires Injective(rules.digest) && IsRun(rules, true, states, steps) && i < |steps| && steps[i].ChildAnswers?
    ensures var s := states[i];
            && s.parent.HandedOn? && s.child.HasRead?
            && (states[i + 1].child.Playing? <==>
                  && s.child.playbook == s.parent.playbook
                  && s.child.args.scenario in s.disk.scenarios
                  && s.disk.scenarios[s.child.args.scenario] == s.parent.scenario)
  {
    RunStaysFitting(rules, states, steps, i);
    RunStaysPinned(rules, states, steps, i);
    assert IsStep(rules, true, states[i], steps[i], states[i + 1]);
  }

  /** What was handed on fits. */
  lemma {:induction false} RunStaysFitting(rules: Rules, states: seq<State>, steps: seq<Step>, i: nat)
    requires IsRun(rules, true, states, steps) && i < |states|
    ensures states[i].parent.HandedOn? ==> rules.fits(states[i].parent.scenario, states[i].parent.playbook)
  {
    if i > 0 {
      RunStaysFitting(rules, states, steps, i - 1);
      assert IsStep(rules, true, states[i - 1], steps[i - 1], states[i]);
    }
  }

  // ----------------------------------------------------------------- the parent

  datatype Loaded = Loaded(name: string, content: Content)
  datatype Verdict = Passed | Failed | Invalid | Stale | Incomplete
  datatype Report = Report(name: string, verdict: Verdict)

  /** 3 when one was not played, else 1 when one failed, else 0. */
  method ExitCode(reports: seq<Report>) returns (code: nat)
    ensures code in {0, 1, 3}
    ensures code == 3 <==> exists r :: r in reports && r.verdict in {Invalid, Stale, Incomplete}
    ensures code == 0 <==> forall r :: r in reports ==> r.verdict == Passed
  {
    var unplayed := exists r :: r in reports && r.verdict in {Invalid, Stale, Incomplete};
    var failed := exists r :: r in reports && r.verdict == Failed;
    code := if unplayed then 3 else if failed then 1 else 0;
  }

  /** A stale scenario is left out unless the person asks for it. */
  predicate IsLeftOut(stale: Loaded -> bool, allowStale: bool, s: Loaded) {
    stale(s) && !allowStale
  }

  /** The scenarios left out, or the others, in order. */
  function Part(s: seq<Loaded>, stale: Loaded -> bool, allowStale: bool, leftOut: bool): (r: seq<Loaded>)
    ensures forall x :: x in r <==> x in s && IsLeftOut(stale, allowStale, x) == leftOut
  {
    if s == [] then []
    else
      var last := s[|s| - 1];
      assert s == s[..|s| - 1] + [last];
      Part(s[..|s| - 1], stale, allowStale, leftOut) +
      if IsLeftOut(stale, allowStale, last) == leftOut then [last] else []
  }

  lemma PartOfMore(front: seq<Loaded>, last: Loaded, stale: Loaded -> bool, allowStale: bool, leftOut: bool)
    ensures Part(front + [last], stale, allowStale, leftOut) ==
            Part(front, stale, allowStale, leftOut) +
            if IsLeftOut(stale, allowStale, last) == leftOut then [last] else []
  {
    assert (front + [last])[..|front|] == front;
  }

  /** Nothing selected is lost or counted twice. */
  lemma {:induction false} PartsAreAll(s: seq<Loaded>, stale: Loaded -> bool, allowStale: bool)
    ensures multiset(Part(s, stale, allowStale, true)) + multiset(Part(s, stale, allowStale, false)) == multiset(s)
  {
    if s != [] {
      var front, last := s[..|s| - 1], s[|s| - 1];
      assert s == front + [last];
      PartsAreAll(front, stale, allowStale);
      PartOfMore(front, last, stale, allowStale, true);
      PartOfMore(front, last, stale, allowStale, false);
    }
  }

  /** `part` is what stands at these positions of the selection, in its order. */
  ghost predicate StandsAt(s: seq<Loaded>, part: seq<Loaded>, at: seq<nat>) {
    && |at| == |part|
    && (forall k :: 0 <= k < |at| ==> at[k] < |s| && part[k] == s[at[k]])
    && forall k, m :: 0 <= k < m < |at| ==> at[k] < at[m]
  }

  lemma StandsInMore(s: seq<Loaded>, part: seq<Loaded>, at: seq<nat>)
    requires s != [] && StandsAt(s[..|s| - 1], part, at)
    ensures StandsAt(s, part, at) && |s| - 1 !in at
    ensures StandsAt(s, part + [s[|s| - 1]], at + [|s| - 1])
  {
  }

  /** A part of the selection stands in it in order, at exactly the positions of the
      stale ones that were not asked for, or exactly at all others. */
  lemma {:induction false} PartStandsAt(s: seq<Loaded>, stale: Loaded -> bool, allowStale: bool, leftOut: bool)
    returns (at: seq<nat>)
    ensures StandsAt(s, Part(s, stale, allowStale, leftOut), at)
    ensures forall i: nat :: i < |s| ==> (i in at <==> leftOut == (stale(s[i]) && !allowStale))
  {
    if s == [] {
      at := [];
    } else {
      var n := |s| - 1;
      var front := s[..n];
      var before := PartStandsAt(front, stale, allowStale, leftOut);
      StandsInMore(s, Part(front, stale, allowStale, leftOut), before);
      at := before + if leftOut == (stale(s[n]) && !allowStale) then [n] else [];
      assert forall i: nat :: i < n ==> front[i] == s[i];
    }
  }

  function StaleReports(s: seq<Loaded>): (r: seq<Report>)
    ensures |r| == |s| && forall i :: 0 <= i < |r| ==> r[i] == Report(s[i].name, Stale)
  {
    seq(|s|, i requires 0 <= i < |s| => Report(s[i].name, Stale))
  }

  lemma PartStep(s: seq<Loaded>, i: nat, stale: Loaded -> bool, allowStale: bool, leftOut: bool)
    requires i < |s|
    ensures Part(s[..i + 1], stale, allowStale, leftOut) ==
            Part(s[..i], stale, allowStale, leftOut) +
            if IsLeftOut(stale, allowStale, s[i]) == leftOut then [s[i]] else []
  {
    assert s[..i + 1][..i] == s[..i];
  }

  /** The loop over the selection: each scenario is reported stale or set to be played. */
  method Partition(selected: seq<Loaded>, stale: Loaded -> bool, allowStale: bool)
    returns (reports: seq<Report>, toRun: seq<Loaded>)
    ensures reports == StaleReports(Part(selected, stale, allowStale, true))
    ensures toRun == Part(selected, stale, allowStale, false)
  {
    reports, toRun := [], [];
    for i := 0 to |selected|
      invariant reports == StaleReports(Part(selected[..i], stale, allowStale, true))
      invariant toRun == Part(selected[..i], stale, allowStale, false)
    {
      PartStep(selected, i, stale, allowStale, true);
      PartStep(selected, i, stale, allowStale, false);
      if stale(selected[i]) && !allowStale {
        reports := reports + [Report(selected[i].name, Stale)];
      } else {
        toRun := toRun + [selected[i]];
      }
    }
    assert selected[..|selected|] == selected;
  }

  function Played(toRun: seq<Loaded>, play: nat -> Verdict, n: nat): (r: seq<Report>)
    requires n <= |toRun|
    ensures |r| == n && forall i :: 0 <= i < n ==> r[i] == Report(toRun[i].name, play(i))
  {
    seq(n, i requires 0 <= i < n => Report(toRun[i].name, play(i)))
  }

  /** The children, one after the other. The signal flag is read after each. */
  method PlayAll(toRun: seq<Loaded>, play: nat -> Verdict, interrupted: nat -> bool)
    returns (reports: seq<Report>)
    ensures |reports| <= |toRun| && reports == Played(toRun, play, |reports|)
    ensures forall i :: 0 <= i < |reports| - 1 ==> !interrupted(i)
    ensures |reports| < |toRun| <==> exists i :: 0 <= i < |toRun| - 1 && interrupted(i)
  {
    reports := [];
    for i := 0 to |toRun|
      invariant |reports| == i && reports == Played(toRun, play, i)
      invariant forall k :: 0 <= k < i ==> !interrupted(k)
    {
      reports := reports + [Report(toRun[i].name, play(i))];
      if interrupted(i) {
        break;
      }
    }
  }

  lemma AllPassedMeans(left: seq<Loaded>, toRun: seq<Loaded>, play: nat -> Verdict, n: nat)
    requires n <= |toRun|
    ensures (forall r :: r in StaleReports(left) + Played(toRun, play, n) ==> r.verdict == Passed) <==>
            left == [] && forall i :: 0 <= i < n ==> play(i) == Passed
  {
    var reports, played := StaleReports(left), Played(toRun, play, n);
    if left != [] {
      assert reports[0] in reports + played && reports[0].verdict == Stale;
    }
    assert forall i :: 0 <= i < n ==> played[i] in reports + played;
  }

  datatype Outcome = NotPlayed | Done(reports: seq<Report>, code: nat)

  /** `scenario_cmd` after the version and the selection were read. All that is set to
      be played fits the version, or nothing is played. Without a signal every selected
      scenario is in the reports; a signal seen before the last child leaves the rest
      out of them, and the exit code is that of the reports alone. */
  method ScenarioCmd(rules: Rules, playbook: Content, selected: seq<Loaded>, allowStale: bool, smokeOk: bool,
                     play: nat -> Verdict, interrupted: nat -> bool) returns (o: Outcome)
    ensures var stale := (x: Loaded) => rules.stale(x.content, rules.digest(playbook));
            var left, toRun := Part(selected, stale, allowStale, true), Part(selected, stale, allowStale, false);
            && (o.NotPlayed? <==>
                  (exists x :: x in toRun && !rules.fits(x.content, playbook)) || (toRun != [] && !smokeOk))
            && (o.Done? ==>
                  var n := |o.reports| - |left|;
                  && 0 <= n <= |toRun|
                  && o.reports == StaleReports(left) + Played(toRun, play, n)
                  && (n < |toRun| <==> exists i :: 0 <= i < |toRun| - 1 && interrupted(i))
                  && (o.code == 0 <==> left == [] && forall i :: 0 <= i < n ==> play(i) == Passed))
  {
    var stale := (x: Loaded) => rules.stale(x.content, rules.digest(playbook));
    var reports, toRun := Partition(selected, stale, allowStale);
    if (exists x :: x in toRun && !rules.fits(x.content, playbook)) || (toRun != [] && !smokeOk) {
      return NotPlayed;
    }
    var played := PlayAll(toRun, play, interrupted);
    var code := ExitCode(reports + played);
    AllPassedMeans(Part(selected, stale, allowStale, true), toRun, play, |played|);
    o := Done(reports + played, code);
  }
}
