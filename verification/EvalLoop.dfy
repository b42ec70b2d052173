/**
 The loop of `run_eval` over the planned cases and repetitions
 (crates/apb-cli/src/eval.rs), its totals and its exit code. Costs are reals;
 what a repetition brings and what the signal handler saw are inputs.
 */
module EvalLoop {
  import opened Options

  datatype Planned = Planned(caseId: string, repeat: nat)
  datatype Slot = Slot(caseIndex: nat, n: nat)

  /** What one repetition reports; an agent CLI may report no cost. */
  datatype Repetition = Repetition(cost: Option<real>, tokens: nat, passed: bool)

  datatype CaseResult = CaseResult(caseIndex: nat, reps: seq<Repetition>)
  datatype Incomplete = Interrupted | BudgetSpent

  // ------------------------------------------------------------- the plan

  /** Repetitions 1 to `repeat` of one case. */
  function SlotsOf(caseIndex: nat, repeat: nat): (s: seq<Slot>)
    ensures |s| == repeat
  {
    seq(repeat, i requires 0 <= i < repeat => Slot(caseIndex, i + 1))
  }

  /** Every planned repetition, in order. */
  function Slots(plan: seq<Planned>): seq<Slot> {
    if plan == [] then []
    else Slots(plan[..|plan| - 1]) + SlotsOf(|plan| - 1, plan[|plan| - 1].repeat)
  }

  /** What the first `m` slots cost; a repetition without a cost adds nothing. */
  function Spent(run: Slot -> Repetition, slots: seq<Slot>, m: nat): real
    requires m <= |slots|
  {
    if m == 0 then 0.0
    else
      var c := run(slots[m - 1]).cost;
      Spent(run, slots, m - 1) + (if c.Some? then c.value else 0.0)
  }

  function Tokens(run: Slot -> Repetition, slots: seq<Slot>, m: nat): nat
    requires m <= |slots|
  {
    if m == 0 then 0 else Tokens(run, slots, m - 1) + run(slots[m - 1]).tokens
  }

  // ------------------------------------------------------------ the results

  function CountPassed(reps: seq<Repetition>): (n: nat)
    ensures n <= |reps|
  {
    if reps == [] then 0 else CountPassed(reps[..|reps| - 1]) + (if reps[|reps| - 1].passed then 1 else 0)
  }

  function Passes(results: seq<CaseResult>): nat {
    if results == [] then 0 else Passes(results[..|results| - 1]) + CountPassed(results[|results| - 1].reps)
  }

  function Of(results: seq<CaseResult>): nat {
    if results == [] then 0 else Of(results[..|results| - 1]) + |results[|results| - 1].reps|
  }

  lemma {:induction false} AllPassedIsTheCount(reps: seq<Repetition>)
    ensures CountPassed(reps) == |reps| <==> forall i :: 0 <= i < |reps| ==> reps[i].passed
  {
    if reps != [] {
      AllPassedIsTheCount(reps[..|reps| - 1]);
    }
  }

  ghost predicate AllPassed(results: seq<CaseResult>) {
    forall c, i :: 0 <= c < |results| && 0 <= i < |results[c].reps| ==> results[c].reps[i].passed
  }

  /** The exit code's "every repetition passed" is about each one of them. */
  lemma {:induction false} PassesEqualsOf(results: seq<CaseResult>)
    ensures Passes(results) <= Of(results)
    ensures Passes(results) == Of(results) <==> AllPassed(results)
  {
    if results != [] {
      var front, last := results[..|results| - 1], results[|results| - 1];
      PassesEqualsOf(front);
      AllPassedIsTheCount(last.reps);
      if Passes(results) == Of(results) {
        forall c, i | 0 <= c < |results| && 0 <= i < |results[c].reps| ensures results[c].reps[i].passed {
          if c < |front| {
            assert front[c] == results[c];
          }
        }
      } else if CountPassed(last.reps) == |last.reps| {
        var c, i :| 0 <= c < |front| && 0 <= i < |front[c].reps| && !front[c].reps[i].passed;
        assert results[c] == front[c];
      } else {
        var i :| 0 <= i < |last.reps| && !last.reps[i].passed;
        assert results[|results| - 1].reps[i] == last.reps[i];
      }
    }
  }

  /** The slots a list of results stands for, when each is a beginning of its case. */
  function Executed(results: seq<CaseResult>): seq<Slot> {
    if results == [] then []
    else
      var last := results[|results| - 1];
      Executed(results[..|results| - 1]) + SlotsOf(last.caseIndex, |last.reps|)
  }

  /** A case's result is never empty and holds what its repetitions reported. */
  ghost predicate Holds(run: Slot -> Repetition, result: CaseResult) {
    && result.reps != []
    && forall i :: 0 <= i < |result.reps| ==> result.reps[i] == run(Slot(result.caseIndex, i + 1))
  }

  /** The results hold what the repetitions reported. */
  ghost predicate Reported(run: Slot -> Repetition, results: seq<CaseResult>) {
    forall c :: 0 <= c < |results| ==> Holds(run, results[c])
  }

  lemma {:induction false} OfIsExecuted(results: seq<CaseResult>)
    ensures Of(results) == |Executed(results)|
  {
    if results != [] {
      OfIsExecuted(results[..|results| - 1]);
    }
  }

  /** Repetitions of one case stand where the plan puts them. */
  ghost predicate CaseAt(slots: seq<Slot>, base: nat, caseIndex: nat, repeat: nat) {
    && base + repeat <= |slots|
    && forall j :: base <= j < base + repeat ==> slots[j] == Slot(caseIndex, j - base + 1)
  }

  lemma {:induction false} CaseIsPlanned(plan: seq<Planned>, k: nat)
    requires k < |plan|
    ensures CaseAt(Slots(plan), |Slots(plan[..k])|, k, plan[k].repeat)
    ensures |Slots(plan[..k + 1])| == |Slots(plan[..k])| + plan[k].repeat
  {
    var front := plan[..|plan| - 1];
    assert plan[..k + 1][..k] == plan[..k];
    if k == |plan| - 1 {
      assert plan[..k + 1] == plan && front == plan[..k];
    } else {
      CaseIsPlanned(front, k);
      assert front[..k] == plan[..k];
    }
  }

  // --------------------------------------------------------------- the loop

  /** What stops the loop before slot `j`: the signal flag, read once before each
      slot, or the budget. */
  ghost predicate Blocked(run: Slot -> Repetition, slots: seq<Slot>, interrupted: nat -> bool, budget: real, j: nat)
    requires j <= |slots|
  {
    interrupted(j) || Spent(run, slots, j) >= budget
  }

  /** The loop's variables after `m` executed slots and `checks` reads of the flag;
      the loop stopped exactly when `incomplete` is set. */
  ghost predicate Progress(run: Slot -> Repetition, slots: seq<Slot>, interrupted: nat -> bool, budget: real,
                           m: nat, spent: real, tokens: nat, incomplete: Option<Incomplete>, checks: nat)
  {
    && m <= |slots| && m <= checks
    && spent == Spent(run, slots, m) && tokens == Tokens(run, slots, m)
    && (forall j :: 0 <= j < m ==> !Blocked(run, slots, interrupted, budget, j))
    && (incomplete.None? ==> checks == m)
    && (incomplete.Some? ==> m < |slots| && Blocked(run, slots, interrupted, budget, m))
    && (incomplete == Some(Interrupted) <==> exists c :: 0 <= c < checks && interrupted(c))
  }

  /** The inner loop: the repetitions of one case, whose first slot is `base`; `m0`
      slots were executed before it. */
  method RunCase(repeat: nat, caseIndex: nat, run: Slot -> Repetition, interrupted: nat -> bool, budget: real,
                 ghost slots: seq<Slot>, ghost base: nat, ghost m0: nat,
                 spent0: real, tokens0: nat, incomplete0: Option<Incomplete>, checks0: nat)
    returns (reps: seq<Repetition>, spent: real, tokens: nat, incomplete: Option<Incomplete>, checks: nat)
    requires CaseAt(slots, base, caseIndex, repeat)
    requires Progress(run, slots, interrupted, budget, m0, spent0, tokens0, incomplete0, checks0)
    requires incomplete0.None? ==> m0 == base
    ensures Progress(run, slots, interrupted, budget, m0 + |reps|, spent, tokens, incomplete, checks)
    ensures incomplete0.Some? ==> reps == []
    ensures |reps| <= repeat
    ensures incomplete.None? ==> incomplete0.None? && |reps| == repeat
    ensures forall i :: 0 <= i < |reps| ==> reps[i] == run(Slot(caseIndex, i + 1))
  {
    reps, spent, tokens, incomplete, checks := [], spent0, tokens0, incomplete0, checks0;
    for n := 1 to repeat + 1
      invariant |reps| == n - 1 && incomplete == incomplete0
      invariant incomplete0.Some? ==> reps == []
      invariant Progress(run, slots, interrupted, budget, m0 + |reps|, spent, tokens, incomplete, checks)
      invariant forall i :: 0 <= i < |reps| ==> reps[i] == run(Slot(caseIndex, i + 1))
    {
      ghost var m := m0 + |reps|;
      assert incomplete.None? ==> slots[base + (n - 1)] == Slot(caseIndex, n);
      if interrupted(checks) {
        incomplete := Some(Interrupted);
      }
      checks := checks + 1;
      assert incomplete0.None? ==> Blocked(run, slots, interrupted, budget, m) == (interrupted(m) || spent >= budget);
      if incomplete.Some? {
        break;
      }
      if spent >= budget {
        incomplete := Some(BudgetSpent);
        break;
      }
      var rep := run(Slot(caseIndex, n));
      spent := spent + (match rep.cost case Some(c) => c case None => 0.0);
      tokens := tokens + rep.tokens;
      reps := reps + [rep];
    }
  }

  /** Adding the repetitions of case `k` to the results extends what they stand for. */
  lemma ExecutedGrows(results: seq<CaseResult>, k: nat, reps: seq<Repetition>, slots: seq<Slot>,
                      run: Slot -> Repetition)
    requires Executed(results) <= slots && CaseAt(slots, |Executed(results)|, k, |reps|)
    requires Reported(run, results) && Holds(run, CaseResult(k, reps))
    ensures var more := results + [CaseResult(k, reps)];
            && Executed(more) <= slots && |Executed(more)| == |Executed(results)| + |reps|
            && Reported(run, more)
  {
    var more := results + [CaseResult(k, reps)];
    assert more[..|results|] == results;
    assert Executed(more) == Executed(results) + SlotsOf(k, |reps|);
  }

  /** The loop over the cases. What is executed is exactly the plan up to the first
      slot before which the flag is up or the budget is spent, in order, with the
      totals summed over it; `incomplete` is unset just when that is all of it. */
  method RunCases(plan: seq<Planned>, run: Slot -> Repetition, interrupted: nat -> bool, budget: real)
    returns (results: seq<CaseResult>, spent: real, tokens: nat, incomplete: Option<Incomplete>, checks: nat)
    ensures Progress(run, Slots(plan), interrupted, budget, |Executed(results)|, spent, tokens, incomplete, checks)
    ensures Executed(results) <= Slots(plan)
    ensures incomplete.None? <==> |Executed(results)| == |Slots(plan)|
    ensures Reported(run, results)
  {
    results, spent, tokens, incomplete, checks := [], 0.0, 0, None, 0;
    ghost var slots := Slots(plan);
    assert plan[..0] == [];
    for k := 0 to |plan|
      invariant Executed(results) <= slots
      invariant Progress(run, slots, interrupted, budget, |Executed(results)|, spent, tokens, incomplete, checks)
      invariant incomplete.None? ==> |Executed(results)| == |Slots(plan[..k])|
      invariant Reported(run, results)
    {
      CaseIsPlanned(plan, k);
      ghost var base, m0 := |Slots(plan[..k])|, |Executed(results)|;
      var reps;
      reps, spent, tokens, incomplete, checks :=
        RunCase(plan[k].repeat, k, run, interrupted, budget, slots, base, m0, spent, tokens, incomplete, checks);
      if reps != [] {
        ExecutedGrows(results, k, reps, slots, run);
        results := results + [CaseResult(k, reps)];
      }
    }
    assert plan[..|plan|] == plan;
  }

  /** The loop and the exit code, which reads the flag once more: 130 for a signal
      seen there, 0 exactly when all of a non-empty plan ran and passed. */
  method RunEval(plan: seq<Planned>, run: Slot -> Repetition, interrupted: nat -> bool, budget: real)
    returns (results: seq<CaseResult>, spent: real, tokens: nat, incomplete: Option<Incomplete>, checks: nat, exit: nat)
    ensures Progress(run, Slots(plan), interrupted, budget, |Executed(results)|, spent, tokens, incomplete, checks)
    ensures Executed(results) <= Slots(plan)
    ensures incomplete.None? <==> |Executed(results)| == |Slots(plan)|
    ensures Reported(run, results)
    ensures exit in {0, 1, 130}
    ensures exit == 130 <==> interrupted(checks)
    ensures exit == 0 <==>
            && !interrupted(checks)
            && Executed(results) == Slots(plan) && Slots(plan) != []
            && AllPassed(results)
    ensures exit == 0 ==> forall c :: 0 <= c <= checks ==> !interrupted(c)
  {
    results, spent, tokens, incomplete, checks := RunCases(plan, run, interrupted, budget);
    PassesEqualsOf(results);
    OfIsExecuted(results);
    var passes, of := Passes(results), Of(results);
    exit := if interrupted(checks) then 130 else if passes == of && of > 0 && incomplete.None? then 0 else 1;
  }
}
