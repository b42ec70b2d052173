/**
 The scratch directories of `apb eval` as a step system: any number of
 invocations build, run, keep and remove repetitions while sweeps of other
 invocations read, decide and delete, in any interleaving and with crashes
 anywhere (crates/apb-cli/src/eval.rs, `run_repetition`, `keep_repetition`,
 `ScratchGuard`, `sweep_stale_scratch`).

 What the steps take for granted:
 - the liveness probe is sound, and a driver that exited stays dead;
 - a failed `start_run` leaves no driver, and a dead owner has no start in flight;
 - a panic does not fall between the start and `set_live(Some)`, nor between
   `set_live(None)` and the keep or the move.

 Two delays are parameters instead of assumptions: how long an owner may take
 to complete `owner.pid`, and how long a sweep may take between reading that
 file and looking at the directory's age. So is which of the sweep's three reads
 may fail, since the sweep takes a failed read for "no owner" or "no live driver".
 `SafeIffReadsWorkAndDelaysFit` says when the design promise holds.
 */
module ScratchLifecycle {
  import opened Options

  /** The age, in seconds, from which a scratch directory without an owner is stale. */
  const STALE_AGE: nat := 600

  /** Which reads of a sweep may fail: of `owner.pid`, of the scratch directory, and
      of a repetition's `tree/.apb/runs`. */
  datatype Faults = Faults(owner: bool, scratch: bool, runs: bool)

  /** `ownerDelay`: creating the scratch directory to a complete `owner.pid`.
      `sweepDelay`: a sweep's read of `owner.pid` to its look at the age. */
  datatype Setting = Setting(ownerDelay: nat, sweepDelay: nat, faults: Faults)

  const NO_FAULTS := Faults(false, false, false)

  datatype Driver = NotStarted | Alive | Exited
  datatype Place = Scratch | Kept | Removed
  datatype Repetition = Repetition(place: Place, driver: Driver)

  /** `fs::write` creates the file first and fills it afterwards. */
  datatype OwnerFile = Absent | Empty | Complete

  /** Where the owner process is. */
  datatype Control =
    | Creating                        // the directory exists, `owner.pid` is not complete
    | Between                         // no repetition in hand
    | Built(rep: nat)                 // materialized
    | Starting(rep: nat)              // `start_run` in flight
    | Started(rep: nat)               // `start_run` returned a run id
    | Following(rep: nat)             // LIVE is set: `follow`, then `driver_gone`
    | Waited(rep: nat, clean: bool)   // LIVE is cleared, `driver_gone` answered
    | Storing(rep: nat)               // the run directory moved out
    | Keeping(rep: nat)               // `keep_repetition`
    | Dropping                        // the guard's drop begins
    | DropWaiting(rep: nat)           // the drop waits for the live run's driver
    | DropKeeping(rep: nat)           // the drop keeps a repetition
    | DropDeciding                    // the drop reads the keep flag
    | DropRemoving                    // the drop removes the scratch directory
    | Gone                            // the process ended or was killed

  datatype Invocation = Invocation(
    created: nat, mtime: nat, ownerFile: OwnerFile, control: Control,
    live: Option<nat>, keep: bool, reps: map<nat, Repetition>)

  /** What one sweep knows about one scratch directory. */
  datatype SweepPhase =
    | SawPid                          // `owner.pid` named a process
    | SawNone(at: nat)                // no readable owner, at that time
    | Passed                          // the owner passed: the repetitions are listed next
    | Scanning(todo: set<nat>)        // repetitions still to probe
    | Removing                        // no live driver was seen

  datatype Sweep = Sweep(target: nat, phase: SweepPhase)

  datatype State = State(now: nat, invs: map<nat, Invocation>, sweeps: map<nat, Sweep>)

  const INITIAL := State(0, map[], map[])

  datatype Step =
    | Tick(to: nat)
    | Create(i: nat)
    | CreateOwnerFile(i: nat)
    | FillOwnerFile(i: nat)
    | Build(i: nat, r: nat)
    | BuildFails(i: nat)
    | BeginStart(i: nat)
    | DriverSpawns(i: nat)
    | StartOk(i: nat)
    | StartFails(i: nat)
    | DriverExits(i: nat, r: nat)
    | SetLive(i: nat)
    | DriverGoneAnswers(i: nat, gone: bool)
    | MoveRun(i: nat, ok: bool)
    | RemoveStored(i: nat, ok: bool)
    | KeepUnclean(i: nat)
    | KeepRename(i: nat, ok: bool)
    | EndOrPanic(i: nat)
    | DropTakesLive(i: nat)
    | DropGoneAnswers(i: nat, gone: bool)
    | DropKeepRename(i: nat, ok: bool)
    | DropDecides(i: nat)
    | DropRemoves(i: nat, r: nat)
    | DropRemovesOwnerFile(i: nat)
    | DropDone(i: nat)
    | Crash(i: nat)
    | SweepReads(k: nat, i: nat, ok: bool)
    | SweepProbesOwner(k: nat, alive: bool)
    | SweepChecksAge(k: nat)
    | SweepLists(k: nat, ok: bool)
    | SweepProbesDriver(k: nat, r: nat, alive: bool)
    | SweepDecides(k: nat)
    | SweepRemoves(k: nat, r: nat)
    | SweepRemovesOwnerFile(k: nat)
    | SweepEnds(k: nat)

  // ------------------------------------------------------------------ steps

  predicate InScratch(v: Invocation, r: nat) {
    r in v.reps && v.reps[r].place.Scratch?
  }

  /** A driver the probe may answer "gone" for: the probe is sound. */
  predicate NotAlive(v: Invocation, r: nat) {
    r in v.reps ==> v.reps[r].driver != Alive
  }

  predicate IsSweepStep(step: Step) {
    || step.SweepReads? || step.SweepProbesOwner? || step.SweepChecksAge? || step.SweepLists?
    || step.SweepProbesDriver? || step.SweepDecides? || step.SweepRemoves? || step.SweepRemovesOwnerFile?
    || step.SweepEnds?
  }

  /** A step of one invocation: its owner's, or one of its drivers'. */
  predicate IsOwnerStep(step: Step) {
    !step.Tick? && !step.Create? && !IsSweepStep(step)
  }

  predicate OwnerEnabled(v: Invocation, step: Step) {
    var c := v.control;
    match step
    case CreateOwnerFile(_) => c.Creating? && v.ownerFile.Absent?
    case FillOwnerFile(_) => c.Creating? && v.ownerFile.Empty?
    case Build(_, r) => c.Between? && r !in v.reps
    case BuildFails(_) => c.Built?
    case BeginStart(_) => c.Built?
    case DriverSpawns(_) => c.Starting? && InScratch(v, c.rep) && v.reps[c.rep].driver.NotStarted?
    case StartOk(_) => c.Starting?
    case StartFails(_) => c.Starting? && NotAlive(v, c.rep)
    case DriverExits(_, r) => r in v.reps && v.reps[r].driver.Alive?
    case SetLive(_) => c.Started?
    case DriverGoneAnswers(_, gone) => c.Following? && (gone ==> NotAlive(v, c.rep))
    case MoveRun(_, _) => c.Waited? && c.clean
    case RemoveStored(_, _) => c.Storing?
    case KeepUnclean(_) => c.Waited? && !c.clean
    case KeepRename(_, _) => c.Keeping?
    case EndOrPanic(_) => c.Between? || c.Built? || c.Following?
    case DropTakesLive(_) => c.Dropping?
    case DropGoneAnswers(_, gone) => c.DropWaiting? && (gone ==> NotAlive(v, c.rep))
    case DropKeepRename(_, _) => c.DropKeeping?
    case DropDecides(_) => c.DropDeciding?
    case DropRemoves(_, r) => c.DropRemoving? && InScratch(v, r)
    case DropRemovesOwnerFile(_) => c.DropRemoving?
    case DropDone(_) => c.DropRemoving?
    case Crash(_) => !c.Gone?
    case _ => false
  }

  /** A repetition that leaves the scratch directory, if it is still there. */
  function Leave(v: Invocation, r: nat, to: Place, now: nat): Invocation {
    if InScratch(v, r) then v.(reps := v.reps[r := v.reps[r].(place := to)], mtime := now) else v
  }

  function WithDriver(v: Invocation, r: nat, driver: Driver): Invocation
    requires r in v.reps
  {
    v.(reps := v.reps[r := v.reps[r].(driver := driver)])
  }

  /** `keep_repetition`: only a rename, and the sticky flag when it fails. */
  function Keep(v: Invocation, r: nat, ok: bool, now: nat): Invocation {
    if ok then Leave(v, r, Kept, now) else v.(keep := true)
  }

  function OwnerStep(v: Invocation, step: Step, now: nat): Invocation
    requires OwnerEnabled(v, step)
  {
    var c := v.control;
    match step
    case CreateOwnerFile(_) => v.(ownerFile := Empty, mtime := now)
    case FillOwnerFile(_) => v.(ownerFile := Complete, control := Between)
    case Build(_, r) => v.(control := Built(r), mtime := now, reps := v.reps[r := Repetition(Scratch, NotStarted)])
    case BuildFails(_) => Leave(v, c.rep, Removed, now).(control := Between)
    case BeginStart(_) => v.(control := Starting(c.rep))
    case DriverSpawns(_) => WithDriver(v, c.rep, Alive)
    case StartOk(_) => v.(control := Started(c.rep))
    case StartFails(_) => Leave(v, c.rep, Removed, now).(control := Between)
    case DriverExits(_, r) => WithDriver(v, r, Exited)
    case SetLive(_) => v.(live := Some(c.rep), control := Following(c.rep))
    case DriverGoneAnswers(_, gone) => v.(live := None, control := Waited(c.rep, gone))
    case MoveRun(_, ok) => v.(control := if ok then Storing(c.rep) else Keeping(c.rep))
    case RemoveStored(_, ok) => (if ok then Leave(v, c.rep, Removed, now) else v).(control := Between)
    case KeepUnclean(_) => v.(control := Keeping(c.rep))
    case KeepRename(_, ok) => Keep(v, c.rep, ok, now).(control := Between)
    case EndOrPanic(_) => v.(control := Dropping)
    case DropTakesLive(_) =>
      v.(live := None, control := if v.live.Some? then DropWaiting(v.live.value) else DropDeciding)
    case DropGoneAnswers(_, gone) => v.(control := if gone then DropDeciding else DropKeeping(c.rep))
    case DropKeepRename(_, ok) => Keep(v, c.rep, ok, now).(control := DropDeciding)
    case DropDecides(_) => v.(control := if v.keep then Gone else DropRemoving)
    case DropRemoves(_, r) => Leave(v, r, Removed, now)
    case DropRemovesOwnerFile(_) => v.(ownerFile := Absent, mtime := now)
    case DropDone(_) => v.(control := Gone)
    case Crash(_) => v.(control := Gone)
  }

  predicate SweepEnabled(d: Setting, s: State, step: Step) {
    match step
    case SweepReads(k, i, ok) => k !in s.sweeps && i in s.invs && (!ok ==> d.faults.owner)
    case SweepProbesOwner(k, alive) =>
      HasSweep(s, k) && s.sweeps[k].phase.SawPid? && (!alive ==> Target(s, k).control.Gone?)
    case SweepChecksAge(k) => HasSweep(s, k) && s.sweeps[k].phase.SawNone?
    case SweepLists(k, ok) => HasSweep(s, k) && s.sweeps[k].phase.Passed? && (!ok ==> d.faults.scratch)
    case SweepProbesDriver(k, r, alive) =>
      && HasSweep(s, k) && s.sweeps[k].phase.Scanning? && r in s.sweeps[k].phase.todo
      && (!alive ==> NotAlive(Target(s, k), r) || d.faults.runs)
    case SweepDecides(k) => HasSweep(s, k) && s.sweeps[k].phase == Scanning({})
    case SweepRemoves(k, r) => HasSweep(s, k) && s.sweeps[k].phase.Removing? && InScratch(Target(s, k), r)
    case SweepRemovesOwnerFile(k) => HasSweep(s, k) && s.sweeps[k].phase.Removing?
    case SweepEnds(k) => HasSweep(s, k)
    case _ => false
  }

  predicate HasSweep(s: State, k: nat) {
    k in s.sweeps && s.sweeps[k].target in s.invs
  }

  function Target(s: State, k: nat): Invocation
    requires HasSweep(s, k)
  {
    s.invs[s.sweeps[k].target]
  }

  function Listing(v: Invocation): set<nat> {
    set r | r in v.reps && v.reps[r].place.Scratch?
  }

  function Becomes(s: State, k: nat, phase: SweepPhase): State
    requires k in s.sweeps
  {
    s.(sweeps := s.sweeps[k := s.sweeps[k].(phase := phase)])
  }

  function EndSweep(s: State, k: nat): State {
    s.(sweeps := s.sweeps - {k})
  }

  function SweepStep(d: Setting, s: State, step: Step): State
    requires SweepEnabled(d, s, step)
  {
    match step
    case SweepReads(k, i, ok) =>
      s.(sweeps := s.sweeps[k := Sweep(i, if ok && s.invs[i].ownerFile.Complete? then SawPid else SawNone(s.now))])
    case SweepProbesOwner(k, alive) => if alive then EndSweep(s, k) else Becomes(s, k, Passed)
    case SweepChecksAge(k) =>
      if s.now < Target(s, k).mtime + STALE_AGE then EndSweep(s, k) else Becomes(s, k, Passed)
    case SweepLists(k, ok) => Becomes(s, k, Scanning(if ok then Listing(Target(s, k)) else {}))
    case SweepProbesDriver(k, r, alive) =>
      if alive then EndSweep(s, k) else Becomes(s, k, Scanning(s.sweeps[k].phase.todo - {r}))
    case SweepDecides(k) => Becomes(s, k, Removing)
    case SweepRemoves(k, r) => s.(invs := s.invs[s.sweeps[k].target := Leave(Target(s, k), r, Removed, s.now)])
    case SweepRemovesOwnerFile(k) =>
      s.(invs := s.invs[s.sweeps[k].target := Target(s, k).(ownerFile := Absent, mtime := s.now)])
    case SweepEnds(k) => EndSweep(s, k)
  }

  /** Time does not run past a delay that is still being spent. */
  predicate MayAdvance(d: Setting, s: State, to: nat) {
    && s.now <= to
    && (forall i :: i in s.invs && s.invs[i].control.Creating? ==> to <= s.invs[i].created + d.ownerDelay)
    && (forall k :: k in s.sweeps && s.sweeps[k].phase.SawNone? ==> to <= s.sweeps[k].phase.at + d.sweepDelay)
  }

  predicate Enabled(d: Setting, s: State, step: Step) {
    if step.Tick? then MayAdvance(d, s, step.to)
    else if step.Create? then step.i !in s.invs
    else if IsSweepStep(step) then SweepEnabled(d, s, step)
    else step.i in s.invs && OwnerEnabled(s.invs[step.i], step)
  }

  function Apply(d: Setting, s: State, step: Step): State
    requires Enabled(d, s, step)
  {
    if step.Tick? then s.(now := step.to)
    else if step.Create?
    then s.(invs := s.invs[step.i := Invocation(s.now, s.now, Absent, Creating, None, false, map[])])
    else if IsSweepStep(step) then SweepStep(d, s, step)
    else s.(invs := s.invs[step.i := OwnerStep(s.invs[step.i], step, s.now)])
  }

  // ------------------------------------------------------------------ runs

  /** Every step of the run is one the code can make at that point. */
  predicate IsRun(d: Setting, steps: seq<Step>)
    decreases |steps|, 0
  {
    steps != [] ==> IsRun(d, Front(steps)) && Enabled(d, After(d, Front(steps)), steps[|steps| - 1])
  }

  function After(d: Setting, steps: seq<Step>): State
    requires IsRun(d, steps)
    decreases |steps|, 1
  {
    if steps == [] then INITIAL else Apply(d, After(d, Front(steps)), steps[|steps| - 1])
  }

  function Front(steps: seq<Step>): seq<Step>
    requires steps != []
  {
    steps[..|steps| - 1]
  }

  /** The design promise: no tree was deleted under a live driver. It is asked of every
      reachable state, since the exit of that driver would hide a violation. */
  ghost predicate NoDeletionUnderALiveDriver(s: State) {
    forall i, r :: i in s.invs && r in s.invs[i].reps && s.invs[i].reps[r].place.Removed? ==>
      s.invs[i].reps[r].driver != Alive
  }

  /** Some run leads to `s`. */
  ghost predicate Reachable(d: Setting, s: State) {
    exists steps :: IsRun(d, steps) && After(d, steps) == s
  }

  ghost predicate Safe(d: Setting) {
    forall s :: Reachable(d, s) ==> NoDeletionUnderALiveDriver(s)
  }

  // ------------------------------------------------------------- invariant

  /** No read of a sweep fails, and its window covers the two delays. */
  predicate Fits(d: Setting) {
    d.faults == NO_FAULTS && d.ownerDelay + d.sweepDelay < STALE_AGE
  }

  /** The repetition the owner has in hand and may still have a live driver. */
  function InHand(c: Control): set<nat> {
    match c
    case Built(r) => {r}
    case Starting(r) => {r}
    case Started(r) => {r}
    case Following(r) => {r}
    case Waited(r, clean) => if clean then {} else {r}
    case Keeping(r) => {r}
    case DropWaiting(r) => {r}
    case DropKeeping(r) => {r}
    case _ => {}
  }

  /** Why a live driver in the scratch directory is no danger to its own guard. */
  predicate Excused(v: Invocation, r: nat) {
    v.keep || r in InHand(v.control) || (v.control.Dropping? && v.live == Some(r))
  }

  /** What an owner keeps about one repetition: it was not removed alive, and
      outside the repetition in hand a live driver in the scratch directory
      means the sticky keep flag is set. */
  predicate RepInv(v: Invocation, r: nat) {
    RemovedInv(v, r) && LiveInv(v, r)
  }

  predicate RemovedInv(v: Invocation, r: nat) {
    r in v.reps && v.reps[r].place.Removed? ==> v.reps[r].driver != Alive
  }

  predicate LiveInv(v: Invocation, r: nat) {
    r in v.reps && !v.control.Gone? && v.reps[r].place.Scratch? && v.reps[r].driver.Alive? ==> Excused(v, r)
  }

  /** The owner starts nothing any more: it ended, or only removes what it left. */
  predicate IsOver(c: Control) {
    c.Gone? || c.DropRemoving?
  }

  /** What an owner keeps about its directory and its slot for a live run. */
  predicate SlotInv(v: Invocation) {
    && v.created <= v.mtime
    && (!IsOver(v.control) ==> (v.control.Creating? <==> v.ownerFile != Complete))
    && (v.live.Some? ==> v.control == Following(v.live.value) || v.control.Dropping? || v.control.Gone?)
    && (v.control.Following? ==> v.live == Some(v.control.rep))
    && (v.control.DropRemoving? ==> !v.keep)
  }

  /** What an owner keeps about the driver of the repetition in hand. */
  predicate DriverInv(v: Invocation) {
    && (v.control.Built? && v.control.rep in v.reps ==> v.reps[v.control.rep].driver.NotStarted?)
    && (v.control.Storing? && v.control.rep in v.reps ==> v.reps[v.control.rep].driver != Alive)
    && (v.control.Waited? && v.control.clean && v.control.rep in v.reps ==> v.reps[v.control.rep].driver != Alive)
  }

  /** What an owner keeps about its own control state. */
  predicate ControlInv(v: Invocation) {
    SlotInv(v) && DriverInv(v)
  }

  ghost predicate OwnerInv(v: Invocation) {
    ControlInv(v) && forall r :: r in v.reps ==> RepInv(v, r)
  }

  ghost predicate SweepInv(d: Setting, s: State, w: Sweep) {
    w.target in s.invs &&
    var v := s.invs[w.target];
    match w.phase
    case SawPid => true
    case SawNone(at) => s.now <= at + d.sweepDelay && (IsOver(v.control) || at <= v.created + d.ownerDelay)
    case Passed => IsOver(v.control)
    case Scanning(todo) => IsOver(v.control) && forall r :: InScratch(v, r) && r !in todo ==> v.reps[r].driver != Alive
    case Removing => IsOver(v.control) && forall r :: InScratch(v, r) ==> v.reps[r].driver != Alive
  }

  ghost predicate Inv(d: Setting, s: State) {
    && (forall i :: i in s.invs ==> OwnerInv(s.invs[i]) && s.invs[i].mtime <= s.now)
    && (forall i :: i in s.invs && s.invs[i].control.Creating? ==> s.now <= s.invs[i].created + d.ownerDelay)
    && (forall k :: k in s.sweeps ==> SweepInv(d, s, s.sweeps[k]))
  }

  /** The steps from the run in flight on: its end, its place, and the guard's drop. */
  predicate IsLateStep(step: Step) {
    || step.SetLive? || step.DriverGoneAnswers? || step.MoveRun? || step.RemoveStored? || step.KeepUnclean?
    || step.KeepRename? || step.EndOrPanic? || IsDropStep(step)
  }

  predicate IsDropStep(step: Step) {
    || step.DropTakesLive? || step.DropGoneAnswers? || step.DropKeepRename? || step.DropDecides? || step.DropRemoves?
    || step.DropRemovesOwnerFile? || step.DropDone? || step.Crash?
  }

  lemma EarlySlotKept(v: Invocation, step: Step, now: nat)
    requires OwnerEnabled(v, step) && !IsLateStep(step) && SlotInv(v) && v.mtime <= now
    ensures SlotInv(OwnerStep(v, step, now)) && OwnerStep(v, step, now).mtime <= now
  {
  }

  lemma LateSlotKept(v: Invocation, step: Step, now: nat)
    requires OwnerEnabled(v, step) && IsLateStep(step) && !IsDropStep(step) && SlotInv(v) && v.mtime <= now
    ensures SlotInv(OwnerStep(v, step, now)) && OwnerStep(v, step, now).mtime <= now
  {
  }

  lemma DropSlotKept(v: Invocation, step: Step, now: nat)
    requires OwnerEnabled(v, step) && IsDropStep(step) && SlotInv(v) && v.mtime <= now
    ensures SlotInv(OwnerStep(v, step, now)) && OwnerStep(v, step, now).mtime <= now
  {
  }

  lemma EarlyDriverKept(v: Invocation, step: Step, now: nat)
    requires OwnerEnabled(v, step) && !IsLateStep(step) && DriverInv(v)
    ensures DriverInv(OwnerStep(v, step, now))
  {
  }

  lemma LateDriverKept(v: Invocation, step: Step, now: nat)
    requires OwnerEnabled(v, step) && IsLateStep(step) && !IsDropStep(step) && DriverInv(v)
    ensures DriverInv(OwnerStep(v, step, now))
  {
  }

  lemma DropDriverKept(v: Invocation, step: Step, now: nat)
    requires OwnerEnabled(v, step) && IsDropStep(step) && DriverInv(v)
    ensures DriverInv(OwnerStep(v, step, now))
  {
  }

  lemma ControlKept(v: Invocation, step: Step, now: nat)
    requires OwnerEnabled(v, step) && ControlInv(v) && v.mtime <= now
    ensures ControlInv(OwnerStep(v, step, now)) && OwnerStep(v, step, now).mtime <= now
  {
    if !IsLateStep(step) {
      EarlySlotKept(v, step, now);
      EarlyDriverKept(v, step, now);
    } else {
      if IsDropStep(step) {
        DropSlotKept(v, step, now);
        DropDriverKept(v, step, now);
      } else {
        LateDriverKept(v, step, now);
        LateSlotKept(v, step, now);
      }
    }
  }

  lemma EarlyRepKept(v: Invocation, step: Step, now: nat, r: nat)
    requires OwnerEnabled(v, step) && !IsLateStep(step) && ControlInv(v) && RepInv(v, r)
    ensures RepInv(OwnerStep(v, step, now), r)
  {
  }

  lemma LateRemovedKept(v: Invocation, step: Step, now: nat, r: nat)
    requires OwnerEnabled(v, step) && IsLateStep(step) && ControlInv(v) && RepInv(v, r)
    ensures RemovedInv(OwnerStep(v, step, now), r)
  {
  }

  lemma LateLiveKept(v: Invocation, step: Step, now: nat, r: nat)
    requires OwnerEnabled(v, step) && IsLateStep(step) && ControlInv(v) && LiveInv(v, r)
    ensures LiveInv(OwnerStep(v, step, now), r)
  {
  }

  lemma RepKept(v: Invocation, step: Step, now: nat, r: nat)
    requires OwnerEnabled(v, step) && ControlInv(v) && RepInv(v, r)
    ensures RepInv(OwnerStep(v, step, now), r)
  {
    if IsLateStep(step) {
      LateRemovedKept(v, step, now, r);
      LateLiveKept(v, step, now, r);
    } else {
      EarlyRepKept(v, step, now, r);
    }
  }

  /** What stays true of every other repetition when one leaves. */
  lemma LeaveKeeps(v: Invocation, r: nat, to: Place, now: nat)
    requires to != Scratch
    ensures var t := Leave(v, r, to, now);
            && t == v.(reps := t.reps, mtime := t.mtime) && t.reps.Keys == v.reps.Keys
            && !InScratch(t, r)
            && (forall x :: x in v.reps && x != r ==> t.reps[x] == v.reps[x])
            && (r in v.reps ==> t.reps[r].driver == v.reps[r].driver)
            && (r in v.reps && t.reps[r].place.Removed? ==>
                  v.reps[r].place.Removed? || (to.Removed? && InScratch(v, r)))
  {
  }

  /** What an owner's step means for the sweeps of its directory: one that is over makes
      no driver appear, and nothing comes back into its scratch directory. */
  ghost predicate GoesOn(v: Invocation, t: Invocation) {
    && t.created == v.created
    && (IsOver(v.control) ==>
          && IsOver(t.control)
          && forall r :: InScratch(t, r) ==>
               InScratch(v, r) && (t.reps[r].driver.Alive? ==> v.reps[r].driver.Alive?))
  }

  lemma EarlyOwnerGoesOn(v: Invocation, step: Step, now: nat)
    requires OwnerEnabled(v, step) && !IsLateStep(step)
    ensures GoesOn(v, OwnerStep(v, step, now))
  {
  }

  lemma OwnerGoesOn(v: Invocation, step: Step, now: nat)
    requires OwnerEnabled(v, step)
    ensures GoesOn(v, OwnerStep(v, step, now))
  {
    if !IsLateStep(step) {
      EarlyOwnerGoesOn(v, step, now);
    }
  }

  /** What a sweep knows survives that. */
  lemma KnowledgeSurvives(d: Setting, s: State, i: nat, t: Invocation, w: Sweep)
    requires i in s.invs && SweepInv(d, s, w) && GoesOn(s.invs[i], t)
    ensures SweepInv(d, s.(invs := s.invs[i := t]), w)
  {
  }

  /** An invocation in a state that keeps its own invariant and goes on. */
  lemma OneInvocationKept(d: Setting, s: State, i: nat, t: Invocation)
    requires i in s.invs && Inv(d, s) && GoesOn(s.invs[i], t)
    requires OwnerInv(t) && t.mtime <= s.now && (t.control.Creating? ==> s.invs[i].control.Creating?)
    ensures Inv(d, s.(invs := s.invs[i := t]))
  {
    forall k | k in s.sweeps ensures SweepInv(d, s.(invs := s.invs[i := t]), s.sweeps[k]) {
      KnowledgeSurvives(d, s, i, t, s.sweeps[k]);
    }
  }

  /** A sweep only goes on past an owner that is gone or only removes what it left. */
  lemma SweepPassesOnlyAFinishedOwner(d: Setting, s: State, step: Step, k: nat)
    requires Fits(d)
    requires SweepEnabled(d, s, step) && Inv(d, s)
    requires || step == SweepProbesOwner(k, false)
             || (step == SweepChecksAge(k) && s.now >= Target(s, k).mtime + STALE_AGE)
    ensures IsOver(Target(s, k).control)
  {
    assert SweepInv(d, s, s.sweeps[k]);
  }

  /** What a removal by one sweep leaves of another sweep's knowledge. */
  lemma RemovalUnderASweep(d: Setting, s: State, k: nat, r: nat, w: Sweep)
    requires SweepEnabled(d, s, SweepRemoves(k, r)) && SweepInv(d, s, w)
    ensures SweepInv(d, SweepStep(d, s, SweepRemoves(k, r)), w)
  {
    LeaveKeeps(Target(s, k), r, Removed, s.now);
  }

  /** The owner file goes as well, which no other sweep relies on. */
  lemma OwnerFileRemovalUnderASweep(d: Setting, s: State, k: nat, w: Sweep)
    requires SweepEnabled(d, s, SweepRemovesOwnerFile(k)) && SweepInv(d, s, w)
    ensures SweepInv(d, SweepStep(d, s, SweepRemovesOwnerFile(k)), w)
  {
  }

  /** What a sweep knows after a step of its own that removes nothing. */
  lemma OwnKnowledgeKept(d: Setting, s: State, step: Step)
    requires Fits(d) && SweepEnabled(d, s, step) && Inv(d, s) && !step.SweepRemoves? && !step.SweepRemovesOwnerFile?
    requires step.k in SweepStep(d, s, step).sweeps
    ensures SweepInv(d, SweepStep(d, s, step), SweepStep(d, s, step).sweeps[step.k])
  {
    if step.SweepReads? {
      assert OwnerInv(s.invs[step.i]);
    } else {
      assert SweepInv(d, s, s.sweeps[step.k]);
      if step.SweepChecksAge? && s.now >= Target(s, step.k).mtime + STALE_AGE {
        SweepPassesOnlyAFinishedOwner(d, s, step, step.k);
      }
    }
  }

  /** Every sweep's knowledge survives every sweep step. */
  lemma SweepKnowledgeKept(d: Setting, s: State, step: Step, x: nat)
    requires Fits(d)
    requires SweepEnabled(d, s, step) && Inv(d, s) && x in SweepStep(d, s, step).sweeps
    ensures SweepInv(d, SweepStep(d, s, step), SweepStep(d, s, step).sweeps[x])
  {
    if step.SweepRemoves? {
      RemovalUnderASweep(d, s, step.k, step.r, s.sweeps[x]);
    } else if step.SweepRemovesOwnerFile? {
      OwnerFileRemovalUnderASweep(d, s, step.k, s.sweeps[x]);
    } else if x == step.k {
      OwnKnowledgeKept(d, s, step);
    } else {
      assert SweepInv(d, s, s.sweeps[x]);
    }
  }

  /** A removal by a sweep keeps what the owner promised: nothing it removes has a live driver. */
  lemma SweepKeepsOwners(d: Setting, s: State, step: Step, i: nat)
    requires SweepEnabled(d, s, step) && Inv(d, s) && i in s.invs
    ensures i in SweepStep(d, s, step).invs
    ensures var v := SweepStep(d, s, step).invs[i];
            && OwnerInv(v) && v.mtime <= s.now && v.created == s.invs[i].created && v.control == s.invs[i].control
  {
    if step.SweepRemovesOwnerFile? {
      assert SweepInv(d, s, s.sweeps[step.k]);
    }
    if step.SweepRemoves? {
      assert SweepInv(d, s, s.sweeps[step.k]);
      LeaveKeeps(Target(s, step.k), step.r, Removed, s.now);
    }
  }

  lemma OwnerKeepsItself(v: Invocation, step: Step, now: nat)
    requires OwnerEnabled(v, step) && OwnerInv(v) && v.mtime <= now
    ensures var t := OwnerStep(v, step, now);
            OwnerInv(t) && t.mtime <= now && GoesOn(v, t) && (t.control.Creating? ==> v.control.Creating?)
  {
    ControlKept(v, step, now);
    OwnerGoesOn(v, step, now);
    OnlyCreationCreates(v, step, now);
    forall r ensures RepInv(OwnerStep(v, step, now), r) {
      RepKept(v, step, now, r);
    }
  }

  lemma OnlyCreationCreates(v: Invocation, step: Step, now: nat)
    requires OwnerEnabled(v, step)
    ensures OwnerStep(v, step, now).control.Creating? ==> v.control.Creating?
  {
  }

  lemma OwnerStepKeepsTheInvariant(d: Setting, s: State, step: Step)
    requires IsOwnerStep(step) && Enabled(d, s, step) && Inv(d, s)
    ensures Inv(d, Apply(d, s, step))
  {
    OwnerKeepsItself(s.invs[step.i], step, s.now);
    OneInvocationKept(d, s, step.i, OwnerStep(s.invs[step.i], step, s.now));
  }

  lemma SweepStepKeepsTheInvariant(d: Setting, s: State, step: Step)
    requires Fits(d)
    requires SweepEnabled(d, s, step) && Inv(d, s)
    ensures Inv(d, SweepStep(d, s, step))
  {
    var t := SweepStep(d, s, step);
    forall i | i in t.invs
      ensures OwnerInv(t.invs[i]) && t.invs[i].mtime <= t.now
      ensures t.invs[i].control.Creating? ==> t.now <= t.invs[i].created + d.ownerDelay
    {
      SweepKeepsOwners(d, s, step, i);
    }
    forall k | k in t.sweeps ensures SweepInv(d, t, t.sweeps[k]) { SweepKnowledgeKept(d, s, step, k); }
  }

  lemma ClockOrCreateKeepsTheInvariant(d: Setting, s: State, step: Step)
    requires (step.Tick? || step.Create?) && Enabled(d, s, step) && Inv(d, s)
    ensures Inv(d, Apply(d, s, step))
  {
    var t := Apply(d, s, step);
    forall k | k in t.sweeps ensures SweepInv(d, t, t.sweeps[k]) { assert SweepInv(d, s, s.sweeps[k]); }
  }

  /** Every reachable state satisfies the invariant. */
  lemma {:induction false} RunKeepsTheInvariant(d: Setting, steps: seq<Step>)
    requires Fits(d)
    requires IsRun(d, steps)
    ensures Inv(d, After(d, steps))
  {
    if steps != [] {
      RunKeepsTheInvariant(d, Front(steps));
      var s, step := After(d, Front(steps)), steps[|steps| - 1];
      if IsOwnerStep(step) {
        OwnerStepKeepsTheInvariant(d, s, step);
      } else if IsSweepStep(step) {
        SweepStepKeepsTheInvariant(d, s, step);
      } else {
        ClockOrCreateKeepsTheInvariant(d, s, step);
      }
    }
  }

  // ------------------------------------------------------- the two theorems

  lemma OneMore(d: Setting, s: State, step: Step)
    requires Reachable(d, s) && Enabled(d, s, step)
    ensures Reachable(d, Apply(d, s, step))
  {
    var steps :| IsRun(d, steps) && After(d, steps) == s;
    assert Front(steps + [step]) == steps;
    assert IsRun(d, steps + [step]);
  }

  /** One invocation, and sweeps. */
  function Alone(now: nat, v: Invocation, sweeps: map<nat, Sweep>): State {
    State(now, map[0 := v], sweeps)
  }

  lemma AloneStep(d: Setting, now: nat, v: Invocation, sweeps: map<nat, Sweep>, step: Step, t: Invocation)
    requires Reachable(d, Alone(now, v, sweeps)) && IsOwnerStep(step) && step.i == 0
    requires OwnerEnabled(v, step) && t == OwnerStep(v, step, now)
    ensures Reachable(d, Alone(now, t, sweeps))
  {
    OneMore(d, Alone(now, v, sweeps), step);
    assert map[0 := v][0 := t] == map[0 := t];
  }

  /** The only invocation between two repetitions, with nothing in scratch. */
  function Idle(): Invocation {
    Invocation(0, 0, Complete, Between, None, false, map[])
  }

  lemma ScratchWithAnEmptyOwnerFile(d: Setting)
    ensures Reachable(d, State(0, map[0 := Idle().(ownerFile := Empty, control := Creating)], map[]))
  {
    assert IsRun(d, []);
    OneMore(d, INITIAL, Create(0));
    var s1 := State(0, map[0 := Idle().(ownerFile := Absent, control := Creating)], map[]);
    OneMore(d, s1, CreateOwnerFile(0));
  }

  lemma IdleOwner(d: Setting)
    ensures Reachable(d, State(0, map[0 := Idle()], map[]))
  {
    ScratchWithAnEmptyOwnerFile(d);
    OneMore(d, State(0, map[0 := Idle().(ownerFile := Empty, control := Creating)], map[]), FillOwnerFile(0));
  }

  /** The owner file is completed right after a sweep read it as missing. */
  lemma ReadsTooEarly(d: Setting, read: nat)
    requires read <= d.ownerDelay
    ensures Reachable(d, State(read, map[0 := Idle()], map[0 := Sweep(0, SawNone(read))]))
  {
    ScratchWithAnEmptyOwnerFile(d);
    var s2 := State(0, map[0 := Idle().(ownerFile := Empty, control := Creating)], map[]);
    OneMore(d, s2, Tick(read));
    var s3 := s2.(now := read);
    OneMore(d, s3, SweepReads(0, 0, true));
    var s4 := s3.(sweeps := map[0 := Sweep(0, SawNone(read))]);
    assert s4 == Apply(d, s3, SweepReads(0, 0, true));
    OneMore(d, s4, FillOwnerFile(0));
  }

  /** The owner file cannot be read, however long it has been there. */
  lemma ReadsNoOwner(d: Setting)
    requires d.faults.owner
    ensures Reachable(d, State(STALE_AGE, map[0 := Idle()], map[0 := Sweep(0, SawNone(STALE_AGE))]))
  {
    IdleOwner(d);
    var s0 := State(0, map[0 := Idle()], map[]);
    OneMore(d, s0, Tick(STALE_AGE));
    var s1 := s0.(now := STALE_AGE);
    OneMore(d, s1, SweepReads(0, 0, false));
    assert Apply(d, s1, SweepReads(0, 0, false)) == s1.(sweeps := map[0 := Sweep(0, SawNone(STALE_AGE))]);
  }

  /** The directory is old enough by now, and no repetition is in it yet. */
  lemma PassesTheAgeCheck(d: Setting, read: nat)
    requires read <= STALE_AGE <= read + d.sweepDelay
    requires Reachable(d, State(read, map[0 := Idle()], map[0 := Sweep(0, SawNone(read))]))
    ensures Reachable(d, State(STALE_AGE, map[0 := Idle()], map[0 := Sweep(0, Scanning({}))]))
  {
    var s0 := State(read, map[0 := Idle()], map[0 := Sweep(0, SawNone(read))]);
    OneMore(d, s0, Tick(STALE_AGE));
    var s1 := s0.(now := STALE_AGE);
    OneMore(d, s1, SweepChecksAge(0));
    var s2 := s1.(sweeps := map[0 := Sweep(0, Passed)]);
    assert Apply(d, s1, SweepChecksAge(0)) == s2;
    assert Listing(s2.invs[0]) == {};
    OneMore(d, s2, SweepLists(0, true));
    assert Apply(d, s2, SweepLists(0, true)) == s2.(sweeps := map[0 := Sweep(0, Scanning({}))]);
  }

  /** The invocation with its first run started. */
  function Running(now: nat, control: Control): Invocation {
    Invocation(0, now, Complete, control, None, false, map[1 := Repetition(Scratch, Alive)])
  }

  /** An owner starts a run. */
  lemma OwnerStarts(d: Setting, now: nat, sweeps: map<nat, Sweep>)
    requires Reachable(d, Alone(now, Idle(), sweeps))
    ensures Reachable(d, Alone(now, Running(now, Starting(1)), sweeps))
  {
    var built := Running(now, Built(1)).(reps := map[1 := Repetition(Scratch, NotStarted)]);
    AloneStep(d, now, Idle(), sweeps, Build(0, 1), built);
    AloneStep(d, now, built, sweeps, BeginStart(0), built.(control := Starting(1)));
    AloneStep(d, now, built.(control := Starting(1)), sweeps, DriverSpawns(0), Running(now, Starting(1)));
  }

  /** A sweep that sees nothing left to probe removes the tree of a live driver. */
  lemma Deletes(d: Setting, s0: State) returns (bad: State)
    requires Reachable(d, s0) && 0 in s0.sweeps && s0.sweeps[0] == Sweep(0, Scanning({}))
    requires 0 in s0.invs && s0.invs[0].reps == map[1 := Repetition(Scratch, Alive)]
    ensures Reachable(d, bad) && !NoDeletionUnderALiveDriver(bad)
  {
    OneMore(d, s0, SweepDecides(0));
    var s1 := Apply(d, s0, SweepDecides(0));
    OneMore(d, s1, SweepRemoves(0, 1));
    bad := Apply(d, s1, SweepRemoves(0, 1));
    assert bad.invs[0].reps[1] == Repetition(Removed, Alive);
  }

  /** With longer delays a sweep reads "no owner" just before the owner file
      is complete, finds the directory old enough, sees no driver, and removes
      the tree of a run the live owner started in the meantime. */
  lemma LongDelaysDeleteUnderALiveDriver(d: Setting) returns (bad: State)
    requires d.ownerDelay + d.sweepDelay >= STALE_AGE
    ensures Reachable(d, bad) && !NoDeletionUnderALiveDriver(bad)
  {
    var read := if d.ownerDelay <= STALE_AGE then d.ownerDelay else STALE_AGE;
    ReadsTooEarly(d, read);
    PassesTheAgeCheck(d, read);
    var sweeps := map[0 := Sweep(0, Scanning({}))];
    OwnerStarts(d, STALE_AGE, sweeps);
    bad := Deletes(d, Alone(STALE_AGE, Running(STALE_AGE, Starting(1)), sweeps));
  }

  /** An owner file that does not read does the same to an owner at work, whatever
      the delays. */
  lemma UnreadOwnerDeletesUnderALiveDriver(d: Setting) returns (bad: State)
    requires d.faults.owner
    ensures Reachable(d, bad) && !NoDeletionUnderALiveDriver(bad)
  {
    ReadsNoOwner(d);
    PassesTheAgeCheck(d, STALE_AGE);
    var sweeps := map[0 := Sweep(0, Scanning({}))];
    OwnerStarts(d, STALE_AGE, sweeps);
    bad := Deletes(d, Alone(STALE_AGE, Running(STALE_AGE, Starting(1)), sweeps));
  }

  /** A sweep faces a run whose owner was killed. */
  lemma Orphan(d: Setting) returns (s: State)
    ensures Reachable(d, s) && HasSweep(s, 0) && s.sweeps == map[0 := Sweep(0, Passed)]
    ensures s.invs[0].reps == map[1 := Repetition(Scratch, Alive)]
  {
    IdleOwner(d);
    OwnerStarts(d, 0, map[]);
    AloneStep(d, 0, Running(0, Starting(1)), map[], Crash(0), Running(0, Gone));
    var s1 := Alone(0, Running(0, Gone), map[]);
    OneMore(d, s1, SweepReads(0, 0, true));
    var s2 := Alone(0, Running(0, Gone), map[0 := Sweep(0, SawPid)]);
    assert Apply(d, s1, SweepReads(0, 0, true)) == s2;
    OneMore(d, s2, SweepProbesOwner(0, false));
    s := Alone(0, Running(0, Gone), map[0 := Sweep(0, Passed)]);
    assert Apply(d, s2, SweepProbesOwner(0, false)) == s;
  }

  /** So does a listing of the scratch directory that fails: the sweep goes on as if
      no driver lived. */
  lemma UnlistedScratchDeletesUnderALiveDriver(d: Setting) returns (bad: State)
    requires d.faults.scratch
    ensures Reachable(d, bad) && !NoDeletionUnderALiveDriver(bad)
  {
    var s := Orphan(d);
    OneMore(d, s, SweepLists(0, false));
    bad := Deletes(d, Becomes(s, 0, Scanning({})));
  }

  /** And a listing of the run directories that fails. */
  lemma UnlistedRunsDeleteUnderALiveDriver(d: Setting) returns (bad: State)
    requires d.faults.runs
    ensures Reachable(d, bad) && !NoDeletionUnderALiveDriver(bad)
  {
    var s := Orphan(d);
    assert Listing(s.invs[0]) == {1};
    OneMore(d, s, SweepLists(0, true));
    var s1 := Becomes(s, 0, Scanning({1}));
    OneMore(d, s1, SweepProbesDriver(0, 1, false));
    assert {1} - {1} == {};
    bad := Deletes(d, Becomes(s1, 0, Scanning({})));
  }

  /** The promise of the design, exactly: no step of any interleaving deletes a
      repetition's tree under a live driver, if and only if no read of a sweep
      fails and the two delays together stay below the 600 s window of
      `sweep_stale_scratch`. */
  lemma SafeIffReadsWorkAndDelaysFit(d: Setting)
    ensures Safe(d) <==> d.faults == NO_FAULTS && d.ownerDelay + d.sweepDelay < STALE_AGE
  {
    if Fits(d) {
      forall s | Reachable(d, s) ensures NoDeletionUnderALiveDriver(s) {
        var steps :| IsRun(d, steps) && After(d, steps) == s;
        RunKeepsTheInvariant(d, steps);
        forall i, r | i in s.invs && r in s.invs[i].reps && s.invs[i].reps[r].place.Removed?
          ensures s.invs[i].reps[r].driver != Alive
        {
          assert RepInv(s.invs[i], r);
        }
      }
    } else if d.faults.owner {
      var bad := UnreadOwnerDeletesUnderALiveDriver(d);
    } else if d.faults.scratch {
      var bad := UnlistedScratchDeletesUnderALiveDriver(d);
    } else if d.faults.runs {
      var bad := UnlistedRunsDeleteUnderALiveDriver(d);
    } else {
      var bad := LongDelaysDeleteUnderALiveDriver(d);
    }
  }

  // ------------------------------------------------- what a run says about a place

  lemma {:induction false} BeginningIsRun(d: Setting, steps: seq<Step>, n: nat)
    requires IsRun(d, steps) && n <= |steps|
    ensures IsRun(d, steps[..n])
  {
    if n < |steps| {
      BeginningIsRun(d, Front(steps), n);
      assert Front(steps)[..n] == steps[..n];
    } else {
      assert steps[..n] == steps;
    }
  }

  /** The state in which step `n` of a run is taken. */
  ghost function Before(d: Setting, steps: seq<Step>, n: nat): State
    requires IsRun(d, steps) && n <= |steps|
  {
    BeginningIsRun(d, steps, n);
    After(d, steps[..n])
  }

  /** One step further, everything before is as it was. */
  lemma LastStep(d: Setting, steps: seq<Step>)
    requires IsRun(d, steps) && steps != []
    ensures var n := |steps| - 1;
            && Before(d, steps, n) == After(d, Front(steps)) && Enabled(d, Before(d, steps, n), steps[n])
            && After(d, steps) == Apply(d, Before(d, steps, n), steps[n])
            && forall m: nat :: m < |steps| ==> Before(d, steps, m) == Before(d, Front(steps), m)
  {
    var front := Front(steps);
    forall m: nat | m < |steps| ensures Before(d, steps, m) == Before(d, front, m) {
      assert front[..m] == steps[..m];
    }
    assert front[..|front|] == front;
  }

  /** The owner's keep of a repetition in scratch works: its own, or the one of its guard. */
  predicate OwnerKeeps(v: Invocation, step: Step, r: nat) {
    InScratch(v, r) &&
    match step
    case KeepRename(_, ok) => ok && v.control == Keeping(r)
    case DropKeepRename(_, ok) => ok && v.control == DropKeeping(r)
    case _ => false
  }

  /** The owner removes the tree of a repetition in scratch: after a failed build or start,
      once its run is stored, or in its guard. */
  predicate OwnerRemoves(v: Invocation, step: Step, r: nat) {
    InScratch(v, r) &&
    match step
    case BuildFails(_) => v.control == Built(r)
    case StartFails(_) => v.control == Starting(r)
    case RemoveStored(_, ok) => ok && v.control == Storing(r)
    case DropRemoves(_, x) => x == r
    case _ => false
  }

  predicate SweepRemovesIt(s: State, step: Step, i: nat, r: nat) {
    && step.SweepRemoves? && step.r == r && HasSweep(s, step.k) && s.sweeps[step.k].target == i
    && InScratch(s.invs[i], r)
  }

  predicate Keeps(s: State, step: Step, i: nat, r: nat) {
    IsOwnerStep(step) && step.i == i && i in s.invs && OwnerKeeps(s.invs[i], step, r)
  }

  predicate Removes(s: State, step: Step, i: nat, r: nat) {
    || (IsOwnerStep(step) && step.i == i && i in s.invs && OwnerRemoves(s.invs[i], step, r))
    || SweepRemovesIt(s, step, i, r)
  }

  predicate FailsToKeep(step: Step, i: nat) {
    step == KeepRename(i, false) || step == DropKeepRename(i, false)
  }

  /** What one step makes of one repetition's place. */
  predicate PlaceGoesOn(v: Invocation, t: Invocation, r: nat, kept: bool, removed: bool)
    requires r in v.reps
  {
    && r in t.reps
    && (t.reps[r].place.Kept? <==> v.reps[r].place.Kept? || kept)
    && (t.reps[r].place.Removed? <==> v.reps[r].place.Removed? || removed)
  }

  lemma OwnerMovesPlaces(v: Invocation, step: Step, now: nat, r: nat)
    requires OwnerEnabled(v, step) && r in v.reps
    ensures PlaceGoesOn(v, OwnerStep(v, step, now), r, OwnerKeeps(v, step, r), OwnerRemoves(v, step, r))
  {
    if IsDropStep(step) {
      DropMovesPlaces(v, step, now, r);
    }
  }

  lemma DropMovesPlaces(v: Invocation, step: Step, now: nat, r: nat)
    requires OwnerEnabled(v, step) && IsDropStep(step) && r in v.reps
    ensures PlaceGoesOn(v, OwnerStep(v, step, now), r, OwnerKeeps(v, step, r), OwnerRemoves(v, step, r))
  {
  }

  lemma OthersLeaveIt(d: Setting, s: State, step: Step, i: nat)
    requires Enabled(d, s, step) && i in s.invs && !IsSweepStep(step) && !(IsOwnerStep(step) && step.i == i)
    ensures i in Apply(d, s, step).invs && Apply(d, s, step).invs[i] == s.invs[i]
  {
  }

  lemma SweepMovesPlaces(d: Setting, s: State, step: Step, i: nat, r: nat)
    requires IsSweepStep(step) && SweepEnabled(d, s, step) && i in s.invs && r in s.invs[i].reps
    ensures i in SweepStep(d, s, step).invs
    ensures PlaceGoesOn(s.invs[i], SweepStep(d, s, step).invs[i], r, false, SweepRemovesIt(s, step, i, r))
  {
    if step.SweepRemoves? {
      LeaveKeeps(Target(s, step.k), step.r, Removed, s.now);
    }
  }

  /** A repetition that a step brings about is in scratch, and only a failed keep sets the flag. */
  lemma OwnerBrings(v: Invocation, step: Step, now: nat)
    requires OwnerEnabled(v, step)
    ensures var t := OwnerStep(v, step, now);
            && (t.keep <==> v.keep || FailsToKeep(step, step.i))
            && forall r :: r in t.reps && r !in v.reps ==> t.reps[r].place.Scratch?
  {
  }

  lemma SweepBringsNothing(d: Setting, s: State, step: Step, i: nat)
    requires IsSweepStep(step) && SweepEnabled(d, s, step) && i in s.invs
    ensures i in SweepStep(d, s, step).invs
    ensures SweepStep(d, s, step).invs[i].keep == s.invs[i].keep
    ensures SweepStep(d, s, step).invs[i].reps.Keys == s.invs[i].reps.Keys
  {
    if step.SweepRemoves? {
      LeaveKeeps(Target(s, step.k), step.r, Removed, s.now);
    }
  }

  /** The flag of an invocation is set. */
  predicate HasFlag(s: State, i: nat) {
    i in s.invs && s.invs[i].keep
  }

  predicate IsKept(s: State, i: nat, r: nat) {
    i in s.invs && r in s.invs[i].reps && s.invs[i].reps[r].place.Kept?
  }

  predicate IsRemoved(s: State, i: nat, r: nat) {
    i in s.invs && r in s.invs[i].reps && s.invs[i].reps[r].place.Removed?
  }

  /** What one step makes of a place and of the flag. */
  ghost predicate StepTells(s: State, t: State, step: Step, i: nat, r: nat) {
    && (IsKept(t, i, r) <==> IsKept(s, i, r) || Keeps(s, step, i, r))
    && (IsRemoved(t, i, r) <==> IsRemoved(s, i, r) || Removes(s, step, i, r))
    && (HasFlag(t, i) <==> HasFlag(s, i) || FailsToKeep(step, i))
  }

  lemma OwnerStepTells(d: Setting, s: State, step: Step, i: nat, r: nat)
    requires Enabled(d, s, step) && IsOwnerStep(step) && step.i == i
    ensures StepTells(s, Apply(d, s, step), step, i, r)
  {
    var v := s.invs[i];
    OwnerBrings(v, step, s.now);
    if r in v.reps {
      OwnerMovesPlaces(v, step, s.now, r);
    }
  }

  lemma SweepStepTells(d: Setting, s: State, step: Step, i: nat, r: nat)
    requires SweepEnabled(d, s, step) && IsSweepStep(step)
    ensures StepTells(s, SweepStep(d, s, step), step, i, r)
  {
    if i in s.invs {
      SweepBringsNothing(d, s, step, i);
      if r in s.invs[i].reps {
        SweepMovesPlaces(d, s, step, i, r);
      }
    }
  }

  lemma OtherStepTells(d: Setting, s: State, step: Step, i: nat, r: nat)
    requires Enabled(d, s, step) && !IsSweepStep(step) && !(IsOwnerStep(step) && step.i == i)
    ensures StepTells(s, Apply(d, s, step), step, i, r)
  {
    if i in s.invs {
      OthersLeaveIt(d, s, step, i);
    }
  }

  lemma AnyStepTells(d: Setting, s: State, step: Step, i: nat, r: nat)
    requires Enabled(d, s, step)
    ensures StepTells(s, Apply(d, s, step), step, i, r)
  {
    if IsSweepStep(step) {
      SweepStepTells(d, s, step, i, r);
    } else if IsOwnerStep(step) && step.i == i {
      OwnerStepTells(d, s, step, i, r);
    } else {
      OtherStepTells(d, s, step, i, r);
    }
  }

  /** A keep of the repetition worked at some step of the run; a removal met it at one. */
  ghost predicate KeptIn(d: Setting, steps: seq<Step>, i: nat, r: nat)
    requires IsRun(d, steps)
  {
    exists n: nat :: n < |steps| && Keeps(Before(d, steps, n), steps[n], i, r)
  }

  ghost predicate RemovedIn(d: Setting, steps: seq<Step>, i: nat, r: nat)
    requires IsRun(d, steps)
  {
    exists n: nat :: n < |steps| && Removes(Before(d, steps, n), steps[n], i, r)
  }

  lemma KeptInMore(d: Setting, steps: seq<Step>, i: nat, r: nat)
    requires IsRun(d, steps) && steps != []
    ensures KeptIn(d, steps, i, r) <==>
            KeptIn(d, Front(steps), i, r) || Keeps(After(d, Front(steps)), steps[|steps| - 1], i, r)
  {
    LastStep(d, steps);
    assert forall n: nat :: n < |steps| - 1 ==> steps[n] == Front(steps)[n];
  }

  lemma RemovedInMore(d: Setting, steps: seq<Step>, i: nat, r: nat)
    requires IsRun(d, steps) && steps != []
    ensures RemovedIn(d, steps, i, r) <==>
            RemovedIn(d, Front(steps), i, r) || Removes(After(d, Front(steps)), steps[|steps| - 1], i, r)
  {
    LastStep(d, steps);
    assert forall n: nat :: n < |steps| - 1 ==> steps[n] == Front(steps)[n];
  }

  ghost predicate FlaggedIn(steps: seq<Step>, i: nat) {
    exists n: nat :: n < |steps| && FailsToKeep(steps[n], i)
  }

  lemma FlaggedInMore(steps: seq<Step>, i: nat)
    requires steps != []
    ensures FlaggedIn(steps, i) <==> FlaggedIn(Front(steps), i) || FailsToKeep(steps[|steps| - 1], i)
  {
    assert forall n: nat :: n < |steps| - 1 ==> steps[n] == Front(steps)[n];
  }

  /** Over every run, with crashes and sweeps anywhere: a repetition is in the kept place
      exactly when a rename of its owner or its guard worked while it was in scratch, it is
      removed exactly when one of the removals met it there, and an invocation's flag is set
      exactly when a keep of it failed. */
  lemma {:induction false} PlaceTellsTheRun(d: Setting, steps: seq<Step>, i: nat, r: nat)
    requires IsRun(d, steps)
    ensures IsKept(After(d, steps), i, r) <==> KeptIn(d, steps, i, r)
    ensures IsRemoved(After(d, steps), i, r) <==> RemovedIn(d, steps, i, r)
    ensures HasFlag(After(d, steps), i) <==> FlaggedIn(steps, i)
  {
    if steps != [] {
      KeptInMore(d, steps, i, r);
      RemovedInMore(d, steps, i, r);
      FlaggedInMore(steps, i);
      PlaceTellsTheRun(d, Front(steps), i, r);
      AnyStepTells(d, After(d, Front(steps)), steps[|steps| - 1], i, r);
    }
  }

  lemma KeptInABeginning(d: Setting, steps: seq<Step>, n: nat, m: nat, i: nat, r: nat)
    requires IsRun(d, steps) && n < m <= |steps| && Keeps(Before(d, steps, n), steps[n], i, r)
    ensures IsRun(d, steps[..m]) && KeptIn(d, steps[..m], i, r)
  {
    BeginningIsRun(d, steps, m);
    var run := steps[..m];
    assert run[..n] == steps[..n] && run[n] == steps[n];
    assert Before(d, run, n) == Before(d, steps, n);
  }

  lemma OneStepFurther(d: Setting, steps: seq<Step>, n: nat)
    requires IsRun(d, steps) && n < |steps|
    ensures Enabled(d, Before(d, steps, n), steps[n])
    ensures Before(d, steps, n + 1) == Apply(d, Before(d, steps, n), steps[n])
  {
    BeginningIsRun(d, steps, n + 1);
    LastStep(d, steps[..n + 1]);
    assert steps[..n + 1][..n] == steps[..n];
  }

  /** A rename that works takes the repetition out of scratch for good, and leaves the
      flag as it was. */
  lemma KeptStaysKept(d: Setting, steps: seq<Step>, n: nat, m: nat, i: nat, r: nat)
    requires IsRun(d, steps) && n < m <= |steps| && Keeps(Before(d, steps, n), steps[n], i, r)
    ensures IsKept(Before(d, steps, m), i, r) && !InScratch(Before(d, steps, m).invs[i], r)
    ensures HasFlag(Before(d, steps, n + 1), i) <==> HasFlag(Before(d, steps, n), i)
  {
    KeptInABeginning(d, steps, n, m, i, r);
    PlaceTellsTheRun(d, steps[..m], i, r);
    OneStepFurther(d, steps, n);
    AnyStepTells(d, Before(d, steps, n), steps[n], i, r);
  }

  predicate IsAt(s: State, i: nat, c: Control) {
    i in s.invs && s.invs[i].control == c
  }

  /** The step that leads to this place of the owner's course, and where from. */
  predicate LeadsTo(i: nat, c: Control, step: Step, to: Control) {
    match to
    case Following(r) => c == Started(r) && step == SetLive(i)
    case Waited(r, clean) => c == Following(r) && step == DriverGoneAnswers(i, clean)
    case Storing(r) => c == Waited(r, true) && step == MoveRun(i, true)
    case Keeping(r) =>
      (c == Waited(r, true) && step == MoveRun(i, false)) || (c == Waited(r, false) && step == KeepUnclean(i))
    case DropKeeping(r) => c == DropWaiting(r) && step == DropGoneAnswers(i, false)
    case DropRemoving => c == DropDeciding && step == DropDecides(i)
    case _ => true
  }

  predicate HasOneWay(c: Control) {
    c.Following? || c.Waited? || c.Storing? || c.Keeping? || c.DropKeeping? || c.DropRemoving?
  }

  ghost predicate CameBy(d: Setting, steps: seq<Step>, i: nat, to: Control)
    requires IsRun(d, steps)
  {
    exists n: nat :: n < |steps| && CameAt(Before(d, steps, n), i, steps[n], to)
  }

  predicate CameAt(s: State, i: nat, step: Step, to: Control) {
    i in s.invs && LeadsTo(i, s.invs[i].control, step, to)
  }

  lemma OneStepOfTheCourse(v: Invocation, step: Step, now: nat)
    requires OwnerEnabled(v, step) && HasOneWay(OwnerStep(v, step, now).control)
    ensures var to := OwnerStep(v, step, now).control; to == v.control || LeadsTo(step.i, v.control, step, to)
  {
  }

  lemma OthersLeaveTheCourse(d: Setting, s: State, step: Step, i: nat)
    requires Enabled(d, s, step) && i in Apply(d, s, step).invs && !(IsOwnerStep(step) && step.i == i)
    ensures if i in s.invs then Apply(d, s, step).invs[i].control == s.invs[i].control
            else Apply(d, s, step).invs[i].control.Creating?
  {
  }

  lemma AnyStepOfTheCourse(d: Setting, s: State, step: Step, i: nat)
    requires Enabled(d, s, step) && i in Apply(d, s, step).invs && HasOneWay(Apply(d, s, step).invs[i].control)
    ensures var to := Apply(d, s, step).invs[i].control; CameAt(s, i, step, to) || IsAt(s, i, to)
  {
    if IsOwnerStep(step) && step.i == i {
      OneStepOfTheCourse(s.invs[i], step, s.now);
    } else {
      OthersLeaveTheCourse(d, s, step, i);
    }
  }

  lemma CameByMore(d: Setting, steps: seq<Step>, i: nat, to: Control)
    requires IsRun(d, steps) && steps != []
    ensures CameBy(d, steps, i, to) <==>
            CameBy(d, Front(steps), i, to) || CameAt(After(d, Front(steps)), i, steps[|steps| - 1], to)
  {
    LastStep(d, steps);
    assert forall n: nat :: n < |steps| - 1 ==> steps[n] == Front(steps)[n];
  }

  lemma {:induction false} OwnerKeepsToItsCourse(d: Setting, steps: seq<Step>, i: nat)
    requires IsRun(d, steps) && i in After(d, steps).invs && HasOneWay(After(d, steps).invs[i].control)
    ensures CameBy(d, steps, i, After(d, steps).invs[i].control)
  {
    var to := After(d, steps).invs[i].control;
    var s := After(d, Front(steps));
    CameByMore(d, steps, i, to);
    AnyStepOfTheCourse(d, s, steps[|steps| - 1], i);
    if IsAt(s, i, to) {
      OwnerKeepsToItsCourse(d, Front(steps), i);
    }
  }

  /** A finished repetition's tree is removed by its owner only after its run directory was
      moved out, which only happens once its driver was seen to be gone. */
  lemma RemovedOnlyAfterStoring(d: Setting, steps: seq<Step>, n: nat, i: nat, r: nat) returns (moved: nat, seen: nat)
    requires IsRun(d, steps) && n < |steps| && steps[n] == RemoveStored(i, true)
    requires IsAt(Before(d, steps, n), i, Storing(r))
    ensures seen < moved < n
    ensures steps[moved] == MoveRun(i, true) && IsAt(Before(d, steps, moved), i, Waited(r, true))
    ensures steps[seen] == DriverGoneAnswers(i, true) && IsAt(Before(d, steps, seen), i, Following(r))
  {
    moved := CourseBefore(d, steps, n, i);
    seen := CourseBefore(d, steps, moved, i);
  }

  lemma CourseBefore(d: Setting, steps: seq<Step>, n: nat, i: nat) returns (m: nat)
    requires IsRun(d, steps) && n <= |steps|
    requires i in Before(d, steps, n).invs && HasOneWay(Before(d, steps, n).invs[i].control)
    ensures m < n && CameAt(Before(d, steps, m), i, steps[m], Before(d, steps, n).invs[i].control)
  {
    BeginningIsRun(d, steps, n);
    OwnerKeepsToItsCourse(d, steps[..n], i);
    var to := Before(d, steps, n).invs[i].control;
    m :| m < n && CameAt(Before(d, steps[..n], m), i, steps[..n][m], to);
    assert steps[..n][..m] == steps[..m];
  }

  /** A repetition is kept by its owner only when its driver would not exit or its run
      directory could not be moved out, and by the guard only when the driver would not. */
  lemma KeptOnlyWhenNeeded(d: Setting, steps: seq<Step>, n: nat, i: nat, r: nat) returns (why: nat)
    requires IsRun(d, steps) && n < |steps| && Keeps(Before(d, steps, n), steps[n], i, r)
    ensures why < n
    ensures var s, step := Before(d, steps, why), steps[why];
            || (step == KeepUnclean(i) && IsAt(s, i, Waited(r, false)))
            || (step == MoveRun(i, false) && IsAt(s, i, Waited(r, true)))
            || (step == DropGoneAnswers(i, false) && IsAt(s, i, DropWaiting(r)))
  {
    why := CourseBefore(d, steps, n, i);
  }

  // ------------------------------------------------- a repetition kept in place

  /** Sweeps alone lead from `s` to `t`, through these states. */
  ghost predicate IsSweeping(d: Setting, states: seq<State>, steps: seq<Step>) {
    && |states| == |steps| + 1
    && forall n :: 0 <= n < |steps| ==> IsOneSweep(d, states[n], steps[n], states[n + 1])
  }

  ghost predicate IsOneSweep(d: Setting, s: State, step: Step, t: State) {
    IsSweepStep(step) && SweepEnabled(d, s, step) && t == SweepStep(d, s, step)
  }

  ghost predicate SweepsTo(d: Setting, s: State, t: State) {
    exists states, steps :: IsSweeping(d, states, steps) && states[0] == s && states[|steps|] == t
  }

  lemma SweepsNowhere(d: Setting, s: State)
    ensures SweepsTo(d, s, s)
  {
    assert IsSweeping(d, [s], []);
  }

  lemma LongerSweeping(d: Setting, states: seq<State>, steps: seq<Step>, step: Step, t: State)
    requires IsSweeping(d, states, steps) && IsOneSweep(d, states[|steps|], step, t)
    ensures IsSweeping(d, states + [t], steps + [step])
  {
    var more, longer := states + [t], steps + [step];
    forall n | 0 <= n < |longer| ensures IsOneSweep(d, more[n], longer[n], more[n + 1]) {
      assert n < |steps| ==> IsOneSweep(d, states[n], steps[n], states[n + 1]);
    }
  }

  lemma OneMoreSweep(d: Setting, s: State, t: State, step: Step)
    requires SweepsTo(d, s, t) && IsSweepStep(step) && SweepEnabled(d, t, step)
    ensures SweepsTo(d, s, SweepStep(d, t, step))
  {
    var states, steps :| IsSweeping(d, states, steps) && states[0] == s && states[|steps|] == t;
    var u := SweepStep(d, t, step);
    LongerSweeping(d, states, steps, step, u);
    assert (states + [u])[0] == s && (states + [u])[|steps + [step]|] == u;
  }

  /** Sweeping keeps a state reachable. */
  lemma {:induction false} SweptIsReachable(d: Setting, states: seq<State>, steps: seq<Step>)
    requires IsSweeping(d, states, steps) && Reachable(d, states[0])
    ensures Reachable(d, states[|steps|])
  {
    if steps != [] {
      var n := |steps| - 1;
      assert IsSweeping(d, states[..n + 1], steps[..n]);
      assert IsOneSweep(d, states[n], steps[n], states[n + 1]);
      SweptIsReachable(d, states[..n + 1], steps[..n]);
      OneMore(d, states[n], steps[n]);
    }
  }

  /** What sweeps leave of an invocation: everything but repetitions without a live
      driver and the owner file. */
  ghost predicate OnlySwept(before: Invocation, after: Invocation) {
    && after.control == before.control && after.keep == before.keep && after.reps.Keys == before.reps.Keys
    && forall r :: r in before.reps ==>
         && after.reps[r].driver == before.reps[r].driver
         && (InScratch(before, r) && before.reps[r].driver.Alive? ==> InScratch(after, r))
  }

  lemma OneSweepOnlySweeps(d: Setting, s: State, step: Step, i: nat)
    requires Fits(d) && Inv(d, s) && IsSweepStep(step) && SweepEnabled(d, s, step) && i in s.invs
    ensures i in SweepStep(d, s, step).invs && OnlySwept(s.invs[i], SweepStep(d, s, step).invs[i])
  {
    if step.SweepRemoves? {
      assert SweepInv(d, s, s.sweeps[step.k]);
      LeaveKeeps(Target(s, step.k), step.r, Removed, s.now);
    }
  }

  lemma {:induction false} SweepingOnlySweeps(d: Setting, states: seq<State>, steps: seq<Step>, i: nat)
    requires Fits(d) && IsSweeping(d, states, steps) && Inv(d, states[0]) && i in states[0].invs
    ensures Inv(d, states[|steps|]) && i in states[|steps|].invs
    ensures OnlySwept(states[0].invs[i], states[|steps|].invs[i])
  {
    if steps != [] {
      var n := |steps| - 1;
      assert IsSweeping(d, states[..n + 1], steps[..n]);
      assert IsOneSweep(d, states[n], steps[n], states[n + 1]);
      SweepingOnlySweeps(d, states[..n + 1], steps[..n], i);
      OneSweepOnlySweeps(d, states[n], steps[n], i);
      SweepStepKeepsTheInvariant(d, states[n], steps[n]);
    }
  }

  /** The one step that can remove the repetition: the owner is over then, and no driver
      in the scratch directory lives. */
  lemma RemovalMeansOver(d: Setting, s: State, step: Step, i: nat, r: nat)
    requires Fits(d) && Inv(d, s) && IsSweepStep(step) && SweepEnabled(d, s, step)
    requires i in s.invs && InScratch(s.invs[i], r)
    requires i in SweepStep(d, s, step).invs && !InScratch(SweepStep(d, s, step).invs[i], r)
    ensures IsOver(s.invs[i].control) && forall x :: InScratch(s.invs[i], x) ==> s.invs[i].reps[x].driver != Alive
  {
    assert step.SweepRemoves? && s.sweeps[step.k].target == i;
    assert SweepInv(d, s, s.sweeps[step.k]);
  }

  lemma {:induction false} SweptWasOver(d: Setting, states: seq<State>, steps: seq<Step>, i: nat, r: nat)
    requires Fits(d) && IsSweeping(d, states, steps) && Inv(d, states[0]) && i in states[0].invs
    requires InScratch(states[0].invs[i], r)
    requires i in states[|steps|].invs && !InScratch(states[|steps|].invs[i], r)
    ensures var v := states[0].invs[i];
            IsOver(v.control) && forall x :: InScratch(v, x) ==> v.reps[x].driver != Alive
  {
    var n := |steps| - 1;
    var front := states[..n + 1];
    assert IsSweeping(d, front, steps[..n]);
    assert IsOneSweep(d, states[n], steps[n], states[n + 1]);
    SweepingOnlySweeps(d, front, steps[..n], i);
    if InScratch(states[n].invs[i], r) {
      RemovalMeansOver(d, states[n], steps[n], i, r);
    } else {
      SweptWasOver(d, front, steps[..n], i, r);
    }
  }

  /** A number no sweep has yet. */
  lemma FreshSweep(s: State) returns (k: nat)
    ensures k !in s.sweeps
  {
    k := Above(s.sweeps.Keys);
  }

  lemma {:induction false} Above(keys: set<nat>) returns (k: nat)
    ensures forall x :: x in keys ==> x < k
    decreases |keys|
  {
    if keys == {} {
      k := 0;
    } else {
      var x :| x in keys;
      var rest := Above(keys - {x});
      assert keys == (keys - {x}) + {x};
      k := if rest > x then rest else x + 1;
    }
  }

  /** A sweep probes everything it listed, and finds no live driver. */
  lemma {:induction false} ProbesAll(d: Setting, s: State, t: State, k: nat) returns (u: State)
    requires SweepsTo(d, s, t) && HasSweep(t, k) && t.sweeps[k].phase.Scanning?
    requires forall r :: r in t.sweeps[k].phase.todo ==> NotAlive(Target(t, k), r)
    ensures SweepsTo(d, s, u) && u.invs == t.invs && k in u.sweeps
    ensures u.sweeps[k] == Sweep(t.sweeps[k].target, Scanning({}))
    decreases |t.sweeps[k].phase.todo|
  {
    var todo := t.sweeps[k].phase.todo;
    if todo == {} {
      u := t;
    } else {
      var r :| r in todo;
      OneMoreSweep(d, s, t, SweepProbesDriver(k, r, false));
      u := ProbesAll(d, s, SweepStep(d, t, SweepProbesDriver(k, r, false)), k);
    }
  }

  /** A whole sweep of a scratch directory whose owner is gone. */
  lemma WholeSweep(d: Setting, s: State, i: nat, r: nat) returns (t: State)
    requires i in s.invs && s.invs[i].control.Gone? && s.invs[i].ownerFile.Complete? && InScratch(s.invs[i], r)
    requires forall x :: InScratch(s.invs[i], x) ==> s.invs[i].reps[x].driver != Alive
    ensures SweepsTo(d, s, t) && i in t.invs && r in t.invs[i].reps && t.invs[i].reps[r].place.Removed?
  {
    var k := FreshSweep(s);
    var s3 := ListedByASweep(d, s, i, k);
    var s4 := ProbesAll(d, s, s3, k);
    OneMoreSweep(d, s, s4, SweepDecides(k));
    var s5 := SweepStep(d, s4, SweepDecides(k));
    OneMoreSweep(d, s, s5, SweepRemoves(k, r));
    t := SweepStep(d, s5, SweepRemoves(k, r));
  }

  lemma ListedByASweep(d: Setting, s: State, i: nat, k: nat) returns (t: State)
    requires i in s.invs && s.invs[i].control.Gone? && s.invs[i].ownerFile.Complete? && k !in s.sweeps
    ensures SweepsTo(d, s, t) && t.invs == s.invs && k in t.sweeps
    ensures t.sweeps[k] == Sweep(i, Scanning(Listing(s.invs[i])))
  {
    SweepsNowhere(d, s);
    OneMoreSweep(d, s, s, SweepReads(k, i, true));
    var s1 := s.(sweeps := s.sweeps[k := Sweep(i, SawPid)]);
    OneMoreSweep(d, s, s1, SweepProbesOwner(k, false));
    var s2 := Becomes(s1, k, Passed);
    OneMoreSweep(d, s, s2, SweepLists(k, true));
    t := Becomes(s2, k, Scanning(Listing(s.invs[i])));
  }

  /** Sweeps can remove this repetition now. */
  ghost predicate CanBeSwept(d: Setting, s: State, i: nat, r: nat) {
    exists t :: SweepsTo(d, s, t) && i in t.invs && r in t.invs[i].reps && t.invs[i].reps[r].place.Removed?
  }

  /** How long a repetition lasts that had to be kept in place: the sticky flag is the
      owner's, so sweeps can remove it exactly when the owner is gone and no driver in
      its scratch directory lives. */
  lemma KeptInPlaceIsSweptIff(d: Setting, s: State, i: nat, r: nat)
    requires Fits(d) && Reachable(d, s)
    requires i in s.invs && s.invs[i].keep && s.invs[i].ownerFile.Complete? && InScratch(s.invs[i], r)
    ensures CanBeSwept(d, s, i, r) <==>
            s.invs[i].control.Gone? && forall x :: InScratch(s.invs[i], x) ==> s.invs[i].reps[x].driver != Alive
  {
    var run :| IsRun(d, run) && After(d, run) == s;
    RunKeepsTheInvariant(d, run);
    assert OwnerInv(s.invs[i]);
    if CanBeSwept(d, s, i, r) {
      var t :| SweepsTo(d, s, t) && i in t.invs && r in t.invs[i].reps && t.invs[i].reps[r].place.Removed?;
      var states, steps :| IsSweeping(d, states, steps) && states[0] == s && states[|steps|] == t;
      SweptWasOver(d, states, steps, i, r);
    }
    if s.invs[i].control.Gone? && forall x :: InScratch(s.invs[i], x) ==> s.invs[i].reps[x].driver != Alive {
      var t := WholeSweep(d, s, i, r);
    }
  }

  /** The run of a driver that would not exit, kept in place because it could not be
      moved; then the owner is killed and the driver exits. */
  lemma KeptInPlace(d: Setting) returns (s: State)
    ensures Reachable(d, s) && 0 in s.invs && s.invs[0].keep && s.invs[0].control.Gone?
    ensures s.invs[0].ownerFile.Complete? && s.invs[0].reps == map[1 := Repetition(Scratch, Exited)]
  {
    IdleOwner(d);
    OwnerStarts(d, 0, map[]);
    KeptByTheOwner(d);
    var kept := Running(0, Between).(keep := true);
    AloneStep(d, 0, kept, map[], Crash(0), kept.(control := Gone));
    var gone := kept.(control := Gone, reps := map[1 := Repetition(Scratch, Exited)]);
    AloneStep(d, 0, kept.(control := Gone), map[], DriverExits(0, 1), gone);
    s := Alone(0, gone, map[]);
  }

  lemma KeptByTheOwner(d: Setting)
    requires Reachable(d, Alone(0, Running(0, Starting(1)), map[]))
    ensures Reachable(d, Alone(0, Running(0, Between).(keep := true), map[]))
  {
    AloneStep(d, 0, Running(0, Starting(1)), map[], StartOk(0), Running(0, Started(1)));
    var following := Running(0, Following(1)).(live := Some(1));
    AloneStep(d, 0, Running(0, Started(1)), map[], SetLive(0), following);
    AloneStep(d, 0, following, map[], DriverGoneAnswers(0, false), Running(0, Waited(1, false)));
    AloneStep(d, 0, Running(0, Waited(1, false)), map[], KeepUnclean(0), Running(0, Keeping(1)));
    AloneStep(d, 0, Running(0, Keeping(1)), map[], KeepRename(0, false), Running(0, Between).(keep := true));
  }

  /** So a repetition whose result names a place in scratch may be gone later. */
  lemma KeptInPlaceIsSweptLater(d: Setting) returns (s: State, t: State)
    ensures Reachable(d, s) && Reachable(d, t) && SweepsTo(d, s, t)
    ensures 0 in s.invs && s.invs[0].keep && InScratch(s.invs[0], 1)
    ensures 0 in t.invs && 1 in t.invs[0].reps && t.invs[0].reps[1].place.Removed?
  {
    s := KeptInPlace(d);
    t := WholeSweep(d, s, 0, 1);
    var states, steps :| IsSweeping(d, states, steps) && states[0] == s && states[|steps|] == t;
    SweptIsReachable(d, states, steps);
  }

  // ------------------------------------------------------------- whole courses

  /** The owner follows its first run. */
  lemma Follows(d: Setting)
    ensures Reachable(d, Alone(0, Running(0, Following(1)).(live := Some(1)), map[]))
  {
    IdleOwner(d);
    OwnerStarts(d, 0, map[]);
    AloneStep(d, 0, Running(0, Starting(1)), map[], StartOk(0), Running(0, Started(1)));
    AloneStep(d, 0, Running(0, Started(1)), map[], SetLive(0), Running(0, Following(1)).(live := Some(1)));
  }

  /** A repetition whose tree is gone, and whose driver exited. */
  function Done(control: Control): Invocation {
    Running(0, control).(reps := map[1 := Repetition(Removed, Exited)])
  }

  /** The driver exits, the run is stored and its tree removed: the owner goes on. */
  lemma StoredAndGoesOn(d: Setting)
    ensures Reachable(d, Alone(0, Done(Between), map[]))
  {
    Follows(d);
    var following := Running(0, Following(1)).(live := Some(1));
    var exited := following.(reps := map[1 := Repetition(Scratch, Exited)]);
    AloneStep(d, 0, following, map[], DriverExits(0, 1), exited);
    var waited := exited.(live := None, control := Waited(1, true));
    AloneStep(d, 0, exited, map[], DriverGoneAnswers(0, true), waited);
    AloneStep(d, 0, waited, map[], MoveRun(0, true), waited.(control := Storing(1)));
    AloneStep(d, 0, waited.(control := Storing(1)), map[], RemoveStored(0, true), Done(Between));
  }

  /** An invocation that ends without anything to keep leaves no tree and no owner file. */
  lemma CleanEnd(d: Setting)
    ensures Reachable(d, Alone(0, Done(Gone).(ownerFile := Absent), map[]))
  {
    StoredAndGoesOn(d);
    AloneStep(d, 0, Done(Between), map[], EndOrPanic(0), Done(Dropping));
    AloneStep(d, 0, Done(Dropping), map[], DropTakesLive(0), Done(DropDeciding));
    AloneStep(d, 0, Done(DropDeciding), map[], DropDecides(0), Done(DropRemoving));
    AloneStep(d, 0, Done(DropRemoving), map[], DropRemovesOwnerFile(0), Done(DropRemoving).(ownerFile := Absent));
    AloneStep(d, 0, Done(DropRemoving).(ownerFile := Absent), map[], DropDone(0), Done(Gone).(ownerFile := Absent));
  }

  /** A start that fails leaves no tree, and the owner goes on. */
  lemma FailedStartGoesOn(d: Setting)
    ensures Reachable(d, Alone(0, Done(Between).(reps := map[1 := Repetition(Removed, NotStarted)]), map[]))
  {
    IdleOwner(d);
    var starting := Running(0, Starting(1)).(reps := map[1 := Repetition(Scratch, NotStarted)]);
    AloneStep(d, 0, Idle(), map[], Build(0, 1), starting.(control := Built(1)));
    AloneStep(d, 0, starting.(control := Built(1)), map[], BeginStart(0), starting);
    AloneStep(d, 0, starting, map[], StartFails(0),
              Done(Between).(reps := map[1 := Repetition(Removed, NotStarted)]));
  }

  /** So does a build that fails. */
  lemma FailedBuildGoesOn(d: Setting)
    ensures Reachable(d, Alone(0, Done(Between).(reps := map[1 := Repetition(Removed, NotStarted)]), map[]))
  {
    IdleOwner(d);
    var built := Running(0, Built(1)).(reps := map[1 := Repetition(Scratch, NotStarted)]);
    AloneStep(d, 0, Idle(), map[], Build(0, 1), built);
    AloneStep(d, 0, built, map[], BuildFails(0), Done(Between).(reps := map[1 := Repetition(Removed, NotStarted)]));
  }

  /** A panic with a live run: the guard waits for its driver, and keeps the repetition. */
  lemma PanicKeepsTheLiveRun(d: Setting)
    ensures Reachable(d, Alone(0, Running(0, Gone).(reps := map[1 := Repetition(Kept, Alive)]), map[]))
  {
    Follows(d);
    var following := Running(0, Following(1)).(live := Some(1));
    AloneStep(d, 0, following, map[], EndOrPanic(0), following.(control := Dropping));
    AloneStep(d, 0, following.(control := Dropping), map[], DropTakesLive(0), Running(0, DropWaiting(1)));
    AloneStep(d, 0, Running(0, DropWaiting(1)), map[], DropGoneAnswers(0, false), Running(0, DropKeeping(1)));
    var kept := Running(0, DropDeciding).(reps := map[1 := Repetition(Kept, Alive)]);
    AloneStep(d, 0, Running(0, DropKeeping(1)), map[], DropKeepRename(0, true), kept);
    AloneStep(d, 0, kept, map[], DropDecides(0), kept.(control := DropRemoving));
    AloneStep(d, 0, kept.(control := DropRemoving), map[], DropDone(0), kept.(control := Gone));
  }
}
