/**
 Where the run directory of every repetition ends up: the last part of
 `run_repetition` (store, else keep, else stay), `keep_repetition`, the
 scratch guard's drop, and the loop of one invocation over them
 (crates/apb-cli/src/eval.rs). Run ids may collide (`<playbook>-<ms>`).

 The outcomes the code cannot choose are inputs (`MoveIo`, `keepOk`). A rename onto
 an existing directory with files in it fails; one without files counts as none,
 since a rename replaces it. A run that started has a journal, so its directory has
 a file.
 */
module RunRecords {

  type RunId = string
  type RepName = string

  /** A file and the run that wrote it. */
  datatype File = File(run: nat, text: string)
  type RunDir = map<string, File>

  /** The place a result names as `run_dir`. */
  datatype Location = InStore(id: RunId) | InKept(rep: RepName) | InScratch(rep: RepName)

  type Dirs = map<Location, RunDir>

  /** What the system answers: the rename; on another device which files the copy
      reached, whether the original went after a whole copy, and which of its files
      went when it did not; and the look at the destination once the move worked. */
  datatype MoveIo = MoveIo(renameOk: bool, copied: set<string>, removeOk: bool, removed: set<string>, lookOk: bool)

  datatype Planned = Planned(rep: RepName, id: RunId, run: nat, dir: RunDir, clean: bool, io: MoveIo, keepOk: bool)

  /** The run's own files, at least one. */
  ghost predicate IsRecord(dir: RunDir, run: nat) {
    dir != map[] && forall f :: f in dir ==> dir[f].run == run
  }

  ghost predicate Mentions(dir: RunDir, run: nat) {
    exists f :: f in dir && dir[f].run == run
  }

  /** `loc` holds the record of the run, and no other place holds anything of it. */
  ghost predicate OnlyAt(dirs: Dirs, loc: Location, dir: RunDir, run: nat) {
    loc in dirs && dirs[loc] == dir && forall l :: l in dirs && Mentions(dirs[l], run) ==> l == loc
  }

  ghost predicate Unknown(dirs: Dirs, run: nat) {
    forall l :: l in dirs ==> !Mentions(dirs[l], run)
  }

  // ------------------------------------------------------------------ the move

  /** The files the copy reached. */
  function Part(dir: RunDir, copied: set<string>): RunDir {
    map f | f in dir && f in copied :: dir[f]
  }

  function At(dirs: Dirs, loc: Location): RunDir {
    if loc in dirs then dirs[loc] else map[]
  }

  /** `copy_tree`: file by file over what is there. */
  function CopiedOver(dirs: Dirs, at: Location, part: RunDir): Dirs {
    if part == map[] then dirs else dirs[at := At(dirs, at) + part]
  }

  /** `move_run_dir`: a rename; only across devices a copy and a removal. */
  function Moved(sameDevice: bool, dirs: Dirs, rep: RepName, id: RunId, io: MoveIo): (Dirs, bool)
    requires InScratch(rep) in dirs
  {
    var from, to := InScratch(rep), InStore(id);
    var dir := dirs[from];
    if sameDevice then
      if io.renameOk && to !in dirs then ((dirs - {from})[to := dir], io.lookOk) else (dirs, false)
    else
      var after := CopiedOver(dirs, to, Part(dir, io.copied));
      if !(dir.Keys <= io.copied) then (after, false)
      else if io.removeOk then (after - {from}, io.lookOk)
      else (after[from := dir - io.removed], false)
  }

  /** Every text of an earlier stored run is still there. */
  ghost predicate TextsKept(before: Dirs, after: Dirs) {
    forall x, f :: InStore(x) in before && f in before[InStore(x)] ==>
      InStore(x) in after && f in after[InStore(x)] && after[InStore(x)][f].text == before[InStore(x)][f].text
  }

  /** A copied file meets one of the same name with another text. */
  ghost predicate Meets(part: RunDir, there: RunDir) {
    exists f :: f in part && f in there && part[f].text != there[f].text
  }

  /** A move loses a text of an earlier stored run exactly when it copies, across
      devices and under the same run id, a file over one with another text. */
  lemma MoveKeepsTextsUnlessItMeetsOne(sameDevice: bool, dirs: Dirs, rep: RepName, id: RunId, io: MoveIo)
    requires InScratch(rep) in dirs
    ensures TextsKept(dirs, Moved(sameDevice, dirs, rep, id, io).0) <==>
            sameDevice || !Meets(Part(dirs[InScratch(rep)], io.copied), At(dirs, InStore(id)))
  {
    var part, there := Part(dirs[InScratch(rep)], io.copied), At(dirs, InStore(id));
    if !sameDevice && Meets(part, there) {
      var f :| f in part && f in there && part[f].text != there[f].text;
      var after := Moved(sameDevice, dirs, rep, id, io).0;
      assert after[InStore(id)] == there + part;
      assert InStore(id) in dirs && f in dirs[InStore(id)] && after[InStore(id)][f].text != dirs[InStore(id)][f].text;
    }
  }

  /** Two runs of one id on different devices: the journal of the first is gone. */
  lemma CollidingRunIdOverwrites(rep: RepName, id: RunId, first: nat, second: nat, text: string, other: string)
    requires text != other
    ensures var dirs := map[InStore(id) := map["events" := File(first, text)],
                            InScratch(rep) := map["events" := File(second, other)]];
            var (after, ok) := Moved(false, dirs, rep, id, MoveIo(false, {"events"}, true, {}, true));
            ok && after == map[InStore(id) := map["events" := File(second, other)]] && !TextsKept(dirs, after)
  {
    var dirs := map[InStore(id) := map["events" := File(first, text)],
                    InScratch(rep) := map["events" := File(second, other)]];
    var io := MoveIo(false, {"events"}, true, {}, true);
    var part := Part(dirs[InScratch(rep)], io.copied);
    assert part == map["events" := File(second, other)] && "events" in part;
    assert dirs[InStore(id)] + part == part;
    var after := Moved(false, dirs, rep, id, io).0;
    assert after.Keys == {InStore(id)};
    assert InStore(id) in dirs && "events" in dirs[InStore(id)] && after[InStore(id)]["events"].text == other;
  }

  // ------------------------------------------------------- keep and the outcome

  function KeptAt(dirs: Dirs, rep: RepName, renameOk: bool): Location {
    if renameOk && InKept(rep) !in dirs then InKept(rep) else InScratch(rep)
  }

  /** One run directory changed its place, and nothing else did. */
  ghost predicate OnlyMoved(before: Dirs, after: Dirs, from: Location, to: Location) {
    from in before && (to == from || to !in before) && after == (before - {from})[to := before[from]]
  }

  /** A move keeps every other run where it is, and the moved one in one place. */
  lemma MoveKeepsPlaces(before: Dirs, after: Dirs, from: Location, to: Location, loc: Location, dir: RunDir, run: nat)
    requires OnlyMoved(before, after, from, to) && OnlyAt(before, loc, dir, run)
    ensures OnlyAt(after, if loc == from then to else loc, dir, run)
  {
  }

  /** What a move across devices leaves: the run is in the store, or still where it was
      with perhaps a part of it in the store as well. */
  function AfterMove(sameDevice: bool, dirs: Dirs, p: Planned): (Dirs, bool)
    requires InScratch(p.rep) in dirs
  {
    if p.clean then Moved(sameDevice, dirs, p.rep, p.id, p.io) else (dirs, false)
  }

  /** The end of `run_repetition` for a run that started: the directories afterwards,
      and where the result says the run is. */
  function Finished(sameDevice: bool, dirs: Dirs, p: Planned): (Dirs, Location)
    requires InScratch(p.rep) in dirs
  {
    var (moved, stored) := AfterMove(sameDevice, dirs, p);
    if stored then (moved, InStore(p.id))
    else
      var loc := KeptAt(moved, p.rep, p.keepOk);
      (KeptDirs(moved, p.rep, loc), loc)
  }

  /** The repetition's directory goes to `loc`, with the run if it is still in it. */
  function KeptDirs(dirs: Dirs, rep: RepName, loc: Location): Dirs {
    if InScratch(rep) in dirs then (dirs - {InScratch(rep)})[loc := dirs[InScratch(rep)]] else dirs
  }

  /** The repetition renames its run into the store, or copies something of it there. */
  predicate Stores(sameDevice: bool, p: Planned) {
    p.clean && if sameDevice then p.io.renameOk else p.dir.Keys * p.io.copied != {}
  }

  /** All of it gets there and the original goes, and the last look says so. */
  predicate StoresWhole(sameDevice: bool, p: Planned) {
    p.io.lookOk && (sameDevice || (p.dir.Keys <= p.io.copied && p.io.removeOk))
  }

  /** A finished run is in one place, the recorded one, exactly when nothing of it was
      stored, or all of it was and the last look at it worked, over no other file of an
      earlier run under the same id. On one device an occupied place stores nothing. */
  lemma FinishedInOnePlace(sameDevice: bool, dirs: Dirs, p: Planned)
    requires OnlyAt(dirs, InScratch(p.rep), p.dir, p.run) && IsRecord(p.dir, p.run)
    ensures var (after, loc) := Finished(sameDevice, dirs, p);
            OnlyAt(after, loc, p.dir, p.run) <==>
            || !Stores(sameDevice, p)
            || (sameDevice && InStore(p.id) in dirs)
            || (StoresWhole(sameDevice, p) && At(dirs, InStore(p.id)).Keys <= p.dir.Keys)
  {
    if sameDevice {
      RenameIsSeen(dirs, p);
    } else if Stores(false, p) {
      CopyIsSeen(dirs, p);
    } else if p.clean {
      NothingCopied(p);
    }
  }

  /** On one device a rename puts the whole run into a free place. */
  lemma RenameIsSeen(dirs: Dirs, p: Planned)
    requires OnlyAt(dirs, InScratch(p.rep), p.dir, p.run) && IsRecord(p.dir, p.run)
    ensures var (after, loc) := Finished(true, dirs, p);
            if Stores(true, p) && InStore(p.id) !in dirs then
              && InStore(p.id) in after && after[InStore(p.id)] == p.dir && Mentions(p.dir, p.run)
              && (loc == InStore(p.id) <==> p.io.lookOk)
              && (p.io.lookOk ==> OnlyMoved(dirs, after, InScratch(p.rep), loc))
            else OnlyMoved(dirs, after, InScratch(p.rep), loc) && loc == KeptAt(dirs, p.rep, p.keepOk)
  {
    var f :| f in p.dir;
    assert p.dir[f].run == p.run;
  }

  /** A look that fails after the rename: the run is in the store, and the result names
      a place that does not hold it. */
  lemma FailedLookMisnamesTheRun(dirs: Dirs, p: Planned)
    requires OnlyAt(dirs, InScratch(p.rep), p.dir, p.run) && IsRecord(p.dir, p.run)
    requires p.clean && p.io.renameOk && !p.io.lookOk && InStore(p.id) !in dirs
    ensures var (after, loc) := Finished(true, dirs, p);
            OnlyAt(after, InStore(p.id), p.dir, p.run) && loc != InStore(p.id) && loc !in after
  {
    RenameIsSeen(dirs, p);
  }

  lemma NothingCopied(p: Planned)
    requires p.dir.Keys * p.io.copied == {}
    ensures Part(p.dir, p.io.copied) == map[]
  {
    assert forall f :: f in Part(p.dir, p.io.copied) ==> f in p.dir.Keys * p.io.copied;
  }

  /** Across devices a copy leaves its files in the store. */
  lemma CopyIsSeen(dirs: Dirs, p: Planned)
    requires OnlyAt(dirs, InScratch(p.rep), p.dir, p.run) && IsRecord(p.dir, p.run) && Stores(false, p)
    ensures var (after, loc) := Finished(false, dirs, p);
            && InStore(p.id) in after && Mentions(after[InStore(p.id)], p.run)
            && (loc == InStore(p.id) <==> StoresWhole(false, p))
            && after[InStore(p.id)] == At(dirs, InStore(p.id)) + Part(p.dir, p.io.copied)
            && (StoresWhole(false, p) ==> WholeCopy(dirs, after, p))
  {
    var part := Part(p.dir, p.io.copied);
    var f :| f in p.dir.Keys * p.io.copied;
    assert f in part && part[f].run == p.run;
    if StoresWhole(false, p) {
      assert part == p.dir;
      var there := At(dirs, InStore(p.id));
      assert (there + part).Keys == there.Keys + part.Keys;
      assert there.Keys <= p.dir.Keys ==> there + part == p.dir;
    }
  }

  /** What a whole copy leaves. */
  ghost predicate WholeCopy(dirs: Dirs, after: Dirs, p: Planned) {
    && InStore(p.id) in after
    && (forall l :: l in after && l != InStore(p.id) ==> l in dirs && after[l] == dirs[l] && l != InScratch(p.rep))
    && (after[InStore(p.id)] == p.dir <==> At(dirs, InStore(p.id)).Keys <= p.dir.Keys)
    && (InStore(p.id) !in dirs ==> OnlyMoved(dirs, after, InScratch(p.rep), InStore(p.id)))
  }

  /** The repetition moves as a whole to where the result says: into a free place of the
      store, or not into the store at all. */
  predicate MovesWhole(sameDevice: bool, dirs: Dirs, p: Planned) {
    Stores(sameDevice, p) ==>
      if InStore(p.id) in dirs then sameDevice else StoresWhole(sameDevice, p)
  }

  /** Otherwise an earlier run's directory changes, or this run is not just where the
      result says. */
  lemma FinishedWholeOrDisturbed(sameDevice: bool, dirs: Dirs, p: Planned)
    requires OnlyAt(dirs, InScratch(p.rep), p.dir, p.run) && IsRecord(p.dir, p.run)
    ensures var (after, loc) := Finished(sameDevice, dirs, p);
            if MovesWhole(sameDevice, dirs, p) then
              && OnlyMoved(dirs, after, InScratch(p.rep), loc)
              && loc == if Stores(sameDevice, p) && InStore(p.id) !in dirs then InStore(p.id)
                        else KeptAt(dirs, p.rep, p.keepOk)
            else
              || (InStore(p.id) in dirs && InStore(p.id) in after && after[InStore(p.id)] != dirs[InStore(p.id)])
              || !OnlyAt(after, loc, p.dir, p.run)
  {
    if sameDevice {
      RenameIsSeen(dirs, p);
    } else if Stores(false, p) {
      CopyIsSeen(dirs, p);
      if InStore(p.id) in dirs {
        var f :| f in p.dir.Keys * p.io.copied;
        assert f in Part(p.dir, p.io.copied) && !Mentions(dirs[InStore(p.id)], p.run);
      }
    } else if p.clean {
      NothingCopied(p);
    }
  }

  // ------------------------------------------------------------- one invocation

  /** Neither what was there before nor an earlier repetition took the place. */
  predicate FreeFor(sameDevice: bool, plan: seq<Planned>, before: Dirs, j: nat)
    requires j < |plan|
  {
    && InStore(plan[j].id) !in before
    && forall i :: 0 <= i < j && Stores(sameDevice, plan[i]) ==> plan[i].id != plan[j].id
  }

  /** What this repetition stores is whole and seen to be there, in a free place; on one
      device an occupied place does no harm. */
  predicate Unmet(sameDevice: bool, plan: seq<Planned>, before: Dirs, j: nat)
    requires j < |plan|
  {
    Stores(sameDevice, plan[j]) ==>
      if FreeFor(sameDevice, plan, before, j) then StoresWhole(sameDevice, plan[j]) else sameDevice
  }

  /** The directories, the recorded places and the keep flag of an invocation. */
  datatype Home = Home(dirs: Dirs, recorded: seq<Location>, keep: bool)

  /** Every run that started is in the recorded place and in no other. */
  ghost predicate InPlaces(plan: seq<Planned>, h: Home) {
    && |h.recorded| <= |plan|
    && forall i :: 0 <= i < |h.recorded| ==> OnlyAt(h.dirs, h.recorded[i], plan[i].dir, plan[i].run)
  }

  /** What was there before is untouched, and nothing but the recorded runs is new. */
  ghost predicate Untouched(before: Dirs, h: Home) {
    && (forall l :: l in before ==> l in h.dirs && h.dirs[l] == before[l])
    && (forall l :: l in h.dirs ==> l in before || l in h.recorded)
  }

  /** A place in the scratch directory is named only with the keep flag set. */
  ghost predicate Flagged(h: Home) {
    forall i :: 0 <= i < |h.recorded| && h.recorded[i].InScratch? ==> h.keep
  }

  ghost predicate Conserved(plan: seq<Planned>, before: Dirs, h: Home) {
    InPlaces(plan, h) && Untouched(before, h) && Flagged(h)
  }

  /** Distinct repetitions of runs nobody knows yet. */
  ghost predicate IsPlan(plan: seq<Planned>, before: Dirs) {
    && (forall i, j :: 0 <= i < j < |plan| ==> plan[i].rep != plan[j].rep && plan[i].run != plan[j].run)
    && (forall i :: 0 <= i < |plan| ==> IsRecord(plan[i].dir, plan[i].run) && Unknown(before, plan[i].run))
    && (forall l :: l in before ==> !l.InScratch?)
  }

  /** Where the repetitions so far went. */
  ghost predicate Placed(sameDevice: bool, plan: seq<Planned>, recorded: seq<Location>) {
    && |recorded| <= |plan|
    && (forall i :: 0 <= i < |recorded| && recorded[i].InScratch? ==> recorded[i].rep == plan[i].rep)
    && (forall i :: 0 <= i < |recorded| && recorded[i].InStore? ==>
          recorded[i].id == plan[i].id && Stores(sameDevice, plan[i]))
  }

  /** A repetition that stores something finds or makes its place in the store. */
  ghost predicate Taken(sameDevice: bool, plan: seq<Planned>, h: Home) {
    && |h.recorded| <= |plan|
    && forall i :: 0 <= i < |h.recorded| && Stores(sameDevice, plan[i]) ==> InStore(plan[i].id) in h.dirs
  }

  ghost predicate Good(sameDevice: bool, plan: seq<Planned>, before: Dirs, h: Home) {
    Conserved(plan, before, h) && Placed(sameDevice, plan, h.recorded) && Taken(sameDevice, plan, h)
  }

  /** The next repetition, built. */
  function Built(dirs: Dirs, p: Planned): Dirs {
    dirs[InScratch(p.rep) := p.dir]
  }

  /** The next repetition, from its build to its end. */
  function Next(sameDevice: bool, plan: seq<Planned>, h: Home): Home
    requires |h.recorded| < |plan|
  {
    var p := plan[|h.recorded|];
    var (dirs, loc) := Finished(sameDevice, Built(h.dirs, p), p);
    Home(dirs, h.recorded + [loc], h.keep || loc.InScratch?)
  }

  lemma BuiltIsOnlyThere(sameDevice: bool, plan: seq<Planned>, before: Dirs, h: Home)
    requires IsPlan(plan, before) && |h.recorded| < |plan| && Good(sameDevice, plan, before, h)
    ensures var p := plan[|h.recorded|];
            && InScratch(p.rep) !in h.dirs
            && OnlyAt(Built(h.dirs, p), InScratch(p.rep), p.dir, p.run)
            && InPlaces(plan, h.(dirs := Built(h.dirs, p)))
  {
    var n := |h.recorded|;
    var p := plan[n];
    forall l | l in h.dirs ensures !Mentions(h.dirs[l], p.run) && l != InScratch(p.rep) {
      if l !in before {
        var i :| 0 <= i < n && h.recorded[i] == l;
        assert OnlyAt(h.dirs, h.recorded[i], plan[i].dir, plan[i].run);
        assert plan[i].run != p.run && plan[i].rep != p.rep;
      }
    }
    forall i | 0 <= i < n ensures OnlyAt(Built(h.dirs, p), h.recorded[i], plan[i].dir, plan[i].run) {
      assert OnlyAt(h.dirs, h.recorded[i], plan[i].dir, plan[i].run);
      assert plan[i].run != p.run && IsRecord(p.dir, p.run);
    }
  }

  /** The place in the store is free for the next repetition exactly when neither what
      was there before nor an earlier repetition took it. */
  lemma FreePlace(sameDevice: bool, plan: seq<Planned>, before: Dirs, h: Home)
    requires |h.recorded| < |plan| && Good(sameDevice, plan, before, h)
    ensures Unmet(sameDevice, plan, before, |h.recorded|) <==>
            MovesWhole(sameDevice, Built(h.dirs, plan[|h.recorded|]), plan[|h.recorded|])
  {
    var n := |h.recorded|;
    var to := InStore(plan[n].id);
    if to in h.dirs && to !in before {
      var i :| 0 <= i < n && h.recorded[i] == to;
      assert Stores(sameDevice, plan[i]) && plan[i].id == plan[n].id;
    }
    forall i | 0 <= i < n && Stores(sameDevice, plan[i]) && plan[i].id == plan[n].id ensures to in h.dirs {
    }
    assert FreeFor(sameDevice, plan, before, n) <==> to !in h.dirs;
  }

  /** One more repetition keeps the invocation's runs in their places when it moves as
      a whole. */
  lemma OneMoreKept(sameDevice: bool, plan: seq<Planned>, before: Dirs, h: Home, t: Home)
    requires IsPlan(plan, before) && |h.recorded| < |plan| && Good(sameDevice, plan, before, h)
    requires Unmet(sameDevice, plan, before, |h.recorded|)
    requires t == Next(sameDevice, plan, h)
    ensures Good(sameDevice, plan, before, t)
  {
    FreePlace(sameDevice, plan, before, h);
    WholeKeeps(sameDevice, plan, before, h, t);
  }

  /** And only then. */
  lemma OneMoreLost(sameDevice: bool, plan: seq<Planned>, before: Dirs, h: Home, t: Home)
    requires IsPlan(plan, before) && |h.recorded| < |plan| && Good(sameDevice, plan, before, h)
    requires !Unmet(sameDevice, plan, before, |h.recorded|)
    requires t == Next(sameDevice, plan, h)
    ensures !Conserved(plan, before, t)
  {
    FreePlace(sameDevice, plan, before, h);
    DisturbedLoses(sameDevice, plan, before, h, t);
  }

  /** What the place of the repetition means for the record of the invocation. */
  predicate FitsPlan(sameDevice: bool, p: Planned, dirs: Dirs, loc: Location) {
    && (loc.InStore? ==> loc.id == p.id && Stores(sameDevice, p))
    && (loc.InScratch? ==> loc.rep == p.rep)
    && (Stores(sameDevice, p) ==> InStore(p.id) in dirs)
  }

  /** What a repetition that moves as a whole does to the directories. */
  lemma WholeMoves(sameDevice: bool, plan: seq<Planned>, h: Home, t: Home)
    requires |h.recorded| < |plan| && t == Next(sameDevice, plan, h)
    requires var p := plan[|h.recorded|];
             && IsRecord(p.dir, p.run) && OnlyAt(Built(h.dirs, p), InScratch(p.rep), p.dir, p.run)
             && MovesWhole(sameDevice, Built(h.dirs, p), p)
    ensures |t.recorded| == |h.recorded| + 1 && t.recorded[..|h.recorded|] == h.recorded
    ensures var p, loc := plan[|h.recorded|], t.recorded[|h.recorded|];
            && OnlyMoved(Built(h.dirs, p), t.dirs, InScratch(p.rep), loc)
            && FitsPlan(sameDevice, p, t.dirs, loc)
            && t.keep == (h.keep || loc.InScratch?)
  {
    FinishedWholeOrDisturbed(sameDevice, Built(h.dirs, plan[|h.recorded|]), plan[|h.recorded|]);
  }

  lemma PlacedMore(sameDevice: bool, plan: seq<Planned>, recorded: seq<Location>, more: seq<Location>, dirs: Dirs)
    requires Placed(sameDevice, plan, recorded) && |recorded| < |plan|
    requires |more| == |recorded| + 1 && more[..|recorded|] == recorded
    requires FitsPlan(sameDevice, plan[|recorded|], dirs, more[|recorded|])
    ensures Placed(sameDevice, plan, more)
  {
    assert forall i :: 0 <= i < |recorded| ==> more[i] == recorded[i];
  }

  lemma TakenMore(sameDevice: bool, plan: seq<Planned>, h: Home, t: Home, p: Planned)
    requires |h.recorded| < |plan| && p == plan[|h.recorded|] && Taken(sameDevice, plan, h)
    requires |t.recorded| == |h.recorded| + 1
    requires OnlyMoved(Built(h.dirs, p), t.dirs, InScratch(p.rep), t.recorded[|h.recorded|])
    requires FitsPlan(sameDevice, p, t.dirs, t.recorded[|h.recorded|])
    ensures Taken(sameDevice, plan, t)
  {
    forall i | 0 <= i < |h.recorded| && Stores(sameDevice, plan[i]) ensures InStore(plan[i].id) in t.dirs {
      assert InStore(plan[i].id) in h.dirs;
    }
  }

  lemma FlaggedMore(h: Home, t: Home)
    requires Flagged(h) && |t.recorded| == |h.recorded| + 1 && t.recorded[..|h.recorded|] == h.recorded
    requires t.keep == (h.keep || t.recorded[|h.recorded|].InScratch?)
    ensures Flagged(t)
  {
    assert forall i :: 0 <= i < |h.recorded| ==> t.recorded[i] == h.recorded[i];
  }

  lemma WholeKeeps(sameDevice: bool, plan: seq<Planned>, before: Dirs, h: Home, t: Home)
    requires IsPlan(plan, before) && |h.recorded| < |plan| && Good(sameDevice, plan, before, h)
    requires MovesWhole(sameDevice, Built(h.dirs, plan[|h.recorded|]), plan[|h.recorded|])
    requires t == Next(sameDevice, plan, h)
    ensures Good(sameDevice, plan, before, t)
  {
    var p := plan[|h.recorded|];
    BuiltIsOnlyThere(sameDevice, plan, before, h);
    WholeMoves(sameDevice, plan, h, t);
    WholeStays(sameDevice, plan, before, h, t, p);
  }

  lemma WholeStays(sameDevice: bool, plan: seq<Planned>, before: Dirs, h: Home, t: Home, p: Planned)
    requires |h.recorded| < |plan| && Good(sameDevice, plan, before, h) && p == plan[|h.recorded|]
    requires |t.recorded| == |h.recorded| + 1 && t.recorded[..|h.recorded|] == h.recorded
    requires InScratch(p.rep) !in h.dirs && InPlaces(plan, h.(dirs := Built(h.dirs, p)))
    requires OnlyAt(Built(h.dirs, p), InScratch(p.rep), p.dir, p.run)
    requires var loc := t.recorded[|h.recorded|];
             && OnlyMoved(Built(h.dirs, p), t.dirs, InScratch(p.rep), loc)
             && FitsPlan(sameDevice, p, t.dirs, loc)
             && t.keep == (h.keep || loc.InScratch?)
    ensures Good(sameDevice, plan, before, t)
  {
    MovedInPlaces(plan, h, p, t);
    MovedUntouched(before, h, p, t);
    FlaggedMore(h, t);
    PlacedMore(sameDevice, plan, h.recorded, t.recorded, t.dirs);
    TakenMore(sameDevice, plan, h, t, p);
  }

  /** The runs so far stay in their places when the next one moves as a whole. */
  lemma MovedInPlaces(plan: seq<Planned>, h: Home, p: Planned, t: Home)
    requires |h.recorded| < |plan| && p == plan[|h.recorded|] && |t.recorded| == |h.recorded| + 1
    requires t.recorded[..|h.recorded|] == h.recorded
    requires OnlyMoved(Built(h.dirs, p), t.dirs, InScratch(p.rep), t.recorded[|h.recorded|])
    requires InScratch(p.rep) !in h.dirs && InPlaces(plan, h) && InPlaces(plan, h.(dirs := Built(h.dirs, p)))
    requires OnlyAt(Built(h.dirs, p), InScratch(p.rep), p.dir, p.run)
    ensures InPlaces(plan, t)
  {
    var n := |h.recorded|;
    var built, loc := Built(h.dirs, p), t.recorded[n];
    MoveKeepsPlaces(built, t.dirs, InScratch(p.rep), loc, InScratch(p.rep), p.dir, p.run);
    forall i | 0 <= i < n ensures OnlyAt(t.dirs, t.recorded[i], plan[i].dir, plan[i].run) {
      assert t.recorded[i] == t.recorded[..n][i] == h.recorded[i];
      assert OnlyAt(h.dirs, h.recorded[i], plan[i].dir, plan[i].run);
      MoveKeepsPlaces(built, t.dirs, InScratch(p.rep), loc, h.recorded[i], plan[i].dir, plan[i].run);
    }
  }

  lemma MovedUntouched(before: Dirs, h: Home, p: Planned, t: Home)
    requires |t.recorded| == |h.recorded| + 1 && t.recorded[..|h.recorded|] == h.recorded
    requires OnlyMoved(Built(h.dirs, p), t.dirs, InScratch(p.rep), t.recorded[|h.recorded|])
    requires InScratch(p.rep) !in h.dirs && Untouched(before, h)
    ensures Untouched(before, t)
  {
    assert t.recorded == h.recorded + [t.recorded[|h.recorded|]];
  }

  /** A run that is not just where the result says is not conserved. */
  lemma MisplacedLoses(plan: seq<Planned>, before: Dirs, t: Home, n: nat)
    requires n < |t.recorded| <= |plan| && !OnlyAt(t.dirs, t.recorded[n], plan[n].dir, plan[n].run)
    ensures !Conserved(plan, before, t)
  {
  }

  /** Nor is an invocation that changed a directory another run is in. */
  lemma ChangedLoses(plan: seq<Planned>, before: Dirs, h: Home, t: Home, to: Location)
    requires |h.recorded| <= |t.recorded| <= |plan| && t.recorded[..|h.recorded|] == h.recorded
    requires Conserved(plan, before, h) && to in h.dirs && to in t.dirs && t.dirs[to] != h.dirs[to]
    ensures !Conserved(plan, before, t)
  {
    if to !in before {
      var i :| 0 <= i < |h.recorded| && h.recorded[i] == to;
      assert OnlyAt(h.dirs, h.recorded[i], plan[i].dir, plan[i].run) && t.recorded[i] == t.recorded[..|h.recorded|][i];
      MisplacedLoses(plan, before, t, i);
    }
  }

  lemma DisturbedLoses(sameDevice: bool, plan: seq<Planned>, before: Dirs, h: Home, t: Home)
    requires IsPlan(plan, before) && |h.recorded| < |plan| && Good(sameDevice, plan, before, h)
    requires !MovesWhole(sameDevice, Built(h.dirs, plan[|h.recorded|]), plan[|h.recorded|])
    requires t == Next(sameDevice, plan, h)
    ensures !Conserved(plan, before, t)
  {
    var n := |h.recorded|;
    var p := plan[n];
    BuiltIsOnlyThere(sameDevice, plan, before, h);
    FinishedWholeOrDisturbed(sameDevice, Built(h.dirs, p), p);
    assert t.recorded[..n] == h.recorded;
    if OnlyAt(t.dirs, t.recorded[n], p.dir, p.run) {
      ChangedLoses(plan, before, h, t, InStore(p.id));
    } else {
      MisplacedLoses(plan, before, t, n);
    }
  }

  /** The guard's removal of the scratch directory. */
  function Dropped(dirs: Dirs, keep: bool): Dirs {
    if keep then dirs else map l | l in dirs && !l.InScratch? :: dirs[l]
  }

  lemma DropKeepsConserved(plan: seq<Planned>, before: Dirs, h: Home)
    requires IsPlan(plan, before) && Conserved(plan, before, h)
    ensures Conserved(plan, before, h.(dirs := Dropped(h.dirs, h.keep)))
  {
  }

  /** After the first `n` repetitions. */
  function After(sameDevice: bool, plan: seq<Planned>, before: Dirs, n: nat): (h: Home)
    requires n <= |plan|
    ensures |h.recorded| == n
  {
    if n == 0 then Home(before, [], false) else Next(sameDevice, plan, After(sameDevice, plan, before, n - 1))
  }

  lemma GoodAtFirst(sameDevice: bool, plan: seq<Planned>, before: Dirs)
    requires IsPlan(plan, before)
    ensures Good(sameDevice, plan, before, Home(before, [], false))
  {
  }

  lemma AfterOneMore(sameDevice: bool, plan: seq<Planned>, before: Dirs, n: nat) returns (h: Home, t: Home)
    requires 0 < n <= |plan|
    ensures h == After(sameDevice, plan, before, n - 1) && t == After(sameDevice, plan, before, n)
    ensures |h.recorded| == n - 1 && t == Next(sameDevice, plan, h)
  {
    h, t := After(sameDevice, plan, before, n - 1), After(sameDevice, plan, before, n);
  }

  lemma {:induction false} ConservedSoFar(sameDevice: bool, plan: seq<Planned>, before: Dirs, n: nat)
    requires IsPlan(plan, before) && n <= |plan|
    requires forall j :: 0 <= j < n ==> Unmet(sameDevice, plan, before, j)
    ensures Good(sameDevice, plan, before, After(sameDevice, plan, before, n))
  {
    if n == 0 {
      GoodAtFirst(sameDevice, plan, before);
    } else {
      ConservedSoFar(sameDevice, plan, before, n - 1);
      var h, t := AfterOneMore(sameDevice, plan, before, n);
      OneMoreKept(sameDevice, plan, before, h, t);
    }
  }

  ghost predicate ConservedAfter(sameDevice: bool, plan: seq<Planned>, before: Dirs, n: nat) {
    n <= |plan| ==> Conserved(plan, before, After(sameDevice, plan, before, n))
  }

  lemma ConservedUntilMet(sameDevice: bool, plan: seq<Planned>, before: Dirs, j: nat)
    requires IsPlan(plan, before) && j < |plan| && !Unmet(sameDevice, plan, before, j)
    requires forall i :: 0 <= i < j ==> Unmet(sameDevice, plan, before, i)
    ensures !ConservedAfter(sameDevice, plan, before, j + 1)
  {
    ConservedSoFar(sameDevice, plan, before, j);
    OneMoreLost(sameDevice, plan, before, After(sameDevice, plan, before, j), After(sameDevice, plan, before, j + 1));
  }

  lemma ConservedIfUnmet(sameDevice: bool, plan: seq<Planned>, before: Dirs, n: nat)
    requires IsPlan(plan, before) && AllUnmet(sameDevice, plan, before)
    ensures ConservedAfter(sameDevice, plan, before, n)
  {
    if n <= |plan| {
      ConservedSoFar(sameDevice, plan, before, n);
    }
  }

  ghost predicate AllUnmet(sameDevice: bool, plan: seq<Planned>, before: Dirs) {
    forall j :: 0 <= j < |plan| ==> Unmet(sameDevice, plan, before, j)
  }

  /** Conservation, exactly: after every repetition each run is in one place and what
      was stored or kept before is untouched, if and only if everything that is stored
      is whole, seen to be there and, across devices, meets no stored run. */
  lemma ConservedThroughoutIff(sameDevice: bool, plan: seq<Planned>, before: Dirs)
    requires IsPlan(plan, before)
    ensures (forall n: nat :: ConservedAfter(sameDevice, plan, before, n)) <==> AllUnmet(sameDevice, plan, before)
  {
    if AllUnmet(sameDevice, plan, before) {
      forall n: nat ensures ConservedAfter(sameDevice, plan, before, n) {
        ConservedIfUnmet(sameDevice, plan, before, n);
      }
    } else {
      var j := FirstMet(sameDevice, plan, before, |plan|);
      ConservedUntilMet(sameDevice, plan, before, j);
    }
  }

  lemma {:induction false} FirstMet(sameDevice: bool, plan: seq<Planned>, before: Dirs, n: nat) returns (j: nat)
    requires n <= |plan| && exists i :: 0 <= i < n && !Unmet(sameDevice, plan, before, i)
    ensures j < n && !Unmet(sameDevice, plan, before, j)
    ensures forall i :: 0 <= i < j ==> Unmet(sameDevice, plan, before, i)
  {
    if forall i :: 0 <= i < n - 1 ==> Unmet(sameDevice, plan, before, i) {
      j := n - 1;
    } else {
      j := FirstMet(sameDevice, plan, before, n - 1);
    }
  }

  class EvalHome {
    /** `evals/scratch` and `evals/runs` lie on one file system. */
    const sameDevice: bool
    var dirs: Dirs
    var keep: bool

    constructor (sameDevice: bool, dirs: Dirs)
      ensures this.sameDevice == sameDevice && this.dirs == dirs && !keep
    {
      this.sameDevice, this.dirs, keep := sameDevice, dirs, false;
    }

    /** `move_run_dir`. Across devices the copy goes file by file. */
    method MoveRunDir(rep: RepName, id: RunId, io: MoveIo) returns (ok: bool)
      requires InScratch(rep) in dirs
      modifies this`dirs
      ensures (dirs, ok) == Moved(sameDevice, old(dirs), rep, id, io)
    {
      var from, to := InScratch(rep), InStore(id);
      var dir := dirs[from];
      if sameDevice {
        ok := io.renameOk && to !in dirs;
        if ok {
          dirs := (dirs - {from})[to := dir];
          ok := io.lookOk;
        }
        return;
      }
      CopyTree(to, dir, io.copied);
      ok := dir.Keys <= io.copied && io.removeOk;
      if ok {
        dirs := dirs - {from};
        ok := io.lookOk;
      } else if dir.Keys <= io.copied {
        dirs := dirs[from := dir - io.removed];
      }
    }

    /** `copy_tree`, over what is there, of the files it reaches. */
    method CopyTree(to: Location, dir: RunDir, copied: set<string>)
      modifies this`dirs
      ensures dirs == CopiedOver(old(dirs), to, Part(dir, copied))
    {
      var left := dir.Keys * copied;
      ghost var done: set<string> := {};
      assert Part(dir, done) == map[];
      while left != {}
        invariant left !! done && left + done == dir.Keys * copied
        invariant dirs == CopiedOver(old(dirs), to, Part(dir, done))
      {
        var f :| f in left;
        ghost var before := dirs;
        dirs := dirs[to := At(dirs, to)[f := dir[f]]];
        OneMoreFile(old(dirs), to, dir, done, f);
        left, done := left - {f}, done + {f};
      }
      assert Part(dir, done) == Part(dir, copied);
    }

    /** `keep_repetition`: only a rename of the repetition's directory, whatever of the
        run is still in it; a failure sets the sticky flag. */
    method KeepRepetition(rep: RepName, renameOk: bool) returns (loc: Location)
      modifies this
      ensures loc == KeptAt(old(dirs), rep, renameOk)
      ensures dirs == KeptDirs(old(dirs), rep, loc)
      ensures InScratch(rep) in old(dirs) ==> OnlyMoved(old(dirs), dirs, InScratch(rep), loc)
      ensures keep == (old(keep) || loc == InScratch(rep))
    {
      if renameOk && InKept(rep) !in dirs {
        loc := InKept(rep);
        if InScratch(rep) in dirs {
          dirs := (dirs - {InScratch(rep)})[loc := dirs[InScratch(rep)]];
        }
      } else {
        keep := true;
        loc := InScratch(rep);
        assert InScratch(rep) in dirs ==> (dirs - {InScratch(rep)})[loc := dirs[InScratch(rep)]] == dirs;
      }
    }

    /** The end of `run_repetition` for a run that started: stored when the driver is
        gone and the move works, else kept, else left in place with the flag set. */
    method FinishRepetition(p: Planned) returns (loc: Location)
      requires InScratch(p.rep) in dirs
      modifies this
      ensures (dirs, loc) == Finished(sameDevice, old(dirs), p)
      ensures keep == (old(keep) || loc.InScratch?)
    {
      var stored := false;
      if p.clean {
        stored := MoveRunDir(p.rep, p.id, p.io);
      }
      if stored {
        loc := InStore(p.id);
      } else {
        loc := KeepRepetition(p.rep, p.keepOk);
      }
    }

    /** The guard's drop when no run is in flight. */
    method DropGuard()
      modifies this`dirs
      ensures dirs == Dropped(old(dirs), keep)
    {
      if !keep {
        dirs := map l | l in dirs && !l.InScratch? :: dirs[l];
      }
    }

    /** The guard's drop after a panic with the run of `rep` in flight. The run
        is stopped, never stored: its record survives exactly when the driver
        would not exit, or when an earlier repetition already set the flag. */
    method DropGuardWithLiveRun(rep: RepName, run: nat, gone: bool, keepOk: bool)
      requires InScratch(rep) in dirs && OnlyAt(dirs, InScratch(rep), dirs[InScratch(rep)], run)
      requires IsRecord(dirs[InScratch(rep)], run)
      modifies this
      ensures (exists loc :: OnlyAt(dirs, loc, old(dirs)[InScratch(rep)], run)) <==> !gone || old(keep)
      ensures forall l :: l in old(dirs) && !l.InScratch? ==> l in dirs && dirs[l] == old(dirs)[l]
      ensures keep == (old(keep) || (!gone && !(keepOk && InKept(rep) !in old(dirs))))
    {
      ghost var dir := dirs[InScratch(rep)];
      ghost var before := dirs;
      var loc := InScratch(rep);
      if !gone {
        loc := KeepRepetition(rep, keepOk);
        MoveKeepsPlaces(before, dirs, InScratch(rep), loc, InScratch(rep), dir, run);
      }
      assert OnlyAt(dirs, loc, dir, run);
      DropGuard();
      assert keep || loc.InKept? ==> OnlyAt(dirs, loc, dir, run);
      assert Mentions(dir, run);
    }

    /** One invocation, from its first repetition to the guard's drop. Where everything
        that is stored is whole and seen to be there, and meets no stored run, every run
        ends in exactly one place, the recorded one. */
    method RunInvocation(plan: seq<Planned>) returns (recorded: seq<Location>)
      requires !keep && IsPlan(plan, dirs)
      modifies this
      ensures var h := After(sameDevice, plan, old(dirs), |plan|);
              recorded == h.recorded && keep == h.keep && dirs == Dropped(h.dirs, h.keep)
      ensures AllUnmet(sameDevice, plan, old(dirs)) ==> Conserved(plan, old(dirs), Home(dirs, recorded, keep))
    {
      recorded := [];
      ghost var before := dirs;
      for n := 0 to |plan|
        invariant After(sameDevice, plan, before, n) == Home(dirs, recorded, keep)
      {
        dirs := Built(dirs, plan[n]);
        var loc := FinishRepetition(plan[n]);
        recorded := recorded + [loc];
      }
      if AllUnmet(sameDevice, plan, before) {
        ConservedSoFar(sameDevice, plan, before, |plan|);
        DropKeepsConserved(plan, before, Home(dirs, recorded, keep));
      }
      DropGuard();
    }
  }

  lemma OneMoreFile(before: Dirs, to: Location, dir: RunDir, done: set<string>, f: string)
    requires f in dir
    ensures var dirs := CopiedOver(before, to, Part(dir, done));
            dirs[to := At(dirs, to)[f := dir[f]]] == CopiedOver(before, to, Part(dir, done + {f}))
  {
    assert Part(dir, done + {f}) == Part(dir, done)[f := dir[f]];
    assert f in Part(dir, done + {f});
    assert (At(before, to) + Part(dir, done))[f := dir[f]] == At(before, to) + Part(dir, done)[f := dir[f]];
    assert At(before, to)[f := dir[f]] == At(before, to) + map[f := dir[f]];
  }
}
