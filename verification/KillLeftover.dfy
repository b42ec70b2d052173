/**
 What a finished repetition may kill: the names of the repetition directories,
 the environment test `is_run_env` and the two passes of `kill_leftover_group`
 (crates/apb-cli/src/eval.rs). The process table is read anew in each pass and
 is an arbitrary input.
 */
module KillLeftover {
  import opened Numerals
  import opened Options

  // ---------------------------------------------------------- scratch names

  /** The directory of repetition `n` of a case, inside the scratch directory. */
  function ScratchName(id: string, n: nat): string {
    id + "-" + Decimal(n)
  }

  const RESERVED_NAMES: set<string> := {"evals", "no-hooks", "owner.pid", "overrides.yaml"}

  /** The name ends in digits after its last dash, so it gives both parts back. */
  lemma NameTellsBoth(id: string, n: nat, id2: string, n2: nat)
    requires ScratchName(id, n) == ScratchName(id2, n2)
    ensures id == id2 && n == n2
  {
    var a, b := Decimal(n), Decimal(n2);
    var name := ScratchName(id, n);
    assert name[|id|] == '-' && name[|id2|] == '-';
    assert forall i :: |id| < i < |name| ==> name[i] == a[i - |id| - 1];
    assert forall i :: |id2| < i < |name| ==> name[i] == b[i - |id2| - 1];
    assert |id| == |id2|;
    assert id == name[..|id|] == id2;
    assert a == name[|id| + 1..] == b;
    DecimalRoundTrip(n);
    DecimalRoundTrip(n2);
  }

  lemma NameIsNotReserved(id: string, n: nat)
    ensures ScratchName(id, n) !in RESERVED_NAMES
  {
    var name := ScratchName(id, n);
    var digits := Decimal(n);
    assert name[|name| - 1] == digits[|digits| - 1];
    assert "evals"[4] == 's' && "no-hooks"[7] == 's' && "owner.pid"[8] == 'd' && "overrides.yaml"[13] == 'l';
  }

  // ---------------------------------------------------------- environments

  type Bytes = seq<bv8>
  type Path = seq<string>

  predicate Inside(p: Path, dir: Path) {
    dir <= p
  }

  /** The first index of a NUL at or after `i`, or the end. */
  function NulFrom(env: Bytes, i: nat): (j: nat)
    requires i <= |env|
    ensures i <= j <= |env| && (j < |env| ==> env[j] == 0)
    ensures forall k :: i <= k < j ==> env[k] != 0
    decreases |env| - i
  {
    if i == |env| || env[i] == 0 then i else NulFrom(env, i + 1)
  }

  const EQUALS: bv8 := 0x3D

  /** The value of the first NUL-separated entry that is `name=...`. */
  function Value(env: Bytes, name: Bytes): Option<Bytes>
    decreases |env|
  {
    var j := NulFrom(env, 0);
    var entry := env[..j];
    if name + [EQUALS] <= entry then Some(entry[|name| + 1..])
    else if j == |env| then None
    else Value(env[j + 1..], name)
  }

  datatype Var = Var(name: Bytes, value: Bytes)

  predicate WellFormed(v: Var) {
    EQUALS !in v.name && 0 !in v.name && 0 !in v.value
  }

  /** The block the kernel shows: every entry ends in a NUL. */
  function Block(vars: seq<Var>): Bytes {
    if vars == [] then [] else vars[0].name + [EQUALS] + vars[0].value + [0] + Block(vars[1..])
  }

  function Lookup(vars: seq<Var>, name: Bytes): Option<Bytes> {
    if vars == [] then None
    else if vars[0].name == name then Some(vars[0].value)
    else Lookup(vars[1..], name)
  }

  /** An entry is read as `name=` exactly for its own name. */
  lemma EntryIsOfItsName(v: Var, name: Bytes)
    requires WellFormed(v) && EQUALS !in name
    ensures name + [EQUALS] <= v.name + [EQUALS] + v.value <==> v.name == name
  {
    var entry := v.name + [EQUALS] + v.value;
    if name + [EQUALS] <= entry {
      assert entry[|name|] == (name + [EQUALS])[|name|] == EQUALS;
      assert entry[|v.name|] == EQUALS;
      assert forall i :: 0 <= i < |name| ==> entry[i] == (name + [EQUALS])[i] == name[i];
      assert |name| == |v.name|;
      assert name == entry[..|name|] == v.name;
    }
  }

  /** Reading a variable from the block is looking it up in the environment. */
  lemma {:induction false} ValueIsLookup(vars: seq<Var>, name: Bytes)
    requires forall i :: 0 <= i < |vars| ==> WellFormed(vars[i])
    requires EQUALS !in name
    ensures Value(Block(vars), name) == Lookup(vars, name)
  {
    var env := Block(vars);
    if vars == [] {
      assert NulFrom(env, 0) == 0;
    } else {
      var entry := vars[0].name + [EQUALS] + vars[0].value;
      assert env == entry + [0] + Block(vars[1..]);
      assert NulFrom(env, 0) == |entry| by {
        assert env[|entry|] == 0;
        assert forall k :: 0 <= k < |entry| ==> env[k] == entry[k] != 0;
      }
      assert env[..|entry|] == entry && env[|entry| + 1..] == Block(vars[1..]);
      EntryIsOfItsName(vars[0], name);
      assert entry[|vars[0].name| + 1..] == vars[0].value;
      ValueIsLookup(vars[1..], name);
    }
  }

  // ------------------------------------------------------------- processes

  datatype Proc = Proc(pid: nat, pgrp: Option<nat>, env: Option<Bytes>, cwd: Option<Path>)

  /** The file system as far as paths go: how bytes read as a path, and the
      canonical form of a path that exists. */
  datatype Paths = Paths(parse: Bytes -> Path, canonical: Path -> Option<Path>)

  /** A repetition directory, its canonical form while it exists, and the run in it. */
  datatype Rep = Rep(dir: Path, canon: Option<Path>, runId: Bytes)

  /** A text of ASCII characters as bytes. */
  function Ascii(s: string): (b: Bytes)
    requires forall i :: 0 <= i < |s| ==> s[i] < 128 as char
    ensures |b| == |s| && forall i :: 0 <= i < |b| ==> b[i] == s[i] as bv8
  {
    seq(|s|, i requires 0 <= i < |s| => s[i] as bv8)
  }

  const RUN_ID: Bytes := Ascii("APB_RUN_ID")
  const RUN_DIR: Bytes := Ascii("APB_RUN_DIR")

  /** Whether a run directory lies in a repetition, as written or once resolved. */
  predicate DirIsIn(paths: Paths, dir: Path, rep: Rep) {
    || Inside(dir, rep.dir)
    || (rep.canon.Some? &&
        (Inside(dir, rep.canon.value) ||
         (paths.canonical(dir).Some? && Inside(paths.canonical(dir).value, rep.canon.value))))
  }

  predicate IsRunEnv(paths: Paths, env: Bytes, rep: Rep) {
    && rep.runId != []
    && Value(env, RUN_ID) == Some(rep.runId)
    && var dir := Value(env, RUN_DIR);
    dir.Some? && DirIsIn(paths, paths.parse(dir.value), rep)
  }

  predicate Marked(paths: Paths, p: Proc, rep: Rep) {
    p.env.Some? && IsRunEnv(paths, p.env.value, rep)
  }

  predicate CwdInside(p: Proc, rep: Rep) {
    rep.canon.Some? && p.cwd.Some? && Inside(p.cwd.value, rep.canon.value)
  }

  /** What one repetition signals directly. */
  predicate Target(paths: Paths, p: Proc, rep: Rep, driverGroup: Option<nat>) {
    Marked(paths, p, rep) || (driverGroup.Some? && p.pgrp == driverGroup && CwdInside(p, rep))
  }

  predicate Leads(paths: Paths, p: Proc, rep: Rep, ownGroup: Option<nat>) {
    Marked(paths, p, rep) && Some(p.pid) == p.pgrp && p.pgrp != ownGroup
  }

  // ---------------------------------------------- another repetition's processes

  /** Neither path is inside the other. */
  predicate Apart(a: Path, b: Path) {
    !(a <= b) && !(b <= a)
  }

  lemma SharedMeansNested(p: Path, a: Path, b: Path)
    requires Inside(p, a) && Inside(p, b)
    ensures !Apart(a, b)
  {
    assert a == p[..|a|] && b == p[..|b|];
  }

  /** Two repetitions at different names below one scratch directory, `resolved`
      being its canonical form: every way of writing the one is apart from every way of
      writing the other. */
  lemma RepsAreApart(scratch: Path, resolved: Path, name: string, name2: string)
    requires name != name2
    requires scratch == resolved || Apart(scratch, resolved)
    ensures Apart(scratch + [name], scratch + [name2]) && Apart(resolved + [name], resolved + [name2])
    ensures Apart(scratch + [name], resolved + [name2]) && Apart(resolved + [name], scratch + [name2])
  {
    assert (scratch + [name])[|scratch|] == name && (scratch + [name2])[|scratch|] == name2;
    assert (resolved + [name])[|resolved|] == name && (resolved + [name2])[|resolved|] == name2;
    if scratch != resolved {
      BelowApartIsApart(scratch, resolved, name, name2);
      BelowApartIsApart(resolved, scratch, name, name2);
    }
  }

  lemma BelowApartIsApart(a: Path, b: Path, name: string, name2: string)
    requires Apart(a, b)
    ensures Apart(a + [name], b + [name2])
  {
    var below, below2 := a + [name], b + [name2];
    assert a <= below && b <= below2;
    if below <= below2 {
      SharedMeansNested(below2, a, b);
    }
    if below2 <= below {
      SharedMeansNested(below, a, b);
    }
  }

  /** A repetition as `run_repetition` lays it out in an invocation's scratch directory. */
  function RepAt(scratch: Path, resolved: Path, id: string, n: nat, runId: Bytes): Rep {
    Rep(scratch + [ScratchName(id, n)], Some(resolved + [ScratchName(id, n)]), runId)
  }

  /** The process's run directory and working directory, where it has them, lie in `rep`. */
  ghost predicate Belongs(paths: Paths, p: Proc, rep: Rep)
    requires rep.canon.Some?
  {
    && (p.env.Some? && Value(p.env.value, RUN_DIR).Some? ==>
          var dir := paths.parse(Value(p.env.value, RUN_DIR).value);
          && (Inside(dir, rep.dir) || Inside(dir, rep.canon.value))
          && (paths.canonical(dir).Some? ==> Inside(paths.canonical(dir).value, rep.canon.value)))
    && (p.cwd.Some? ==> Inside(p.cwd.value, rep.canon.value))
  }

  /** Every way of writing the one directory is apart from every way of writing the other. */
  ghost predicate RepsApart(rep: Rep, other: Rep) {
    && other.canon.Some?
    && Apart(rep.dir, other.dir) && Apart(rep.dir, other.canon.value)
    && (rep.canon.Some? ==> Apart(rep.canon.value, other.dir) && Apart(rep.canon.value, other.canon.value))
  }

  /** A process of one repetition is never a target of another one: not in the same
      driver group, not under the same run id. */
  lemma OtherRepetitionsAreSpared(paths: Paths, p: Proc, rep: Rep, other: Rep, driverGroup: Option<nat>)
    requires RepsApart(rep, other) && Belongs(paths, p, other)
    ensures !Target(paths, p, rep, driverGroup) && !Marked(paths, p, rep)
  {
    forall q: Path | Inside(q, other.dir) || Inside(q, other.canon.value)
      ensures !Inside(q, rep.dir) && (rep.canon.Some? ==> !Inside(q, rep.canon.value))
    {
      var home := if Inside(q, other.dir) then other.dir else other.canon.value;
      if Inside(q, rep.dir) {
        SharedMeansNested(q, rep.dir, home);
      }
      if rep.canon.Some? && Inside(q, rep.canon.value) {
        SharedMeansNested(q, rep.canon.value, home);
      }
    }
  }

  /** Two repetitions of one invocation are apart, whatever their run ids. */
  lemma RepetitionsOfOneInvocationAreApart(scratch: Path, resolved: Path, id: string, n: nat, id2: string, n2: nat,
                                           runId: Bytes, runId2: Bytes)
    requires scratch == resolved || Apart(scratch, resolved)
    requires (id, n) != (id2, n2)
    ensures RepsApart(RepAt(scratch, resolved, id, n, runId), RepAt(scratch, resolved, id2, n2, runId2))
  {
    if ScratchName(id, n) == ScratchName(id2, n2) {
      NameTellsBoth(id, n, id2, n2);
    }
    RepsAreApart(scratch, resolved, ScratchName(id, n), ScratchName(id2, n2));
  }

  /** So are repetitions of two invocations, even of the same case and number. */
  lemma RepetitionsOfTwoInvocationsAreApart(scratch: Path, resolved: Path, scratch2: Path, resolved2: Path,
                                            id: string, n: nat, id2: string, n2: nat, runId: Bytes, runId2: Bytes)
    requires Apart(scratch, scratch2) && Apart(scratch, resolved2)
    requires Apart(resolved, scratch2) && Apart(resolved, resolved2)
    ensures RepsApart(RepAt(scratch, resolved, id, n, runId), RepAt(scratch2, resolved2, id2, n2, runId2))
  {
    var name, name2 := ScratchName(id, n), ScratchName(id2, n2);
    BelowApartIsApart(scratch, scratch2, name, name2);
    BelowApartIsApart(scratch, resolved2, name, name2);
    BelowApartIsApart(resolved, scratch2, name, name2);
    BelowApartIsApart(resolved, resolved2, name, name2);
  }

  // ---------------------------------------------------------------- the passes

  const PID_MAX: nat := 0x7FFF_FFFF

  datatype Signal = ToProcess(pid: nat) | ToGroup(pgid: nat)

  /** This process: its id, the group it is in. */
  datatype Self = Self(pid: nat, group: Option<nat>)

  predicate MayKill(self: Self, pid: nat) {
    1 < pid <= PID_MAX && pid != self.pid
  }

  /** The direct signals the first `n` entries of a process table lead to. */
  ghost function DirectSignals(paths: Paths, procs: seq<Proc>, n: nat, rep: Rep, driverGroup: Option<nat>, self: Self)
    : set<Signal>
    requires n <= |procs|
  {
    set i | 0 <= i < n && Target(paths, procs[i], rep, driverGroup) && MayKill(self, procs[i].pid) ::
      ToProcess(procs[i].pid)
  }

  /** The groups they name. */
  ghost function Groups(paths: Paths, procs: seq<Proc>, n: nat, rep: Rep, self: Self): set<nat>
    requires n <= |procs|
  {
    set i | 0 <= i < n && Leads(paths, procs[i], rep, self.group) :: procs[i].pid
  }

  function GroupSignals(groups: set<nat>): set<Signal> {
    set g | g in groups && 1 < g <= PID_MAX :: ToGroup(g)
  }

  /** Exactly the signals one reading of the process table leads to. */
  ghost function SignalsOf(paths: Paths, procs: seq<Proc>, rep: Rep, driverGroup: Option<nat>, self: Self)
    : set<Signal>
  {
    var n := |procs|;
    DirectSignals(paths, procs, n, rep, driverGroup, self) + GroupSignals(Groups(paths, procs, n, rep, self))
  }

  /** One pass over the process table. */
  method Pass(paths: Paths, procs: seq<Proc>, rep: Rep, driverGroup: Option<nat>, self: Self)
    returns (sent: set<Signal>)
    ensures sent == SignalsOf(paths, procs, rep, driverGroup, self)
  {
    sent := {};
    var groups: set<nat> := {};
    for i := 0 to |procs|
      invariant sent == DirectSignals(paths, procs, i, rep, driverGroup, self)
      invariant groups == Groups(paths, procs, i, rep, self)
    {
      var p := procs[i];
      if Target(paths, p, rep, driverGroup) && MayKill(self, p.pid) {
        sent := sent + {ToProcess(p.pid)};
      }
      if Leads(paths, p, rep, self.group) {
        groups := groups + {p.pid};
      }
    }
    sent := sent + GroupSignals(groups);
  }

  /** Both passes; the driver's own id is its group's. */
  method KillLeftoverGroup(paths: Paths, tables: (seq<Proc>, seq<Proc>), rep: Rep, driverPid: Option<nat>, self: Self)
    returns (sent: set<Signal>)
    ensures var driverGroup := if driverPid.Some? && driverPid.value > 1 then driverPid else None;
            sent == SignalsOf(paths, tables.0, rep, driverGroup, self) +
                    SignalsOf(paths, tables.1, rep, driverGroup, self)
  {
    var driverGroup := if driverPid.Some? && driverPid.value > 1 then driverPid else None;
    var first := Pass(paths, tables.0, rep, driverGroup, self);
    var second := Pass(paths, tables.1, rep, driverGroup, self);
    sent := first + second;
  }

  /** The signals are harmless to the rest: never process 0 or 1, never this process
      or its group, and a group only when a marked process leads it. */
  lemma SignalsAreContained(paths: Paths, procs: seq<Proc>, rep: Rep, driverGroup: Option<nat>, self: Self, s: Signal)
    requires s in SignalsOf(paths, procs, rep, driverGroup, self)
    ensures s.ToProcess? ==> 1 < s.pid <= PID_MAX && s.pid != self.pid
    ensures s.ToGroup? ==> 1 < s.pgid <= PID_MAX && Some(s.pgid) != self.group
    ensures s.ToGroup? ==> exists p :: p in procs && p.pid == s.pgid && p.pgrp == Some(s.pgid) && Marked(paths, p, rep)
  {
  }

  /** The variables put a process into run `rep.runId` of the repetition: its id, and a run
      directory at or below the repetition's, as written or resolved. */
  ghost predicate OfTheRun(paths: Paths, vars: seq<Var>, rep: Rep) {
    && rep.runId != [] && Lookup(vars, Ascii("APB_RUN_ID")) == Some(rep.runId)
    && exists value :: Lookup(vars, Ascii("APB_RUN_DIR")) == Some(value) && LiesIn(paths, paths.parse(value), rep)
  }

  ghost predicate LiesIn(paths: Paths, dir: Path, rep: Rep) {
    || rep.dir <= dir
    || (rep.canon.Some? && rep.canon.value <= dir)
    || (rep.canon.Some? && exists full :: paths.canonical(dir) == Some(full) && rep.canon.value <= full)
  }

  /** A member of the driver's group that works inside the repetition. */
  ghost predicate WorksForTheDriver(p: Proc, rep: Rep, driverGroup: Option<nat>) {
    && driverGroup.Some? && p.pgrp == driverGroup
    && exists cwd, home :: p.cwd == Some(cwd) && rep.canon == Some(home) && home <= cwd
  }

  /** A process table with the environments that could be read, as lists of variables. */
  ghost predicate TableOf(procs: seq<Proc>, envs: seq<Option<seq<Var>>>) {
    && |envs| == |procs|
    && forall i :: 0 <= i < |procs| ==> EnvOf(procs[i], envs[i])
  }

  ghost predicate EnvOf(p: Proc, env: Option<seq<Var>>) {
    && (p.env.Some? <==> env.Some?)
    && (env.Some? ==> p.env.value == Block(env.value) && forall k :: 0 <= k < |env.value| ==> WellFormed(env.value[k]))
  }

  lemma NamesHoldNoEquals()
    ensures EQUALS !in RUN_ID && EQUALS !in RUN_DIR
  {
  }

  lemma MarkedIsOfTheRun(paths: Paths, p: Proc, env: Option<seq<Var>>, rep: Rep)
    requires EnvOf(p, env)
    ensures Marked(paths, p, rep) <==> env.Some? && OfTheRun(paths, env.value, rep)
  {
    if env.Some? {
      NamesHoldNoEquals();
      ValueIsLookup(env.value, RUN_ID);
      ValueIsLookup(env.value, RUN_DIR);
    }
  }

  /** Exactly who gets a signal: every process of the run, and every member of the driver's
      group that works inside the repetition, if the signal may be sent at all; and every
      group that a process of the run leads, other than this process's own. */
  lemma ExactlyTheseGetASignal(paths: Paths, procs: seq<Proc>, envs: seq<Option<seq<Var>>>, rep: Rep,
                               driverGroup: Option<nat>, self: Self, id: nat)
    requires TableOf(procs, envs)
    ensures var sent := SignalsOf(paths, procs, rep, driverGroup, self);
            ToProcess(id) in sent <==>
            && 1 < id <= PID_MAX && id != self.pid
            && exists i :: && 0 <= i < |procs| && procs[i].pid == id
                           && ((envs[i].Some? && OfTheRun(paths, envs[i].value, rep))
                               || WorksForTheDriver(procs[i], rep, driverGroup))
    ensures var sent := SignalsOf(paths, procs, rep, driverGroup, self);
            ToGroup(id) in sent <==>
            && 1 < id <= PID_MAX && Some(id) != self.group
            && exists i :: && 0 <= i < |procs| && procs[i].pid == id && procs[i].pgrp == Some(id)
                           && envs[i].Some? && OfTheRun(paths, envs[i].value, rep)
  {
    forall i | 0 <= i < |procs|
      ensures Marked(paths, procs[i], rep) <==> envs[i].Some? && OfTheRun(paths, envs[i].value, rep)
    {
      assert EnvOf(procs[i], envs[i]);
      MarkedIsOfTheRun(paths, procs[i], envs[i], rep);
    }
  }

  /** No signal goes directly to a process all of whose table entries belong to
      another repetition, nor to a group it leads. */
  lemma OtherRepetitionsGetNoSignal(paths: Paths, procs: seq<Proc>, rep: Rep, other: Rep,
                                    driverGroup: Option<nat>, self: Self, pid: nat)
    requires RepsApart(rep, other)
    requires forall i :: 0 <= i < |procs| && procs[i].pid == pid ==> Belongs(paths, procs[i], other)
    ensures var sent := SignalsOf(paths, procs, rep, driverGroup, self);
            ToProcess(pid) !in sent && ToGroup(pid) !in sent
  {
    forall i | 0 <= i < |procs| && procs[i].pid == pid
      ensures !Target(paths, procs[i], rep, driverGroup) && !Leads(paths, procs[i], rep, self.group)
    {
      OtherRepetitionsAreSpared(paths, procs[i], rep, other, driverGroup);
    }
  }
}
