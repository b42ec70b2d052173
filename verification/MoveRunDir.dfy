/**
 `move_run_dir_with` and its `nofollow` module (crates/apb-cli/src/eval.rs) on
 a file system of inodes, with an adversary (the agent, which has the
 operator's file system) that may rewrite the whole file system between any
 two system calls. The repetition's directory, which holds the tree, and the directory
 of all evals are fixed inodes, and so are the store's directories below that one once
 they were seen: these paths belong to apb. Out of the model: the copy fallback across
 devices.
 */
module MoveRunDir {
  import opened Options

  type Ino = nat
  type Name = string
  datatype Node = Dir(entries: map<Name, Ino>) | Link(target: string) | File(content: string)
  type Nodes = map<Ino, Node>

  datatype Stat = Missing | IsLink | IsDir | IsFile | StatError
  datatype Outcome = Moved | Refused | CrossDevice

  predicate HasDir(nodes: Nodes, d: Ino) {
    d in nodes && nodes[d].Dir?
  }

  /** `name` in directory `d` is a real directory, not a link to one. */
  predicate DirEntry(nodes: Nodes, d: Ino, name: Name, child: Ino) {
    HasDir(nodes, d) && name in nodes[d].entries && nodes[d].entries[name] == child && HasDir(nodes, child)
  }

  /** What a path below `d` reaches with no link on the way; `None` also for a
      path that would have to follow one. */
  function Walk(nodes: Nodes, d: Ino, path: seq<Name>): Option<Ino>
    decreases |path|
  {
    if path == [] then Some(d)
    else if HasDir(nodes, d) && path[0] in nodes[d].entries
    then Walk(nodes, nodes[d].entries[path[0]], path[1..])
    else None
  }

  function StatOf(nodes: Nodes, i: Ino): Stat {
    if i !in nodes then Missing
    else match nodes[i] case Dir(_) => IsDir case Link(_) => IsLink case File(_) => IsFile
  }

  predicate CanRename(nodes: Nodes, d: Ino, name: Name, store: Ino) {
    HasDir(nodes, d) && HasDir(nodes, store) && name in nodes[d].entries
  }

  /** Entry `name` of `d` becomes entry `to` of `store`. */
  function Renamed(nodes: Nodes, d: Ino, name: Name, store: Ino, to: Name): Nodes
    requires CanRename(nodes, d, name, store)
  {
    var without := nodes[d := Dir(nodes[d].entries - {name})];
    without[store := Dir(without[store].entries[to := nodes[d].entries[name]])]
  }

  /** `b` is `a` or below it, at most `n` entries down. */
  predicate ReachesWithin(nodes: Nodes, a: Ino, b: Ino, n: nat)
    decreases n
  {
    || a == b
    || (n > 0 && HasDir(nodes, a) &&
        exists name :: name in nodes[a].entries && ReachesWithin(nodes, nodes[a].entries[name], b, n - 1))
  }

  /** A new empty directory `i` as entry `name` of `d`. */
  function Made(nodes: Nodes, d: Ino, name: Name, i: Ino): Nodes
    requires HasDir(nodes, d)
  {
    nodes[d := Dir(nodes[d].entries[name := i])][i := Dir(map[])]
  }

  /** How the opened directories were reached: one real directory entry after
      the other, each as the file system was when it was fds. */
  ghost predicate Chain(tree: Ino, names: seq<Name>, fds: seq<Ino>, seen: seq<Nodes>) {
    && |fds| == |names| + 1 && |seen| == |names|
    && fds[0] == tree
    && forall k :: 0 <= k < |names| ==> DirEntry(seen[k], fds[k], names[k], fds[k + 1])
  }

  /** apb's own change of the file system. */
  datatype Effect = Effect(before: Nodes, after: Nodes)

  predicate IsRename(e: Effect, d: Ino, name: Name, store: Ino, to: Name) {
    CanRename(e.before, d, name, store) && e.after == Renamed(e.before, d, name, store, to)
  }

  predicate IsMkdir(e: Effect, d: Ino, name: Name, i: Ino) {
    HasDir(e.before, d) && name !in e.before[d].entries && i !in e.before && e.after == Made(e.before, d, name, i)
  }

  /** Everything made is a directory on the way down from the first of `trail`. */
  ghost predicate MadeOnTrail(made: seq<Effect>, trail: seq<Ino>, subs: seq<Name>) {
    && 1 <= |trail| <= |subs| + 1
    && forall m :: 0 <= m < |made| ==> MadeSomewhere(made[m], trail, subs)
  }

  ghost predicate MadeSomewhere(e: Effect, trail: seq<Ino>, subs: seq<Name>)
    requires |trail| <= |subs| + 1
  {
    exists k :: 0 <= k < |trail| - 1 && IsMkdir(e, trail[k], subs[k], trail[k + 1])
  }

  lemma MoreOnTrail(made: seq<Effect>, more: seq<Effect>, trail: seq<Ino>, subs: seq<Name>, child: Ino)
    requires MadeOnTrail(made, trail, subs) && |trail| <= |subs| && |more| <= 1
    requires more != [] ==> IsMkdir(more[0], trail[|trail| - 1], subs[|trail| - 1], child)
    ensures MadeOnTrail(made + more, trail + [child], subs)
  {
    var longer := trail + [child];
    forall m | 0 <= m < |made + more| ensures MadeSomewhere((made + more)[m], longer, subs) {
      if m < |made| {
        assert MadeSomewhere(made[m], trail, subs);
        var k :| 0 <= k < |trail| - 1 && IsMkdir(made[m], trail[k], subs[k], trail[k + 1]);
        assert IsMkdir(made[m], longer[k], subs[k], longer[k + 1]);
      } else {
        var k := |trail| - 1;
        assert IsMkdir(more[0], longer[k], subs[k], longer[k + 1]);
      }
    }
  }

  class Kernel {
    var nodes: Nodes
    /** With no adversary and no failing device. */
    const quiet: bool
    ghost var effects: seq<Effect>

    constructor (nodes: Nodes, quiet: bool)
      ensures this.nodes == nodes && this.quiet == quiet && effects == []
    {
      this.nodes, this.quiet := nodes, quiet;
      effects := [];
    }

    /** Anything may happen here that is not apb's own doing. */
    method Interfere()
      modifies this`nodes
      ensures quiet ==> nodes == old(nodes)
    {
      if !quiet {
        nodes := *;
      }
    }

    /** `lstat` of a path below `d`; through a link it reaches anything. */
    method Lstat(d: Ino, path: seq<Name>) returns (s: Stat)
      requires path != []
      modifies this`nodes
      ensures quiet ==> nodes == old(nodes)
      ensures Walk(nodes, d, path).Some? ==> s == StatOf(nodes, Walk(nodes, d, path).value)
      ensures Walk(nodes, d, path).None? && Walk(nodes, d, path[..|path| - 1]).Some? ==>
                match StatOf(nodes, Walk(nodes, d, path[..|path| - 1]).value)
                case IsDir => s.Missing?
                case IsFile => s.StatError?
                case _ => true
    {
      Interfere();
      match Walk(nodes, d, path) {
        case Some(i) => s := StatOf(nodes, i);
        case None =>
          s := *;
          match Walk(nodes, d, path[..|path| - 1]) {
            case Some(i) =>
              if StatOf(nodes, i).IsDir? {
                s := Missing;
              } else if StatOf(nodes, i).IsFile? {
                s := StatError;
              }
            case None =>
          }
      }
    }

    /** `openat(O_DIRECTORY | O_NOFOLLOW)`: only a real directory opens. */
    method OpenAt(d: Ino, name: Name) returns (fds: Option<Ino>, ghost seen: Nodes)
      modifies this`nodes
      ensures seen == nodes && (quiet ==> nodes == old(nodes))
      ensures fds.Some? ==> DirEntry(seen, d, name, fds.value)
      ensures quiet ==> forall c: Ino :: DirEntry(nodes, d, name, c) ==> fds == Some(c)
    {
      Interfere();
      seen := nodes;
      var fails := *;
      if HasDir(nodes, d) && name in nodes[d].entries && HasDir(nodes, nodes[d].entries[name]) && (quiet || !fails) {
        fds := Some(nodes[d].entries[name]);
      } else {
        fds := None;
      }
    }

    /** One directory of `create_dir_all`: there already, or made. */
    method MakeDir(d: Ino, name: Name) returns (child: Option<Ino>, ghost made: seq<Effect>)
      modifies this`nodes, this`effects
      ensures effects == old(effects) + made && |made| <= 1
      ensures made != [] ==> child.Some? && IsMkdir(made[0], d, name, child.value)
      ensures child.Some? ==> DirEntry(nodes, d, name, child.value)
      ensures quiet && made == [] ==> nodes == old(nodes)
      ensures quiet ==> forall c: Ino :: DirEntry(old(nodes), d, name, c) ==> child == Some(c) && made == []
    {
      Interfere();
      made := [];
      if !HasDir(nodes, d) {
        return None, made;
      }
      if name in nodes[d].entries {
        var there := nodes[d].entries[name];
        return if HasDir(nodes, there) then Some(there) else None, made;
      }
      var i: Ino := *;
      if i in nodes {
        return None, made;
      }
      made := [Effect(nodes, Made(nodes, d, name, i))];
      nodes := Made(nodes, d, name, i);
      effects := effects + made;
      child := Some(i);
    }

    /** `create_dir_all` of the directories `subs` below `home`: `trail` are the ones on
        the way down, and everything made is one of them. */
    method MakeStore(home: Ino, subs: seq<Name>)
      returns (store: Option<Ino>, ghost trail: seq<Ino>, ghost made: seq<Effect>)
      modifies this`nodes, this`effects
      ensures effects == old(effects) + made && |made| <= |subs|
      ensures MadeOnTrail(made, trail, subs) && trail != [] && trail[0] == home
      ensures store.Some? ==> |trail| == |subs| + 1 && store.value == trail[|subs|]
      ensures quiet && made == [] ==> nodes == old(nodes)
      ensures quiet && PlainRun(old(nodes), home, subs) ==> store == Walk(old(nodes), home, subs) && made == []
    {
      store, trail, made := Some(home), [home], [];
      for k := 0 to |subs|
        invariant effects == old(effects) + made && |made| <= k
        invariant |trail| == k + 1 && trail[0] == home && store == Some(trail[k])
        invariant MadeOnTrail(made, trail, subs)
        invariant quiet && made == [] ==> nodes == old(nodes)
        invariant quiet && PlainRun(old(nodes), home, subs) ==> made == [] && store == Walk(old(nodes), home, subs[..k])
      {
        ghost var more;
        ghost var before := nodes;
        var at := store.value;
        if quiet && PlainRun(old(nodes), home, subs) {
          NextIsPlain(old(nodes), home, subs, k);
        }
        store, more := MakeDir(at, subs[k]);
        if store.None? {
          return;
        }
        MoreOnTrail(made, more, trail, subs, store.value);
        trail, made := trail + [store.value], made + more;
      }
      assert subs[..|subs|] == subs;
    }

    /** Whether the entry `to` of `store` may be replaced by `moved`; a directory never
        moves to itself or below. */
    static predicate Replaceable(nodes: Nodes, store: Ino, to: Name, moved: Ino) {
      && HasDir(nodes, store)
      && (HasDir(nodes, moved) ==> !ReachesWithin(nodes, moved, store, |nodes|))
      && (to in nodes[store].entries ==>
            var there := nodes[store].entries[to];
            if HasDir(nodes, moved) then HasDir(nodes, there) && nodes[there].entries == map[]
            else !HasDir(nodes, there))
    }

    /** `renameat`: the entry itself moves, never what a link names. */
    method RenameAt(d: Ino, name: Name, store: Ino, to: Name) returns (r: Outcome)
      modifies this`nodes, this`effects
      ensures r.Moved? ==> |effects| == |old(effects)| + 1 && old(effects) <= effects
      ensures r.Moved? ==> IsRename(effects[|old(effects)|], d, name, store, to)
      ensures !r.Moved? ==> effects == old(effects)
      ensures quiet ==> (r.Moved? <==> CanRename(old(nodes), d, name, store)
                                       && Replaceable(old(nodes), store, to, old(nodes)[d].entries[name]))
      ensures quiet && r.Moved? ==> nodes == Renamed(old(nodes), d, name, store, to)
    {
      Interfere();
      var fails, otherDevice := *, *;
      if !CanRename(nodes, d, name, store) {
        return Refused;
      }
      if !Replaceable(nodes, store, to, nodes[d].entries[name]) || (!quiet && fails) {
        return Refused;
      }
      if !quiet && otherDevice {
        return CrossDevice;
      }
      ghost var before := nodes;
      nodes := Renamed(nodes, d, name, store, to);
      effects := effects + [Effect(before, nodes)];
      return Moved;
    }

    /** `fsutil::ensure_no_symlink_below`, the first `trusted` names being the anchor.
        With nothing interfering it lets exactly the paths through that meet no link
        below the anchor, and no file before their end. */
    method EnsureNoSymlinkBelow(d: Ino, path: seq<Name>, trusted: nat) returns (ok: bool)
      requires trusted <= |path|
      modifies this`nodes
      ensures quiet ==> nodes == old(nodes)
      ensures quiet && DirAt(nodes, d, path[..trusted]) ==> (ok <==> PathOk(nodes, d, path, trusted))
    {
      for k := trusted to |path|
        invariant quiet ==> nodes == old(nodes)
        invariant quiet && DirAt(nodes, d, path[..trusted]) ==> PassedTo(nodes, d, path, trusted, k)
      {
        assert path[..k + 1][..k] == path[..k];
        var s := Lstat(d, path[..k + 1]);
        WalkFurther(nodes, d, path, k);
        if s.IsLink? {
          assert quiet && DirAt(nodes, d, path[..trusted]) ==> !ComponentOk(nodes, d, path, k + 1);
          return false;
        }
        if s.Missing? {
          NothingFurther(nodes, d, path, k + 1);
          return true;
        }
        if s.StatError? {
          assert quiet && DirAt(nodes, d, path[..trusted]) ==> !ComponentOk(nodes, d, path, k);
          return false;
        }
      }
      return true;
    }

    /** `nofollow::open_parent`: every directory down to the parent of the last
        name, none of them through a link. */
    method OpenParent(tree: Ino, names: seq<Name>)
      returns (parent: Option<Ino>, ghost fds: seq<Ino>, ghost seen: seq<Nodes>)
      modifies this`nodes
      ensures quiet ==> nodes == old(nodes)
      ensures parent.Some? ==> Chain(tree, names, fds, seen) && parent.value == fds[|names|]
      ensures quiet && parent.Some? ==> Walk(nodes, tree, names) == parent
      ensures quiet && HasDir(nodes, tree) && PlainRun(nodes, tree, names) ==> parent.Some?
    {
      parent, fds, seen := Some(tree), [tree], [];
      for k := 0 to |names|
        invariant |fds| == k + 1 && parent == Some(fds[k])
        invariant Chain(tree, names[..k], fds, seen)
        invariant quiet ==> nodes == old(nodes) && Walk(nodes, tree, names[..k]) == parent
      {
        ghost var state;
        var at := parent.value;
        WalkFurther(nodes, tree, names, k);
        parent, state := OpenAt(at, names[k]);
        if parent.None? {
          return;
        }
        assert quiet ==> Walk(nodes, tree, names[..k + 1]) == parent by { WalkFurther(nodes, tree, names, k); }
        fds, seen := fds + [parent.value], seen + [state];
      }
      assert names[..|names|] == names;
    }

    /** The two checks before anything is opened. */
    method LooksPlain(rep: Ino, names: seq<Name>, name: Name) returns (ok: bool)
      requires names != []
      modifies this`nodes
      ensures quiet ==> nodes == old(nodes)
      ensures quiet && HasDir(nodes, rep) && PlainRun(nodes, rep, names + [name]) ==> ok
      ensures quiet && DirAt(nodes, rep, names[..1]) && !PathOk(nodes, rep, names + [name], 1) ==> !ok
      ensures quiet && DirAt(nodes, rep, names) && Walk(nodes, rep, names + [name]).None? ==> !ok
    {
      var path := names + [name];
      assert path[..1] == names[..1] && path[..|path|] == path;
      ok := EnsureNoSymlinkBelow(rep, path, 1);
      if ok {
        var s := Lstat(rep, path);
        ok := !s.IsLink? && !s.Missing? && !s.StatError?;
      }
    }

    /** The whole move. `names` lead from the repetition's directory to the run
        directory `name`, the tree's own name first. Whatever the adversary does between
        the calls, apb makes at most the directories of the store (`subs`, below `home`)
        and then one rename, of one entry of the directory reached through real directories only;
        `Moved` says that the destination was a real directory afterwards. With nothing
        in the way a plain run directory does move, and a link below the tree refuses
        it before anything is changed. */
    method Move(rep: Ino, names: seq<Name>, name: Name, home: Ino, subs: seq<Name>, to: Name)
      returns (r: Outcome, store: Option<Ino>, ghost fds: seq<Ino>, ghost seen: seq<Nodes>,
               ghost trail: seq<Ino>, ghost made: seq<Effect>, ghost renamed: seq<Effect>)
      requires names != []
      modifies this`nodes, this`effects
      ensures effects == old(effects) + made + renamed && |made| <= |subs| && |renamed| <= 1
      ensures made != [] ==> trail != [] && trail[0] == home && MadeOnTrail(made, trail, subs)
      ensures renamed != [] ==>
                && store.Some? && Chain(rep, names, fds, seen)
                && IsRename(renamed[0], fds[|names|], name, store.value, to)
      ensures r.Moved? ==> renamed != [] && exists stored :: DirEntry(nodes, store.value, to, stored)
      ensures quiet && Movable(old(nodes), rep, names + [name], home, subs, to) ==> r.Moved?
      ensures quiet && DirAt(old(nodes), rep, names[..1]) && !PathOk(old(nodes), rep, names + [name], 1) ==>
                r.Refused? && made == [] && renamed == [] && nodes == old(nodes)
      ensures quiet && DirAt(old(nodes), rep, names) && Walk(old(nodes), rep, names + [name]).None? ==>
                r.Refused? && made == [] && renamed == [] && nodes == old(nodes)
    {
      store, fds, seen, trail, made, renamed := None, [], [], [], [], [];
      var path := names + [name];
      r := Refused;
      var plain := LooksPlain(rep, names, name);
      if !plain {
        return;
      }
      ghost var movable := quiet && Movable(nodes, rep, path, home, subs, to);
      if movable {
        MovableCanMove(nodes, rep, names, name, home, subs, to);
      }
      store, trail, made := MakeStore(home, subs);
      if store.None? {
        return;
      }
      var parent;
      parent, fds, seen := OpenParent(rep, names);
      if parent.None? {
        return;
      }
      Interfere();
      if movable {
        RenamedIsThere(nodes, parent.value, name, store.value, to);
      }
      r := RenameAt(parent.value, name, store.value, to);
      if !r.Moved? {
        return;
      }
      renamed := [effects[|old(effects)| + |made|]];
      Interfere();
      if DirIn(nodes, store.value, to) {
        assert DirEntry(nodes, store.value, to, nodes[store.value].entries[to]);
      } else {
        r := Refused;
      }
    }
  }

  predicate DirIn(nodes: Nodes, d: Ino, name: Name) {
    HasDir(nodes, d) && name in nodes[d].entries && HasDir(nodes, nodes[d].entries[name])
  }

  /** The path leads to a real directory, through real directories. */
  predicate DirAt(nodes: Nodes, d: Ino, path: seq<Name>) {
    Walk(nodes, d, path).Some? && HasDir(nodes, Walk(nodes, d, path).value)
  }

  /** The check has come to component `k` without refusing. */
  ghost predicate PassedTo(nodes: Nodes, d: Ino, path: seq<Name>, trusted: nat, k: nat)
    requires trusted <= k <= |path|
  {
    && Walk(nodes, d, path[..k]).Some?
    && StatOf(nodes, Walk(nodes, d, path[..k]).value) in {IsDir, IsFile}
    && (forall j :: trusted < j < k ==> ComponentOk(nodes, d, path, j))
    && (k > trusted && StatOf(nodes, Walk(nodes, d, path[..k]).value).IsDir? ==> ComponentOk(nodes, d, path, k))
    && (k == trusted ==> StatOf(nodes, Walk(nodes, d, path[..k]).value).IsDir?)
  }

  /** Every component of the path, the run directory included, is a real directory. */
  ghost predicate PlainRun(nodes: Nodes, tree: Ino, path: seq<Name>) {
    forall k :: 0 < k <= |path| ==>
      Walk(nodes, tree, path[..k]).Some? && HasDir(nodes, Walk(nodes, tree, path[..k]).value)
  }

  /** What is at one component, if the walk gets there: no link, and a file only at
      the end. */
  predicate ComponentOk(nodes: Nodes, tree: Ino, path: seq<Name>, k: nat)
    requires k <= |path|
  {
    Walk(nodes, tree, path[..k]).Some? ==>
      var s := StatOf(nodes, Walk(nodes, tree, path[..k]).value);
      !s.IsLink? && (s.IsFile? ==> k == |path|)
  }

  /** No component past the trusted ones is a link, and none before the last a file. */
  ghost predicate PathOk(nodes: Nodes, d: Ino, path: seq<Name>, trusted: nat) {
    forall k :: trusted < k <= |path| ==> ComponentOk(nodes, d, path, k)
  }

  /** Nothing is reached past a component that is not there. */
  lemma NothingFurther(nodes: Nodes, tree: Ino, path: seq<Name>, k: nat)
    requires k <= |path|
    requires Walk(nodes, tree, path[..k]).None? || Walk(nodes, tree, path[..k]).value !in nodes
    ensures forall j :: k < j <= |path| ==> Walk(nodes, tree, path[..j]).None?
    ensures forall j :: k <= j <= |path| ==> ComponentOk(nodes, tree, path, j)
    decreases |path| - k
  {
    if k < |path| {
      WalkFurther(nodes, tree, path, k);
      NothingFurther(nodes, tree, path, k + 1);
    }
  }

  /** One more component of a walk. */
  lemma {:induction false} WalkFurther(nodes: Nodes, d: Ino, path: seq<Name>, k: nat)
    requires k < |path|
    ensures Walk(nodes, d, path[..k + 1]) ==
            match Walk(nodes, d, path[..k])
            case None => None
            case Some(i) =>
              if HasDir(nodes, i) && path[k] in nodes[i].entries then Some(nodes[i].entries[path[k]]) else None
    decreases k
  {
    if k > 0 && HasDir(nodes, d) && path[0] in nodes[d].entries {
      WalkFurther(nodes, nodes[d].entries[path[0]], path[1..], k - 1);
      assert path[..k][1..] == path[1..][..k - 1];
      assert path[..k + 1][1..] == path[1..][..k];
    } else if k == 0 {
      assert path[..1][1..] == [];
    }
  }

  /** On a plain path every component is a real entry of the one before. */
  lemma NextIsPlain(nodes: Nodes, d: Ino, path: seq<Name>, k: nat)
    requires k < |path| && PlainRun(nodes, d, path)
    ensures Walk(nodes, d, path[..k]).Some? && Walk(nodes, d, path[..k + 1]).Some?
    ensures DirEntry(nodes, Walk(nodes, d, path[..k]).value, path[k], Walk(nodes, d, path[..k + 1]).value)
  {
    WalkFurther(nodes, d, path, k);
  }

  /** A run directory behind real directories only, and a free place for it that is not
      below it. */
  ghost predicate Movable(nodes: Nodes, rep: Ino, path: seq<Name>, home: Ino, subs: seq<Name>, to: Name)
    requires path != []
  {
    && HasDir(nodes, rep) && PlainRun(nodes, rep, path) && DirAt(nodes, rep, path)
    && HasDir(nodes, home) && PlainRun(nodes, home, subs) && DirAt(nodes, home, subs)
    && var store := Walk(nodes, home, subs).value;
    to !in nodes[store].entries && !ReachesWithin(nodes, Walk(nodes, rep, path).value, store, |nodes|)
  }

  /** Such a directory can be renamed from where it is. */
  lemma MovableCanMove(nodes: Nodes, rep: Ino, names: seq<Name>, name: Name, home: Ino, subs: seq<Name>, to: Name)
    requires Movable(nodes, rep, names + [name], home, subs, to)
    ensures PlainRun(nodes, rep, names) && HasDir(nodes, rep) && Walk(nodes, rep, names).Some?
    ensures var d, store := Walk(nodes, rep, names).value, Walk(nodes, home, subs).value;
            && CanRename(nodes, d, name, store) && Kernel.Replaceable(nodes, store, to, nodes[d].entries[name])
            && d in nodes && HasDir(nodes, nodes[d].entries[name])
            && (d != store || name != to)
  {
    PlainRunOpens(nodes, rep, names, name);
  }

  /** The rename puts the directory there. */
  lemma RenamedIsThere(nodes: Nodes, d: Ino, name: Name, store: Ino, to: Name)
    requires CanRename(nodes, d, name, store) && HasDir(nodes, nodes[d].entries[name])
    ensures DirIn(Renamed(nodes, d, name, store, to), store, to)
  {
  }

  lemma PlainRunOpens(nodes: Nodes, tree: Ino, names: seq<Name>, name: Name)
    requires PlainRun(nodes, tree, names + [name]) && HasDir(nodes, tree)
    ensures PlainRun(nodes, tree, names)
    ensures var d := Walk(nodes, tree, names);
            && d.Some? && DirIn(nodes, d.value, name)
            && Walk(nodes, tree, names + [name]) == Some(nodes[d.value].entries[name])
  {
    var path := names + [name];
    forall k | 0 < k <= |names|
      ensures Walk(nodes, tree, names[..k]).Some? && HasDir(nodes, Walk(nodes, tree, names[..k]).value)
    {
      assert path[..k] == names[..k];
    }
    assert path[..|names|] == names && path[..|path|] == path && names[..|names|] == names;
    WalkFurther(nodes, tree, path, |names|);
  }

  /** No step of the walk goes through the renamed entry or its new place. */
  predicate Avoids(nodes: Nodes, at: Ino, path: seq<Name>, d: Ino, name: Name, store: Ino, to: Name)
    decreases |path|
  {
    path != [] ==>
      && (at, path[0]) != (d, name) && (at, path[0]) != (store, to)
      && (HasDir(nodes, at) && path[0] in nodes[at].entries ==>
            Avoids(nodes, nodes[at].entries[path[0]], path[1..], d, name, store, to))
  }

  /** What the one rename leaves alone: every path, from any directory, that does
      not pass the renamed entry or its new place reaches what it reached, and
      what it reaches is unchanged unless it is the opened parent or the store.
      So a directory a planted link pointed to is neither moved nor changed. */
  lemma {:induction false} OutsideIsUntouched(
    e: Effect, d: Ino, name: Name, store: Ino, to: Name, at: Ino, path: seq<Name>)
    requires IsRename(e, d, name, store, to)
    requires Avoids(e.before, at, path, d, name, store, to)
    ensures Walk(e.after, at, path) == Walk(e.before, at, path)
    ensures var x := Walk(e.before, at, path);
            x.Some? && x.value in e.before && x.value != d && x.value != store ==>
              x.value in e.after && e.after[x.value] == e.before[x.value]
    decreases |path|
  {
    if path != [] && HasDir(e.before, at) && path[0] in e.before[at].entries {
      OutsideIsUntouched(e, d, name, store, to, e.before[at].entries[path[0]], path[1..]);
    }
  }
}
