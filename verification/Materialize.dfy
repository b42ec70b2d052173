/**
 `materialize` and `copy_definitions` (crates/apb-cli/src/eval.rs) with the
 no-follow copier they use (crates/apb-core/src/fsutil.rs): a scratch tree is
 built from a fixture, the project's own definitions and a change overlay.

 Git and tar are inputs: the unpacked archive, and what git leaves in `.git` at
 three points; git changes nothing else in the tree. A directory lists all of its
 entries or does not read; those apb makes in the tree read. The project's
 `.apb/playbooks/<id>`, `.apb/profiles`, `.apb/skills`
 and `.apb/config.yaml` are taken not to be links themselves.
 */
module Materialize {
  import opened Options
  import opened Trees
  import LayerCheck
  import GitSearch
  import IgnoreFile
  import TextLines

  const APB: Path := [".apb"]
  const GIT: Path := [".git"]
  const IGNORE: Path := [".apb", ".gitignore"]
  const EVALS := "evals"
  const CONFIG: Path := [".apb", "config.yaml"]

  /** What git leaves in `.git`: after the init, after the fixture's commit with the
      settings that go with it, and after the change's commit. */
  datatype Git = Git(init: Tree, committed: Tree, changed: Tree, ok: GitOk)

  /** Which commands work: the archive with tar, the init, all of the first commit and
      its settings, all of the change's commit. */
  datatype GitOk = GitOk(archive: bool, init: bool, committed: bool, changed: bool)

  /** What `init_project` works with: the default config, and the entries of the ignore
      file (`behind` is what reads there through what is no file of the tree). The ignore
      file is best effort: `read` and `written` say which of the two works. */
  datatype InitTexts = InitTexts(config: string, entries: seq<string>, behind: string, read: bool, written: bool)

  function EntryAt(t: Tree, p: Path): Option<Entry> {
    if p in t then Some(t[p]) else None
  }

  /** What apb itself puts into the tree. */
  predicate IsOwn(p: Path) {
    AtOrBelow(APB, p) || AtOrBelow(GIT, p)
  }

  /** A layer over what is below it. */
  function Over(layer: Option<Tree>, below: Option<Entry>, p: Path): Option<Entry> {
    if layer.Some? && p in layer.value then Some(layer.value[p]) else below
  }

  /** The change over everything that is not apb's own. */
  function ChangedAt(before: Tree, change: Tree, p: Path): Option<Entry> {
    if IsOwn(p) then EntryAt(before, p) else Over(Some(change), EntryAt(before, p), p)
  }

  /** The fixture over the unpacked archive. */
  function LayeredAt(archive: Option<Tree>, fixture: Option<Tree>, p: Path): Option<Entry> {
    Over(fixture, Over(archive, None, p), p)
  }

  // ----------------------------------------------------------------- copying

  /** The source path that lands at `p` when `from` is copied to `to`. */
  function Origin(from: Path, to: Path, p: Path): Path
    requires AtOrBelow(to, p)
  {
    from + p[|to|..]
  }

  /** `p` gets what the source has, when `sel` is what is copied. */
  predicate Comes(sel: set<Path>, from: Path, to: Path, p: Path) {
    AtOrBelow(to, p) && Origin(from, to, p) in sel
  }

  /** `after` is `before` with the selected source entries put below `to`. */
  ghost predicate IsPut(before: Tree, after: Tree, src: Tree, from: Path, to: Path, sel: set<Path>) {
    && sel <= src.Keys
    && forall p :: EntryAt(after, p) ==
         if Comes(sel, from, to, p) then Some(src[Origin(from, to, p)]) else EntryAt(before, p)
  }

  function Sub(src: Tree, from: Path): set<Path> {
    set q | q in src && AtOrBelow(from, q)
  }

  /** Where a source path lands. */
  function Dest(from: Path, to: Path, q: Path): Path
    requires AtOrBelow(from, q)
  {
    to + q[|from|..]
  }

  /** The copier takes `e` at `q` to `d`: no entry changes its kind, a link never goes
      over anything, and a directory reads. */
  predicate MayCopy(there: Option<Entry>, e: Entry, readable: bool) {
    match e
    case Dir => (there.Some? ==> there.value.Dir?) && readable
    case Link(_) => there.None?
    case File(_) => there.Some? ==> there.value.File?
    case Other => false
  }

  ghost predicate Copyable(t: Tree, src: Tree, unreadable: set<Path>, from: Path, to: Path, sel: set<Path>) {
    forall q :: q in sel && q in src && AtOrBelow(from, q) ==>
      MayCopy(EntryAt(t, Dest(from, to, q)), src[q], q !in unreadable)
  }

  /** Two copies of disjoint or equal parts add up. */
  lemma PutsAddUp(t0: Tree, t1: Tree, t2: Tree, src: Tree, from: Path, to: Path, s1: set<Path>, s2: set<Path>)
    requires IsPut(t0, t1, src, from, to, s1) && IsPut(t1, t2, src, from, to, s2)
    ensures IsPut(t0, t2, src, from, to, s1 + s2)
  {
    forall p
      ensures EntryAt(t2, p) == if Comes(s1 + s2, from, to, p) then Some(src[Origin(from, to, p)]) else EntryAt(t0, p)
    {
      assert EntryAt(t1, p) == if Comes(s1, from, to, p) then Some(src[Origin(from, to, p)]) else EntryAt(t0, p);
    }
  }

  /** A copy of a subdirectory, seen from the directory above. */
  lemma PutFromAbove(t0: Tree, t1: Tree, src: Tree, from: Path, to: Path, n: Name, sel: set<Path>)
    requires IsPut(t0, t1, src, from + [n], to + [n], sel)
    requires forall q :: q in sel ==> AtOrBelow(from + [n], q)
    ensures IsPut(t0, t1, src, from, to, sel)
  {
    forall p
      ensures Comes(sel, from, to, p) <==> Comes(sel, from + [n], to + [n], p)
      ensures Comes(sel, from, to, p) ==> Origin(from, to, p) == Origin(from + [n], to + [n], p)
    {
      if AtOrBelow(to, p) && |p| > |to| {
        assert p[|to|..] == [p[|to|]] + p[|to| + 1..];
        assert AtOrBelow(to + [n], p) <==> p[|to|] == n;
        assert Origin(from, to, p)[|from|] == p[|to|];
        assert Origin(from, to, p)[..|from| + 1] == from + [p[|to|]];
        if p[|to|] == n {
          assert from + [n] + p[|to| + 1..] == from + p[|to|..];
        }
      } else if p == to {
        assert Origin(from, to, p) == from;
      }
    }
  }

  /** What `read_dir` of `from` has given so far: `from` itself and the named parts. */
  function Done(src: Tree, from: Path, names: set<Name>): set<Path> {
    set q | q in src && AtOrBelow(from, q) && (q == from || q[|from|] in names)
  }

  lemma DoneGrows(src: Tree, from: Path, names: set<Name>, n: Name)
    ensures Done(src, from, names + {n}) == Done(src, from, names) + Sub(src, from + [n])
  {
    forall q | q in src
      ensures AtOrBelow(from + [n], q) <==> AtOrBelow(from, q) && q != from && q[|from|] == n
    {
      if |q| > |from| {
        assert q[..|from| + 1] == q[..|from|] + [q[|from|]];
        assert (from + [n])[..|from|] == from;
      }
      if AtOrBelow(from + [n], q) {
        assert q[..|from| + 1][..|from|] == q[..|from|];
      }
    }
  }

  lemma FirstNameIsListed(src: Tree, from: Path, q: Path)
    requires WellFormed(src) && q in src && AtOrBelow(from, q) && q != from
    ensures |q| > |from| && q[|from|] in Names(src, from)
  {
    assert q[..|q|] == q;
    var child := q[..|from| + 1];
    assert child == from + [q[|from|]];
    if |q| > |from| + 1 {
      AncestorsAreDirs(src, q, |from| + 1);
    } else {
      assert child == q;
    }
    NamesAreChildren(src, from, q[|from|]);
  }

  lemma DoneIsAll(src: Tree, from: Path)
    requires WellFormed(src)
    ensures Done(src, from, Names(src, from)) == Sub(src, from)
  {
    forall q | q in Sub(src, from) && q != from ensures q in Done(src, from, Names(src, from)) {
      FirstNameIsListed(src, from, q);
    }
  }

  /** Nothing lies below what is not a directory. */
  lemma LeafIsAlone(src: Tree, c: Path)
    requires WellFormed(src) && c in src && !src[c].Dir?
    ensures Sub(src, c) == {c}
  {
    forall q | q in Sub(src, c) ensures q == c {
      if |q| > |c| {
        AncestorsAreDirs(src, q, |c|);
      }
    }
  }

  lemma SubIsSmaller(src: Tree, from: Path, n: Name)
    requires from in src
    ensures |Sub(src, from + [n])| < |Sub(src, from)|
  {
    DoneGrows(src, from, {}, n);
    assert Sub(src, from + [n]) <= Sub(src, from) - {from} by {
      forall q | q in Sub(src, from + [n]) ensures q in Sub(src, from) && q != from {
        assert q in Done(src, from, {n}) by { assert {} + {n} == {n}; }
      }
    }
    LayerCheck.SubsetIsSmaller(Sub(src, from + [n]), Sub(src, from) - {from});
  }

  /** A single entry written into a directory. */
  lemma WrittenIsPut(t: Tree, src: Tree, from: Path, to: Path, n: Name)
    requires from + [n] in src
    ensures IsPut(t, t[to + [n] := src[from + [n]]], src, from, to, {from + [n]})
  {
    forall p
      ensures Comes({from + [n]}, from, to, p) <==> p == to + [n]
    {
      if AtOrBelow(to, p) && from + p[|to|..] == from + [n] {
        assert (from + p[|to|..])[|from|..] == p[|to|..];
        assert (from + [n])[|from|..] == [n];
        assert p == p[..|to|] + p[|to|..];
      }
    }
  }

  class Scratch {
    var tree: Tree

    constructor ()
      ensures tree == map[[] := Dir]
    {
      tree := map[[] := Dir];
    }

    /** `copy_no_follow_inner`: the destination is a real directory or is made,
        nothing is written through a link, and no entry changes its kind. */
    method CopyDir(src: Tree, unreadable: set<Path>, from: Path, to: Path) returns (ok: bool)
      requires WellFormed(src) && IsDir(src, from)
      requires WellFormed(tree) && (to != [] ==> IsDir(tree, Parent(to)))
      modifies this
      ensures WellFormed(tree) && KeepsDirs(old(tree), tree)
      ensures ok ==> IsPut(old(tree), tree, src, from, to, Sub(src, from))
      ensures ok <==> Copyable(old(tree), src, unreadable, from, to, Sub(src, from))
      decreases |Sub(src, from)|, 1
    {
      assert Dest(from, to, from) == to;
      if to in tree && !tree[to].Dir? {
        return false;
      }
      RootIsPut(tree, src, from, to);
      tree := tree[to := Dir];
      if from in unreadable {
        return false;
      }
      MadeIsCopyable(old(tree), src, unreadable, from, to);
      ghost var made := tree;
      ok := CopyEntries(src, unreadable, from, to);
      if ok {
        PutsAddUp(old(tree), made, tree, src, from, to, {from}, Sub(src, from));
        assert {from} + Sub(src, from) == Sub(src, from);
      }
    }

    method CopyEntries(src: Tree, unreadable: set<Path>, from: Path, to: Path) returns (ok: bool)
      requires WellFormed(src) && IsDir(src, from) && from !in unreadable
      requires WellFormed(tree) && IsDir(tree, to)
      modifies this
      ensures WellFormed(tree) && KeepsDirs(old(tree), tree)
      ensures ok ==> IsPut(old(tree), tree, src, from, to, Sub(src, from))
      ensures ok <==> Copyable(old(tree), src, unreadable, from, to, Sub(src, from))
      decreases |Sub(src, from)|, 0
    {
      var names := Names(src, from);
      ghost var seen := {};
      CopyBegins(tree, src, unreadable, from, to);
      while names != {}
        invariant names !! seen && names + seen == Names(src, from)
        invariant WellFormed(tree) && KeepsDirs(old(tree), tree)
        invariant Copying(old(tree), tree, src, unreadable, from, to, seen)
      {
        var n :| n in names;
        NamesAreChildren(src, from, n);
        SubIsSmaller(src, from, n);
        ok := CopyNext(src, unreadable, from, to, n, old(tree), seen);
        if !ok {
          return;
        }
        names, seen := names - {n}, seen + {n};
      }
      DoneIsAll(src, from);
      ok := true;
    }

    /** The next entry of the directory; `t0` is what was there before the first one. */
    method CopyNext(src: Tree, unreadable: set<Path>, from: Path, to: Path, n: Name,
                    ghost t0: Tree, ghost seen: set<Name>)
      returns (ok: bool)
      requires WellFormed(src) && from + [n] in src && n !in seen
      requires WellFormed(tree) && IsDir(tree, to) && Copying(t0, tree, src, unreadable, from, to, seen)
      modifies this
      ensures WellFormed(tree) && KeepsDirs(old(tree), tree)
      ensures ok ==> Copying(t0, tree, src, unreadable, from, to, seen + {n})
      ensures !ok ==> !Copyable(t0, src, unreadable, from, to, Sub(src, from))
      decreases |Sub(src, from + [n])|, 3
    {
      SiblingsKeepCopyable(t0, tree, src, unreadable, from, to, seen, n);
      ok := CopyEntry(src, unreadable, from, to, n);
      if ok {
        OneMoreCopied(t0, old(tree), tree, src, unreadable, from, to, seen, n);
      } else {
        PartIsNotCopyable(t0, src, unreadable, from, to, n);
      }
    }

    /** One entry of the directory being copied. */
    method CopyEntry(src: Tree, unreadable: set<Path>, from: Path, to: Path, n: Name) returns (ok: bool)
      requires WellFormed(src) && from + [n] in src
      requires WellFormed(tree) && IsDir(tree, to)
      modifies this
      ensures WellFormed(tree) && KeepsDirs(old(tree), tree)
      ensures ok ==> IsPut(old(tree), tree, src, from, to, Sub(src, from + [n]))
      ensures ok <==> Copyable(old(tree), src, unreadable, from, to, Sub(src, from + [n]))
      decreases |Sub(src, from + [n])|, 2
    {
      var c, d := from + [n], to + [n];
      assert Parent(d) == to;
      CopyableFromAbove(tree, src, unreadable, from, to, n);
      if d in tree && tree[d].Link? {
        return false;
      }
      match src[c] {
        case Dir =>
          ok := CopyDir(src, unreadable, c, d);
          if ok {
            PutFromAbove(old(tree), tree, src, from, to, n, Sub(src, c));
          }
        case Link(_) =>
          ok := d !in tree;
          if ok {
            Write(src, from, to, n);
          }
        case File(_) =>
          ok := d in tree ==> tree[d].File?;
          if ok {
            Write(src, from, to, n);
          }
        case Other =>
          ok := false;
      }
    }

    /** A link or a file, written where nothing of another kind is. */
    method Write(src: Tree, from: Path, to: Path, n: Name)
      requires WellFormed(src) && from + [n] in src && !src[from + [n]].Dir?
      requires WellFormed(tree) && IsDir(tree, to) && !IsDir(tree, to + [n])
      modifies this
      ensures WellFormed(tree) && KeepsDirs(old(tree), tree)
      ensures IsPut(old(tree), tree, src, from, to, Sub(src, from + [n]))
      ensures Sub(src, from + [n]) == {from + [n]}
    {
      WrittenIsPut(tree, src, from, to, n);
      LeafIsAlone(src, from + [n]);
      assert Parent(to + [n]) == to;
      tree := tree[to + [n] := src[from + [n]]];
    }

    // ------------------------------------------------------------ definitions

    method RemoveAll(path: Path)
      requires WellFormed(tree) && path != []
      modifies this
      ensures WellFormed(tree)
      ensures forall p :: EntryAt(tree, p) == if AtOrBelow(path, p) then None else EntryAt(old(tree), p)
    {
      tree := map p | p in tree && !AtOrBelow(path, p) :: tree[p];
    }

    /** `ensure_no_symlink_below`, then `remove_dir_all` of what is there. */
    method Clear(path: Path) returns (ok: bool)
      requires WellFormed(tree) && path != []
      modifies this
      ensures WellFormed(tree)
      ensures ok ==> forall p :: EntryAt(tree, p) == if AtOrBelow(path, p) then None else EntryAt(old(tree), p)
      ensures ok <==> (forall k :: 0 < k <= |path| && path[..k] in old(tree) ==> !old(tree)[path[..k]].Link?)
                      && (path in old(tree) ==> old(tree)[path].Dir?)
    {
      assert path[..|path|] == path;
      if exists k :: 0 < k <= |path| && path[..k] in tree && tree[path[..k]].Link? {
        return false;
      }
      if path in tree {
        if !tree[path].Dir? {
          return false;
        }
        RemoveAll(path);
      } else {
        NothingBelowNothing(tree, path);
      }
      ok := true;
    }

    /** `create_dir_all`. */
    method MakeDirs(path: Path) returns (ok: bool)
      requires WellFormed(tree)
      modifies this
      ensures WellFormed(tree)
      ensures ok ==> forall p :: EntryAt(tree, p) == if AtOrBelow(p, path) then Some(Dir) else EntryAt(old(tree), p)
      ensures ok <==> forall k :: 0 <= k <= |path| && path[..k] in old(tree) ==> old(tree)[path[..k]].Dir?
    {
      FirstDirs(tree, path);
      for k := 0 to |path|
        invariant forall j :: 0 <= j <= k && path[..j] in old(tree) ==> old(tree)[path[..j]].Dir?
        invariant WellFormed(tree) && HasFirstDirs(old(tree), tree, path, k)
      {
        var p := path[..k + 1];
        assert Parent(p) == path[..k] && AtOrBelow(path[..k], path);
        assert EntryAt(tree, path[..k]) == Some(Dir);
        if p in tree && !tree[p].Dir? {
          return false;
        }
        NextDir(old(tree), tree, path, k);
        tree := tree[p := Dir];
      }
      ok := true;
    }

    /** The playbook's own directory without its suite; a link at its top is left out. */
    method CopyPlaybook(project: Tree, id: Name) returns (ok: bool)
      requires WellFormed(project) && WellFormed(tree)
      modifies this
      ensures WellFormed(tree)
      ensures ok ==> IsDir(project, ["playbooks", id])
      ensures ok ==> forall p :: EntryAt(tree, p) == PlaybookAt(old(tree), project, id, p)
      ensures APB !in old(tree) ==> (ok <==> PlaybookFits(project, id))
    {
      var from, to := ["playbooks", id], APB + ["playbooks", id];
      WayIsFree(tree, to);
      ok := Clear(to);
      if !ok {
        return;
      }
      assert forall k :: 0 <= k < |to| ==> EntryAt(tree, to[..k]) == EntryAt(old(tree), to[..k]);
      assert EntryAt(tree, to) == None && to[..|to|] == to;
      ok := MakeDirs(to);
      if !ok || !IsDir(project, from) {
        return false;
      }
      ghost var made := tree;
      assert EntryAt(made, to) == Some(Dir);
      forall n ensures to + [n] !in made {
        assert AtOrBelow(to, to + [n]) && EntryAt(made, to + [n]) == None;
      }
      ok := CopyTop(project, from, to);
      if ok {
        forall p ensures EntryAt(tree, p) == PlaybookAt(old(tree), project, id, p) {
          PlaybookPut(old(tree), made, tree, project, id, p);
        }
      }
    }

    method CopyTop(project: Tree, from: Path, to: Path) returns (ok: bool)
      requires WellFormed(project) && IsDir(project, from)
      requires WellFormed(tree) && IsDir(tree, to) && forall n :: to + [n] !in tree
      modifies this
      ensures WellFormed(tree)
      ensures ok ==> IsPut(old(tree), tree, project, from, to, Done(project, from, Wanted(project, from)))
      ensures ok <==> NoSpecial(project, Done(project, from, Wanted(project, from)))
    {
      var names := Names(project, from);
      ghost var done: set<Name> := {};
      RootIsPut(tree, project, from, to);
      assert tree[to := Dir] == tree;
      while names != {}
        invariant names <= Names(project, from) && done == Wanted(project, from) - names
        invariant WellFormed(tree) && IsDir(tree, to)
        invariant IsPut(old(tree), tree, project, from, to, Done(project, from, done))
        invariant NoSpecial(project, Done(project, from, done))
      {
        var n :| n in names;
        NamesAreChildren(project, from, n);
        if n != EVALS && (project[from + [n]].Dir? || project[from + [n]].File?) {
          ok := CopyTopNext(project, from, to, n, old(tree), done);
          if !ok {
            SpecialInPart(project, from, Wanted(project, from), n);
            return;
          }
          done := done + {n};
        }
        names := names - {n};
      }
      assert done == Wanted(project, from);
      ok := true;
    }

    /** The next entry at the top of the playbook's directory. */
    method CopyTopNext(project: Tree, from: Path, to: Path, n: Name, ghost t0: Tree, ghost done: set<Name>)
      returns (ok: bool)
      requires WellFormed(project) && from + [n] in project && n !in done
      requires WellFormed(t0) && to + [n] !in t0 && WellFormed(tree) && IsDir(tree, to)
      requires IsPut(t0, tree, project, from, to, Done(project, from, done))
      requires NoSpecial(project, Done(project, from, done))
      modifies this
      ensures WellFormed(tree) && KeepsDirs(old(tree), tree)
      ensures ok ==> IsPut(t0, tree, project, from, to, Done(project, from, done + {n}))
      ensures ok ==> NoSpecial(project, Done(project, from, done + {n}))
      ensures !ok ==> !NoSpecial(project, Sub(project, from + [n]))
    {
      SiblingsKeepCopyable(t0, tree, project, {}, from, to, done, n);
      FreshIsCopyable(t0, project, from, to, n);
      ok := CopyEntry(project, {}, from, to, n);
      if ok {
        PutsAddUp(t0, old(tree), tree, project, from, to, Done(project, from, done), Sub(project, from + [n]));
        DoneGrows(project, from, done, n);
      }
    }

    /** The draft's scratch copy is marked active (`write_lifecycle`). */
    method MarkActive(id: Name) returns (ok: bool)
      requires WellFormed(tree) && IsDir(tree, APB + ["playbooks", id])
      modifies this
      ensures WellFormed(tree)
      ensures ok ==> forall p ::
                EntryAt(tree, p) == if p == Mark(id) then Some(File("active")) else EntryAt(old(tree), p)
      ensures ok <==> !IsDir(old(tree), Mark(id))
    {
      assert Parent(Mark(id)) == APB + ["playbooks", id];
      if IsDir(tree, Mark(id)) {
        return false;
      }
      tree := tree[Mark(id) := File("active")];
      ok := true;
    }

    /** The project's profiles or skills, in place of whatever was there. */
    method CopySub(project: Tree, sub: Name) returns (ok: bool)
      requires WellFormed(project) && WellFormed(tree) && IsDir(tree, APB)
      modifies this
      ensures WellFormed(tree)
      ensures ok ==> forall p :: EntryAt(tree, p) == SubAt(old(tree), project, sub, p)
      ensures APB + [sub] !in old(tree) ==> (ok <==> SubFits(project, sub))
    {
      if !IsDir(project, [sub]) {
        return true;
      }
      assert (APB + [sub])[..1] == APB && (APB + [sub])[..2] == APB + [sub];
      ok := Clear(APB + [sub]);
      if !ok {
        return;
      }
      assert EntryAt(tree, APB + [sub]) == None;
      FreshTreeIsCopyable(tree, project, [sub], APB + [sub]);
      assert Parent(APB + [sub]) == APB && !AtOrBelow(APB + [sub], APB);
      assert EntryAt(tree, APB) == EntryAt(old(tree), APB);
      ghost var cleared := tree;
      ok := CopyDir(project, {}, [sub], APB + [sub]);
      if ok {
        forall p ensures EntryAt(tree, p) == SubAt(old(tree), project, sub, p) {
          SubPut(old(tree), cleared, tree, project, sub, p);
        }
      }
    }

    method CopyConfig(project: Tree) returns (ok: bool)
      requires WellFormed(tree) && IsDir(tree, APB)
      modifies this
      ensures WellFormed(tree)
      ensures ok ==> forall p :: EntryAt(tree, p) == ConfigAt(old(tree), project, p)
      ensures CONFIG !in old(tree) ==> ok
    {
      if HasConfig(project) {
        assert Parent(CONFIG) == APB;
        if CONFIG in tree && (tree[CONFIG].Link? || tree[CONFIG].Dir?) {
          return false;
        }
        tree := tree[CONFIG := project[["config.yaml"]]];
      }
      ok := true;
    }

    /** The playbook and the draft's mark. */
    method CopyMarkedPlaybook(project: Tree, id: Name, draft: bool) returns (ok: bool)
      requires WellFormed(project) && WellFormed(tree)
      modifies this
      ensures WellFormed(tree)
      ensures ok ==> IsDir(project, ["playbooks", id]) && IsDir(tree, APB)
      ensures ok ==> forall p :: EntryAt(tree, p) == MarkedAt(old(tree), project, id, draft, p)
      ensures APB !in old(tree) ==>
                (ok <==> PlaybookFits(project, id) && (draft ==> !IsDir(project, ["playbooks", id, "lifecycle"])))
      ensures APB !in old(tree) && ok ==> SlotsFree(tree) && DirFits(tree, "playbooks")
    {
      ok := CopyPlaybook(project, id);
      if !ok {
        return;
      }
      ghost var t1 := tree;
      PlaybookDirs(old(tree), project, id);
      assert EntryAt(t1, APB + ["playbooks", id]) == Some(Dir) && EntryAt(t1, APB) == Some(Dir);
      assert EntryAt(t1, APB + ["playbooks"]) == Some(Dir);
      if APB !in old(tree) {
        SlotsAreFree(old(tree), t1, project, id);
      }
      if draft {
        MarkIsApart(id);
        ok := MarkActive(id);
        if ok {
          assert EntryAt(tree, APB) == EntryAt(t1, APB);
          assert EntryAt(tree, APB + ["playbooks"]) == EntryAt(t1, APB + ["playbooks"]);
          if SlotsFree(t1) {
            SlotsStayFree(t1, tree, Mark(id));
          }
        }
      }
    }

    /** Profiles, skills and config, each in place of what was there. */
    method CopyShared(project: Tree) returns (ok: bool)
      requires WellFormed(project) && WellFormed(tree) && IsDir(tree, APB)
      modifies this
      ensures WellFormed(tree)
      ensures ok ==> forall p :: EntryAt(tree, p) == SharedAt(old(tree), project, p)
      ensures ok && SlotsFree(old(tree)) && DirFits(old(tree), "playbooks") ==> IGNORE !in tree && InitFits(tree)
      ensures SlotsFree(old(tree)) ==> (ok <==> SubFits(project, "profiles") && SubFits(project, "skills"))
    {
      SlotsAreApart();
      ok := CopySub(project, "profiles");
      if !ok {
        return;
      }
      ghost var t3 := tree;
      assert EntryAt(t3, APB) == SubAt(old(tree), project, "profiles", APB);
      assert EntryAt(t3, APB + ["skills"]) == EntryAt(old(tree), APB + ["skills"]);
      assert EntryAt(t3, CONFIG) == EntryAt(old(tree), CONFIG);
      ok := CopySub(project, "skills");
      if !ok {
        return;
      }
      ghost var t4 := tree;
      assert EntryAt(t4, APB) == SubAt(t3, project, "skills", APB);
      assert EntryAt(t4, CONFIG) == EntryAt(t3, CONFIG);
      ok := CopyConfig(project);
      if ok {
        forall p ensures EntryAt(tree, p) == SharedAt(old(tree), project, p) {
          assert EntryAt(t3, p) == SubAt(old(tree), project, "profiles", p);
          assert EntryAt(t4, p) == SubAt(t3, project, "skills", p);
        }
        if SlotsFree(old(tree)) && DirFits(old(tree), "playbooks") {
          SharedFitsInit(old(tree), tree, project);
        }
      }
    }

    /** `copy_definitions`: outside `.apb` nothing changes; inside, the project's
        definitions stand in place of what was there. */
    method CopyDefinitions(project: Tree, id: Name, draft: bool) returns (ok: bool)
      requires WellFormed(project) && WellFormed(tree)
      modifies this
      ensures WellFormed(tree)
      ensures ok ==> IsDir(project, ["playbooks", id])
      ensures ok ==> forall p :: EntryAt(tree, p) == DefinedAt(old(tree), project, id, draft, p)
      ensures APB !in old(tree) ==> (ok <==> DefinitionsFit(project, id, draft))
      ensures APB !in old(tree) && ok ==> IGNORE !in tree && InitFits(tree)
    {
      ok := CopyMarkedPlaybook(project, id, draft);
      if !ok {
        return;
      }
      ghost var t1 := tree;
      ok := CopyShared(project);
      if ok {
        forall p ensures EntryAt(tree, p) == DefinedAt(old(tree), project, id, draft, p) {
          assert EntryAt(t1, p) == MarkedAt(old(tree), project, id, draft, p);
        }
      }
    }

    /** `init_project`: what is missing is made, and nothing else changes but the
        ignore file. */
    method InitProject(texts: InitTexts) returns (ok: bool)
      requires WellFormed(tree) && IsDir(tree, APB)
      modifies this
      ensures WellFormed(tree)
      ensures ok ==> forall p :: EntryAt(tree, p) == InitializedAt(old(tree), texts, p)
      ensures ok <==> InitFits(old(tree))
    {
      InitDirsDiffer();
      ok := MakeApbDirs();
      if !ok {
        return;
      }
      ghost var t1 := tree;
      assert EntryAt(t1, APB) == Some(Dir);
      assert CONFIG == APB + ["config.yaml"] && IGNORE == APB + [".gitignore"];
      if CONFIG !in tree {
        ok := WriteFile("config.yaml", texts.config);
        if !ok {
          return;
        }
      }
      ghost var t2 := tree;
      assert EntryAt(t2, APB) == Some(Dir);
      assert Parent(IGNORE) == APB;
      IgnoreLocal(texts);
      forall p ensures EntryAt(tree, p) == InitializedAt(old(tree), texts, p) {
        Initialized(old(tree), t1, t2, tree, texts, p);
      }
    }

    /** `ensure_local_ignored`. */
    method IgnoreLocal(texts: InitTexts)
      requires WellFormed(tree) && IsDir(tree, APB)
      modifies this
      ensures WellFormed(tree)
      ensures forall p ::
                EntryAt(tree, p) == (if p == IGNORE then IgnoredAt(EntryAt(old(tree), p), texts)
                                     else EntryAt(old(tree), p))
    {
      assert Parent(IGNORE) == APB;
      var there := EntryAt(tree, IGNORE);
      if there == Some(Dir) {
        return;
      }
      var next := IgnoreFile.EnsureLocalIgnored(IgnoreText(there, texts), texts.entries);
      NextIsIgnored(there, texts, next);
      if next.Some? && texts.written {
        tree := tree[IGNORE := File(next.value)];
      }
    }

    /** A file written into `.apb`; it may replace a file, never a directory. */
    method WriteFile(n: Name, content: string) returns (ok: bool)
      requires WellFormed(tree) && IsDir(tree, APB)
      modifies this
      ensures WellFormed(tree)
      ensures ok ==> forall p ::
                EntryAt(tree, p) == if p == APB + [n] then Some(File(content)) else EntryAt(old(tree), p)
      ensures ok <==> !IsDir(old(tree), APB + [n])
    {
      assert Parent(APB + [n]) == APB;
      if IsDir(tree, APB + [n]) {
        return false;
      }
      tree := tree[APB + [n] := File(content)];
      ok := true;
    }

    /** One directory in `.apb`. */
    method MakeApbDir(n: Name) returns (ok: bool)
      requires WellFormed(tree) && IsDir(tree, APB)
      modifies this
      ensures WellFormed(tree) && IsDir(tree, APB)
      ensures ok ==> forall p :: EntryAt(tree, p) == if p == APB + [n] then Some(Dir) else EntryAt(old(tree), p)
      ensures ok <==> DirFits(old(tree), n)
    {
      assert Parent(APB + [n]) == APB;
      if APB + [n] in tree && !tree[APB + [n]].Dir? {
        return false;
      }
      tree := tree[APB + [n] := Dir];
      ok := true;
    }

    /** `create_dir_all` of the three directories, where `.apb` is there already. */
    method MakeApbDirs() returns (ok: bool)
      requires WellFormed(tree) && IsDir(tree, APB)
      modifies this
      ensures WellFormed(tree)
      ensures ok ==> forall p :: EntryAt(tree, p) == if p in InitDirs() then Some(Dir) else EntryAt(old(tree), p)
      ensures ok <==> DirFits(old(tree), "playbooks") && DirFits(old(tree), "profiles") && DirFits(old(tree), "runs")
    {
      InitDirsDiffer();
      ok := MakeApbDir("playbooks");
      if !ok {
        return;
      }
      ghost var t1 := tree;
      DirFitsStill(old(tree), t1, "playbooks", "profiles");
      DirFitsStill(old(tree), t1, "playbooks", "runs");
      ok := MakeApbDir("profiles");
      if !ok {
        return;
      }
      ghost var t2 := tree;
      DirFitsStill(t1, t2, "profiles", "runs");
      ok := MakeApbDir("runs");
      if ok {
        ThreeDirs(old(tree), t1, t2, tree);
      }
    }

    /** The archive is there already; the fixture goes over it. */
    method LayFixture(fixture: Option<Tree>, unreadable: set<Path>) returns (ok: bool)
      requires WellFormed(tree) && (fixture.Some? ==> WellFormed(fixture.value))
      modifies this
      ensures WellFormed(tree)
      ensures ok <==> (fixture.Some? ==> Copyable(old(tree), fixture.value, unreadable, [], [], Sub(fixture.value, [])))
      ensures ok ==> tree == Merged(old(tree), fixture)
    {
      ok := true;
      if fixture.Some? {
        ok := CopyDir(fixture.value, unreadable, [], []);
      }
      if ok {
        LayerIsMerged(old(tree), tree, fixture);
      }
    }

    /** The fixture's `.apb` goes, and apb's own repository comes. */
    method AddRepository(repository: Tree) returns (ok: bool)
      requires WellFormed(tree) && WellFormed(repository) && GIT !in tree
      modifies this
      ensures WellFormed(tree)
      ensures ok <==> forall q :: q in repository ==> !repository[q].Other?
      ensures ok ==> forall p :: EntryAt(tree, p) == RepositoryAt(old(tree), repository, p)
    {
      RemoveAll(APB);
      assert !AtOrBelow(APB, GIT) by { assert GIT[..1][0] != APB[0]; }
      assert EntryAt(tree, GIT) == None;
      NothingBelowNothing(tree, GIT);
      ghost var removed := tree;
      assert Parent(GIT) == [];
      RepositoryFits(tree, repository);
      ok := CopyDir(repository, {}, [], GIT);
      if ok {
        forall p
          ensures EntryAt(tree, p) == if AtOrBelow(GIT, p) then EntryAt(repository, p[1..]) else EntryAt(removed, p)
        {
          RepositoryPut(removed, tree, repository, p);
        }
      }
    }

    /** The fixture layers and apb's own repository, before any definition: no
        `.apb` is left of them and the only `.git` is apb's. */
    method BuildFixture(archive: Option<Tree>, fixture: Option<Tree>, unreadable: set<Path>, repository: Tree,
                        canon: Path -> LayerCheck.Canonical)
      returns (ok: bool)
      requires tree == map[[] := Dir]
      requires archive.Some? ==> WellFormed(archive.value)
      requires fixture.Some? ==> WellFormed(fixture.value)
      requires WellFormed(repository)
      modifies this
      ensures WellFormed(tree)
      ensures ok ==> IsBuilt(archive, fixture, repository, tree)
      ensures ok <==> LayersFit(archive, fixture, unreadable, repository, canon)
    {
      if archive.Some? {
        tree := archive.value;
      }
      ok := LayFixture(fixture, unreadable);
      if !ok {
        return;
      }
      ok := LayerCheck.CheckLayer(tree, {}, true, canon);
      if !ok {
        return;
      }
      assert GIT !in tree by { assert LayerCheck.Looked(GIT) && Last(GIT) == ".git"; }
      if APB in tree && !tree[APB].Dir? {
        return false;
      }
      ghost var layered := tree;
      ok := AddRepository(repository);
      if ok {
        forall p ensures EntryAt(tree, p) == BuiltAt(archive, fixture, repository, p) {
          BuiltPart(archive, fixture, repository, layered, tree, p);
        }
      }
    }

    /** The change overlay: it may carry neither a `.git` nor an `.apb`. A directory of
        it that cannot be read hides what is in it from that check, and then from the
        copy as well. */
    method ApplyChange(change: Tree, unreadable: set<Path>, order: GitSearch.Order, canon: Path -> LayerCheck.Canonical)
      returns (ok: bool)
      requires WellFormed(tree) && WellFormed(change) && GitSearch.Lists(change, order)
      modifies this
      ensures WellFormed(tree)
      ensures ok ==> !GitSearch.HasGit(change)
      ensures ok ==> forall p :: EntryAt(tree, p) == ChangedAt(old(tree), change, p)
      ensures ok <==> ChangeFits(old(tree), change, unreadable, canon)
    {
      if Copyable(tree, change, unreadable, [], [], Sub(change, [])) {
        DirsAreReadable(tree, change, unreadable);
      }
      GitSearch.AnswerIsRightIff(change, unreadable);
      var carried := GitSearch.CarriesGit(change, unreadable, order);
      if carried.Some? || APB in change {
        return false;
      }
      ok := CopyDir(change, unreadable, [], []);
      if !ok {
        return;
      }
      assert Sub(change, []) == change.Keys;
      assert !GitSearch.HasGit(change);
      assert GIT !in change by { assert Last(GIT) == ".git"; }
      NothingBelowNothing(change, APB);
      NothingBelowNothing(change, GIT);
      forall p ensures EntryAt(tree, p) == ChangedAt(old(tree), change, p) {
        assert Origin([], [], p) == p;
      }
      LayerIsMerged(old(tree), tree, Some(change));
      ok := LayerCheck.CheckLayer(tree, {}, false, canon);
    }

    /** `materialize`. Whatever the archive, the fixture and the change hold: when it
        succeeds, everything under `.apb` is the project's own definition (with the
        draft mark and the project init), entry by entry and nothing more, everything
        under `.git` is what apb's own git commands left there, and everything else is
        the change over the fixture over the archive. It succeeds exactly when each
        stage passes its check on the tree the stages before it stand for. */
    method Run(archive: Option<Tree>, fixture: Option<Tree>, fixtureUnreadable: set<Path>, git: Git,
               project: Tree, id: Name, draft: bool, texts: InitTexts,
               change: Option<Tree>, changeUnreadable: set<Path>, order: GitSearch.Order,
               canon: nat -> Path -> LayerCheck.Canonical)
      returns (ok: bool)
      requires tree == map[[] := Dir]
      requires archive.Some? ==> WellFormed(archive.value)
      requires fixture.Some? ==> WellFormed(fixture.value)
      requires change.Some? ==> WellFormed(change.value) && GitSearch.Lists(change.value, order)
      requires WellFormed(git.init) && WellFormed(git.committed) && WellFormed(git.changed) && WellFormed(project)
      modifies this
      ensures WellFormed(tree)
      ensures ok ==> forall p :: AtOrBelow(APB, p) ==> EntryAt(tree, p) == Expected(project, id, draft, texts, p[1..])
      ensures ok ==> forall p :: AtOrBelow(GIT, p) ==>
                EntryAt(tree, p) == EntryAt(if change.Some? then git.changed else git.committed, p[1..])
      ensures ok ==> forall p :: p != [] && !IsOwn(p) ==>
                EntryAt(tree, p) == Over(change, LayeredAt(archive, fixture, p), p)
      ensures ok && change.Some? ==> !GitSearch.HasGit(change.value)
      ensures ok <==>
              && (archive.Some? ==> git.ok.archive) && git.ok.init && git.ok.committed
              && LayersFit(archive, fixture, fixtureUnreadable, git.init, canon(0))
              && DefinitionsFit(project, id, draft)
              && (forall t :: IsBuilt(archive, fixture, git.init, t) ==>
                    DefinitionsPass(t, project, id, draft, canon(1)))
              && (change.Some? ==>
                    git.ok.changed &&
                    forall t :: IsReady(archive, fixture, git.committed, project, id, draft, texts, t) ==>
                      ChangeFits(t, change.value, changeUnreadable, canon(2)))
    {
      ok := Prepare(archive, fixture, fixtureUnreadable, git, project, id, draft, texts, canon);
      if !ok {
        return;
      }
      OneReady(archive, fixture, git.committed, project, id, draft, texts, tree);
      if change.Some? {
        ok := ApplyChange(change.value, changeUnreadable, order, canon(2));
        if ok {
          GitCommands(git.changed);
          ok := git.ok.changed;
        }
      }
    }

    /** The tree without the change. */
    method Prepare(archive: Option<Tree>, fixture: Option<Tree>, fixtureUnreadable: set<Path>, git: Git,
                   project: Tree, id: Name, draft: bool, texts: InitTexts, canon: nat -> Path -> LayerCheck.Canonical)
      returns (ok: bool)
      requires tree == map[[] := Dir]
      requires archive.Some? ==> WellFormed(archive.value)
      requires fixture.Some? ==> WellFormed(fixture.value)
      requires WellFormed(git.init) && WellFormed(git.committed) && WellFormed(project)
      modifies this
      ensures WellFormed(tree)
      ensures ok ==> IsReady(archive, fixture, git.committed, project, id, draft, texts, tree)
      ensures ok <==>
              && (archive.Some? ==> git.ok.archive) && git.ok.init && git.ok.committed
              && LayersFit(archive, fixture, fixtureUnreadable, git.init, canon(0))
              && DefinitionsFit(project, id, draft)
              && (forall t :: IsBuilt(archive, fixture, git.init, t) ==>
                    DefinitionsPass(t, project, id, draft, canon(1)))
    {
      if archive.Some? && !git.ok.archive {
        return false;
      }
      ok := BuildFixture(archive, fixture, fixtureUnreadable, git.init, canon(0));
      if !ok || !git.ok.init {
        return false;
      }
      OneBuilt(archive, fixture, git.init, tree);
      ghost var t0 := tree;
      assert forall p :: AtOrBelow(APB, p) ==> EntryAt(tree, p) == None;
      ok := Define(project, id, draft, texts, canon(1));
      if ok {
        ghost var t1 := tree;
        GitCommands(git.committed);
        forall p ensures EntryAt(tree, p) == ReadyAt(archive, fixture, git.committed, project, id, draft, texts, p) {
          ReadyPart(archive, fixture, git, project, id, draft, texts, t0, t1, tree, p);
        }
        ok := git.ok.committed;
      }
    }

    /** What git does in the tree: its own directory changes, and nothing else. */
    method GitCommands(repository: Tree)
      requires WellFormed(tree) && WellFormed(repository)
      modifies this
      ensures WellFormed(tree)
      ensures forall p :: EntryAt(tree, p) == GitAt(old(tree), repository, p)
    {
      WithGitIsWellFormed(tree, repository);
      forall p ensures EntryAt(WithGit(tree, repository), p) == GitAt(tree, repository, p) {
        WithGitAt(tree, repository, p);
      }
      tree := WithGit(tree, repository);
    }

    /** The definitions and the project init, in a tree without any `.apb`. */
    method Define(project: Tree, id: Name, draft: bool, texts: InitTexts, canon: Path -> LayerCheck.Canonical)
      returns (ok: bool)
      requires WellFormed(tree) && WellFormed(project) && forall p :: AtOrBelow(APB, p) ==> p !in tree
      modifies this
      ensures WellFormed(tree)
      ensures ok ==> forall p :: AtOrBelow(APB, p) ==> EntryAt(tree, p) == Expected(project, id, draft, texts, p[1..])
      ensures ok ==> forall p :: p != [] && !AtOrBelow(APB, p) ==> EntryAt(tree, p) == EntryAt(old(tree), p)
      ensures ok <==> DefinitionsFit(project, id, draft) && DefinitionsPass(old(tree), project, id, draft, canon)
    {
      ghost var t0 := tree;
      assert AtOrBelow(APB, APB);
      ok := CopyDefinitions(project, id, draft);
      if !ok {
        return;
      }
      ghost var t1 := tree;
      forall t | AreDefinitions(t0, t, project, id, draft) ensures t == t1 {
        SameEntries(t, t1);
      }
      assert AreDefinitions(t0, t1, project, id, draft);
      PlaybookDirs(t0, project, id);
      assert EntryAt(t1, APB) == DefinedAt(t0, project, id, draft, APB);
      ok := LayerCheck.CheckLayer(tree, {}, false, canon);
      if !ok {
        return;
      }
      ok := InitProject(texts);
      if ok {
        forall p | AtOrBelow(APB, p) ensures EntryAt(tree, p) == Expected(project, id, draft, texts, p[1..]) {
          assert EntryAt(t1, p) == DefinedAt(t0, project, id, draft, p);
          OnlyTheProject(t0, t1, tree, project, id, draft, texts, p);
        }
        forall p | p != [] && !AtOrBelow(APB, p) ensures EntryAt(tree, p) == EntryAt(t0, p) {
          assert EntryAt(t1, p) == DefinedAt(t0, project, id, draft, p);
          OutsideStays(t0, t1, tree, project, id, draft, texts, p);
        }
      }
    }
  }

  /** Trees with the same entries are the same. */
  lemma SameEntries(t: Tree, u: Tree)
    requires forall p :: EntryAt(t, p) == EntryAt(u, p)
    ensures t == u
  {
    assert forall p :: p in t <==> EntryAt(t, p).Some?;
    assert forall p :: p in u <==> EntryAt(u, p).Some?;
    assert forall p :: p in t ==> EntryAt(t, p) == Some(t[p]);
  }

  ghost predicate AreDefinitions(before: Tree, t: Tree, project: Tree, id: Name, draft: bool) {
    forall p :: EntryAt(t, p) == DefinedAt(before, project, id, draft, p)
  }

  /** The tree with the definitions in it passes the check before the project init. */
  ghost predicate DefinitionsPass(before: Tree, project: Tree, id: Name, draft: bool,
                                  canon: Path -> LayerCheck.Canonical)
  {
    forall t :: AreDefinitions(before, t, project, id, draft) ==> LayerCheck.LayerOk(t, false, canon)
  }

  ghost predicate NoSpecial(src: Tree, sel: set<Path>) {
    forall q :: q in sel && q in src ==> !src[q].Other?
  }

  /** The playbook is there, without special files in what is copied. */
  ghost predicate PlaybookFits(project: Tree, id: Name) {
    var from := ["playbooks", id];
    IsDir(project, from) && NoSpecial(project, Done(project, from, Wanted(project, from)))
  }

  ghost predicate SubFits(project: Tree, sub: Name) {
    IsDir(project, [sub]) ==> NoSpecial(project, Sub(project, [sub]))
  }

  /** What the project's definitions need to be copied into a tree without any. */
  ghost predicate DefinitionsFit(project: Tree, id: Name, draft: bool) {
    && PlaybookFits(project, id) && (draft ==> !IsDir(project, ["playbooks", id, "lifecycle"]))
    && SubFits(project, "profiles") && SubFits(project, "skills")
  }

  /** Where nothing is in the way, all but special files can be copied. */
  lemma FreshTreeIsCopyable(t: Tree, src: Tree, from: Path, to: Path)
    requires WellFormed(t) && to !in t
    ensures Copyable(t, src, {}, from, to, Sub(src, from)) <==> NoSpecial(src, Sub(src, from))
  {
    NothingBelowNothing(t, to);
    forall q | q in Sub(src, from) ensures EntryAt(t, Dest(from, to, q)) == None {
      assert AtOrBelow(to, Dest(from, to, q));
    }
  }

  /** In a tree without any `.apb` nothing is in the way of a path below it. */
  lemma WayIsFree(t: Tree, path: Path)
    requires WellFormed(t) && AtOrBelow(APB, path)
    ensures APB !in t ==> forall k :: 0 < k <= |path| ==> path[..k] !in t
  {
    if APB !in t {
      NothingBelowNothing(t, APB);
      forall k | 0 < k <= |path| ensures path[..k] !in t {
        assert path[..k][..1] == path[..1];
      }
    }
  }

  ghost predicate SlotsFree(t: Tree) {
    APB + ["profiles"] !in t && APB + ["skills"] !in t && APB + ["runs"] !in t && CONFIG !in t && IGNORE !in t
  }

  lemma MarkIsApart(id: Name)
    ensures |Mark(id)| == 4 && Mark(id) != APB
  {
  }

  lemma SlotsStayFree(t0: Tree, t: Tree, at: Path)
    requires SlotsFree(t0) && |at| == 4 && forall p :: p != at ==> EntryAt(t, p) == EntryAt(t0, p)
    ensures SlotsFree(t)
  {
    forall q | q in [APB + ["profiles"], APB + ["skills"], APB + ["runs"], CONFIG, IGNORE] ensures q !in t {
      assert EntryAt(t, q) == EntryAt(t0, q);
    }
    assert CONFIG in [APB + ["profiles"], APB + ["skills"], APB + ["runs"], CONFIG, IGNORE];
  }

  lemma SlotsAreApart()
    ensures !AtOrBelow(APB + ["profiles"], APB + ["skills"])
    ensures !AtOrBelow(APB + ["profiles"], CONFIG) && !AtOrBelow(APB + ["skills"], CONFIG)
    ensures !AtOrBelow(APB + ["profiles"], IGNORE) && !AtOrBelow(APB + ["skills"], IGNORE) && CONFIG != IGNORE
  {
    assert |"profiles"| == 8 && |"skills"| == 6 && |"config.yaml"| == 11 && |".gitignore"| == 10;
    assert (APB + ["skills"])[1] == "skills" && CONFIG[1] == "config.yaml" && IGNORE[1] == ".gitignore";
    assert (APB + ["profiles"])[1] == "profiles";
    assert (APB + ["skills"])[..2] == APB + ["skills"] && CONFIG[..2] == CONFIG && IGNORE[..2] == IGNORE;
  }

  /** The playbook's copy brings nothing to another place in `.apb`. */
  lemma SlotIsFree(before: Tree, t: Tree, project: Tree, id: Name, n: Name)
    requires WellFormed(before) && APB !in before && n != "playbooks"
    requires forall p :: EntryAt(t, p) == PlaybookAt(before, project, id, p)
    ensures APB + [n] !in t
  {
    NothingBelowNothing(before, APB);
    assert AtOrBelow(APB, APB + [n]);
    OtherPart(before, project, id, [n]);
    assert EntryAt(t, APB + [n]) == None;
  }

  lemma MarkIsTheProjects(before: Tree, t: Tree, project: Tree, id: Name)
    requires WellFormed(before) && APB !in before && IsDir(project, ["playbooks", id])
    requires forall p :: EntryAt(t, p) == PlaybookAt(before, project, id, p)
    ensures IsDir(t, Mark(id)) <==> IsDir(project, ["playbooks", id, "lifecycle"])
  {
    NothingBelowNothing(before, APB);
    var q := ["playbooks", id, "lifecycle"];
    assert AtOrBelow(APB, APB + q) && q[2] != EVALS && q[..2] == ["playbooks", id] && Mark(id) == APB + q;
    PlaybookPart(before, project, id, q);
    assert EntryAt(t, APB + q) == PlaybookAt(before, project, id, APB + q);
  }

  /** The playbook's copy leaves the places of the other definitions free. */
  lemma SlotsAreFree(before: Tree, t: Tree, project: Tree, id: Name)
    requires WellFormed(before) && APB !in before && IsDir(project, ["playbooks", id])
    requires forall p :: EntryAt(t, p) == PlaybookAt(before, project, id, p)
    ensures SlotsFree(t)
    ensures IsDir(t, Mark(id)) <==> IsDir(project, ["playbooks", id, "lifecycle"])
  {
    assert |"playbooks"| == 9 && |"profiles"| == 8 && |"skills"| == 6 && |"runs"| == 4;
    assert |"config.yaml"| == 11 && |".gitignore"| == 10;
    SlotIsFree(before, t, project, id, "profiles");
    SlotIsFree(before, t, project, id, "skills");
    SlotIsFree(before, t, project, id, "runs");
    SlotIsFree(before, t, project, id, "config.yaml");
    SlotIsFree(before, t, project, id, ".gitignore");
    assert CONFIG == APB + ["config.yaml"] && IGNORE == APB + [".gitignore"];
    MarkIsTheProjects(before, t, project, id);
  }

  lemma FreshIsCopyable(t: Tree, src: Tree, from: Path, to: Path, n: Name)
    requires WellFormed(t) && to + [n] !in t && WellFormed(src) && from + [n] in src
    ensures Copyable(t, src, {}, from, to, Sub(src, from + [n])) <==> NoSpecial(src, Sub(src, from + [n]))
  {
    CopyableFromAbove(t, src, {}, from, to, n);
    FreshTreeIsCopyable(t, src, from + [n], to + [n]);
  }

  lemma SpecialInPart(src: Tree, from: Path, names: set<Name>, n: Name)
    requires n in names && !NoSpecial(src, Sub(src, from + [n]))
    ensures !NoSpecial(src, Done(src, from, names))
  {
    DoneGrows(src, from, names, n);
    assert names + {n} == names;
  }

  /** What `copy_definitions` takes from the top of the playbook's directory. */
  function Wanted(project: Tree, dir: Path): set<Name> {
    set n | n in Names(project, dir) && n != EVALS && dir + [n] in project
            && (project[dir + [n]].Dir? || project[dir + [n]].File?)
  }

  /** The project's playbook, minus its suite, in place of whatever was there. */
  ghost function PlaybookAt(before: Tree, project: Tree, id: Name, p: Path): Option<Entry> {
    var from, to := ["playbooks", id], APB + ["playbooks", id];
    if AtOrBelow(to, p) then
      if p[1..] in Done(project, from, Wanted(project, from)) then Some(project[p[1..]]) else None
    else if AtOrBelow(p, to) then Some(Dir)
    else EntryAt(before, p)
  }

  lemma PlaybookPut(t0: Tree, made: Tree, t: Tree, project: Tree, id: Name, p: Path)
    requires var from, to := ["playbooks", id], APB + ["playbooks", id];
             && EntryAt(made, p) == (if AtOrBelow(p, to) then Some(Dir)
                                     else if AtOrBelow(to, p) then None else EntryAt(t0, p))
             && IsDir(project, from)
             && IsPut(made, t, project, from, to, Done(project, from, Wanted(project, from)))
    ensures EntryAt(t, p) == PlaybookAt(t0, project, id, p)
  {
    var from, to := ["playbooks", id], APB + ["playbooks", id];
    var sel := Done(project, from, Wanted(project, from));
    assert EntryAt(t, p) == if Comes(sel, from, to, p) then Some(project[Origin(from, to, p)]) else EntryAt(made, p);
    if AtOrBelow(to, p) {
      assert p == to + p[3..];
      assert p[1..] == from + p[3..];
      assert Origin(from, to, p) == p[1..];
      assert |p| == 3 ==> p == to && p[1..] == from;
      assert AtOrBelow(p, to) ==> p == to;
    }
  }

  /** The first `k` directories of `path` are there, the rest is as before. */
  ghost predicate HasFirstDirs(before: Tree, after: Tree, path: Path, k: nat) {
    forall p :: EntryAt(after, p) == (if AtOrBelow(p, path) && |p| <= k then Some(Dir) else EntryAt(before, p))
  }

  lemma FirstDirs(t: Tree, path: Path)
    requires WellFormed(t)
    ensures HasFirstDirs(t, t, path, 0)
  {
    assert forall p: Path :: |p| == 0 ==> p == [];
  }

  lemma NextDir(before: Tree, t: Tree, path: Path, k: nat)
    requires k < |path| && HasFirstDirs(before, t, path, k)
    ensures HasFirstDirs(before, t[path[..k + 1] := Dir], path, k + 1)
  {
    var after := t[path[..k + 1] := Dir];
    forall p
      ensures EntryAt(after, p) == (if AtOrBelow(p, path) && |p| <= k + 1 then Some(Dir) else EntryAt(before, p))
    {
      assert AtOrBelow(p, path) && |p| == k + 1 <==> p == path[..k + 1];
      assert EntryAt(t, p) == (if AtOrBelow(p, path) && |p| <= k then Some(Dir) else EntryAt(before, p));
    }
  }

  function Mark(id: Name): Path {
    APB + ["playbooks", id, "lifecycle"]
  }

  predicate HasConfig(project: Tree) {
    ["config.yaml"] in project && project[["config.yaml"]].File?
  }

  ghost function ConfigAt(before: Tree, project: Tree, p: Path): Option<Entry> {
    if p == CONFIG && HasConfig(project) then Some(project[["config.yaml"]]) else EntryAt(before, p)
  }

  ghost function SubAt(before: Tree, project: Tree, sub: Name, p: Path): Option<Entry> {
    if IsDir(project, [sub]) && AtOrBelow(APB + [sub], p) then EntryAt(project, p[1..]) else EntryAt(before, p)
  }

  ghost function MarkedAt(before: Tree, project: Tree, id: Name, draft: bool, p: Path): Option<Entry> {
    if draft && p == Mark(id) then Some(File("active")) else PlaybookAt(before, project, id, p)
  }

  /** The profiles, skills and config of the project over what is there. */
  ghost function SharedAt(before: Tree, project: Tree, p: Path): Option<Entry> {
    if p == CONFIG && HasConfig(project) then Some(project[["config.yaml"]])
    else if IsDir(project, ["skills"]) && AtOrBelow(APB + ["skills"], p) then EntryAt(project, p[1..])
    else if IsDir(project, ["profiles"]) && AtOrBelow(APB + ["profiles"], p) then EntryAt(project, p[1..])
    else EntryAt(before, p)
  }

  /** What is at `p` once the definitions are copied over `before`. */
  ghost function DefinedAt(before: Tree, project: Tree, id: Name, draft: bool, p: Path): Option<Entry> {
    if p == CONFIG && HasConfig(project) then Some(project[["config.yaml"]])
    else if IsDir(project, ["skills"]) && AtOrBelow(APB + ["skills"], p) then EntryAt(project, p[1..])
    else if IsDir(project, ["profiles"]) && AtOrBelow(APB + ["profiles"], p) then EntryAt(project, p[1..])
    else MarkedAt(before, project, id, draft, p)
  }

  lemma PlaybookDirs(before: Tree, project: Tree, id: Name)
    requires IsDir(project, ["playbooks", id])
    ensures PlaybookAt(before, project, id, APB) == Some(Dir)
    ensures PlaybookAt(before, project, id, APB + ["playbooks"]) == Some(Dir)
    ensures PlaybookAt(before, project, id, APB + ["playbooks", id]) == Some(Dir)
  {
    var to := APB + ["playbooks", id];
    assert to[..2] == APB + ["playbooks"];
    assert AtOrBelow(APB, to) && !AtOrBelow(to, APB);
    assert to[1..] == ["playbooks", id];
  }

  lemma SubPut(t0: Tree, cleared: Tree, t: Tree, project: Tree, sub: Name, p: Path)
    requires EntryAt(cleared, p) == (if AtOrBelow(APB + [sub], p) then None else EntryAt(t0, p))
    requires IsDir(project, [sub]) && IsPut(cleared, t, project, [sub], APB + [sub], Sub(project, [sub]))
    ensures EntryAt(t, p) == SubAt(t0, project, sub, p)
  {
    var sel := Sub(project, [sub]);
    assert EntryAt(t, p) ==
           if Comes(sel, [sub], APB + [sub], p) then Some(project[Origin([sub], APB + [sub], p)])
           else EntryAt(cleared, p);
    if AtOrBelow(APB + [sub], p) {
      assert p == APB + [sub] + p[2..];
      assert p[1..] == [sub] + p[2..];
      assert AtOrBelow([sub], p[1..]);
    }
  }

  /** What is read of the ignore file; a failed read counts as an empty one. */
  function IgnoreText(there: Option<Entry>, texts: InitTexts): string {
    if !texts.read then ""
    else match there
      case None => ""
      case Some(File(c)) => c
      case Some(_) => texts.behind
  }

  /** The ignore file after `ensure_local_ignored`: a directory stays, a failed write
      changes nothing, and so does a text that misses no entry. */
  function IgnoredAt(there: Option<Entry>, texts: InitTexts): (r: Option<Entry>)
    ensures there.Some? ==> r.Some?
    ensures r.Some? && r.value.Dir? ==> there == r
    ensures there == Some(Dir) ==> r == there
  {
    var text := IgnoreText(there, texts);
    if there == Some(Dir) || !texts.written || IgnoreFile.Completed(text, texts.entries) == text then there
    else Some(File(IgnoreFile.Completed(text, texts.entries)))
  }

  lemma NextIsIgnored(there: Option<Entry>, texts: InitTexts, next: Option<string>)
    requires there != Some(Dir)
    requires var completed := IgnoreFile.Completed(IgnoreText(there, texts), texts.entries);
             if next.Some? then next.value == completed && completed != IgnoreText(there, texts)
             else completed == IgnoreText(there, texts)
    ensures IgnoredAt(there, texts) == if next.Some? && texts.written then Some(File(next.value)) else there
  {
  }

  /** What a reader of the ignore file finds in it. */
  function TextOf(e: Option<Entry>, texts: InitTexts): string {
    match e
    case Some(File(c)) => c
    case Some(Link(_)) => texts.behind
    case _ => ""
  }

  ghost function IgnoredBy(text: string): set<string> {
    IgnoreFile.Ignored(TextLines.Lines(text))
  }

  lemma WrittenIgnoreFile(there: Option<Entry>, texts: InitTexts)
    requires texts.written && texts.read && there != Some(Dir) && there != Some(Other)
    ensures TextOf(IgnoredAt(there, texts), texts) == IgnoreFile.Completed(TextOf(there, texts), texts.entries)
  {
    var text := TextOf(there, texts);
    assert IgnoreText(there, texts) == text;
    var completed := IgnoreFile.Completed(text, texts.entries);
    NextIsIgnored(there, texts, if completed == text then None else Some(completed));
  }

  /** Once the write works, every entry is ignored, what was ignored before still is, and
      the old text stands in front. */
  lemma IgnoreFileIsComplete(there: Option<Entry>, texts: InitTexts)
    requires IgnoreFile.AreLines(texts.entries) && texts.written && there != Some(Dir) && there != Some(Other)
    requires texts.read
    ensures var before, after := TextOf(there, texts), TextOf(IgnoredAt(there, texts), texts);
            before <= after && IgnoredBy(after) == IgnoredBy(before) + IgnoreFile.Ignored(texts.entries)
  {
    var before := TextOf(there, texts);
    WrittenIgnoreFile(there, texts);
    IgnoreFile.KeepsAndCompletes(before, texts.entries);
  }

  /** A file that does not read is replaced: only the entries are ignored then. */
  lemma UnreadIgnoreFileIsReplaced(there: Option<Entry>, texts: InitTexts)
    requires IgnoreFile.AreLines(texts.entries) && texts.entries != [] && texts.written && there != Some(Dir)
    requires !texts.read
    ensures var after := IgnoredAt(there, texts);
            after.Some? && after.value.File? && IgnoredBy(after.value.content) == IgnoreFile.Ignored(texts.entries)
  {
    IgnoreFile.FromNothing(texts.entries);
  }

  ghost function InitializedAt(before: Tree, texts: InitTexts, p: Path): Option<Entry> {
    if p == IGNORE then IgnoredAt(EntryAt(before, IGNORE), texts)
    else if p == CONFIG && p !in before then Some(File(texts.config))
    else if p in InitDirs() then Some(Dir)
    else EntryAt(before, p)
  }

  lemma Initialized(t0: Tree, t1: Tree, t2: Tree, t: Tree, texts: InitTexts, p: Path)
    requires EntryAt(t1, p) == if p in InitDirs() then Some(Dir) else EntryAt(t0, p)
    requires EntryAt(t2, p) == if p == CONFIG && CONFIG !in t1 then Some(File(texts.config)) else EntryAt(t1, p)
    requires EntryAt(t, p) == if p == IGNORE then IgnoredAt(EntryAt(t2, p), texts) else EntryAt(t2, p)
    ensures EntryAt(t, p) == InitializedAt(t0, texts, p)
  {
    assert forall d :: d in InitDirs() && |d| == 2 ==> d[1] in ["playbooks", "profiles", "runs"];
    assert CONFIG !in InitDirs() && IGNORE !in InitDirs();
  }

  function InitDirs(): set<Path> {
    {[], APB, APB + ["playbooks"], APB + ["profiles"], APB + ["runs"]}
  }

  lemma SharedFitsInit(before: Tree, t: Tree, project: Tree)
    requires SlotsFree(before) && DirFits(before, "playbooks")
    requires forall p :: EntryAt(t, p) == SharedAt(before, project, p)
    ensures IGNORE !in t && InitFits(t)
  {
    InitDirsDiffer();
    SlotsAreApart();
    SkillsAreApart();
    assert EntryAt(t, IGNORE) == EntryAt(before, IGNORE);
    assert EntryAt(t, APB + ["playbooks"]) == EntryAt(before, APB + ["playbooks"]);
    assert EntryAt(t, APB + ["runs"]) == EntryAt(before, APB + ["runs"]);
    assert EntryAt(t, APB + ["profiles"]) == SharedAt(before, project, APB + ["profiles"]);
    assert (APB + ["profiles"])[1..] == ["profiles"];
  }

  lemma SkillsAreApart()
    ensures forall sub :: sub in {"skills", "profiles"} ==>
              !AtOrBelow(APB + [sub], APB + ["playbooks"]) && !AtOrBelow(APB + [sub], APB + ["runs"])
    ensures !AtOrBelow(APB + ["skills"], APB + ["profiles"])
    ensures CONFIG !in {APB + ["playbooks"], APB + ["runs"], APB + ["profiles"]}
  {
    assert |"skills"| == 6 && |"profiles"| == 8 && |"playbooks"| == 9 && |"runs"| == 4 && |"config.yaml"| == 11;
    forall n: Name, m: Name ensures AtOrBelow(APB + [n], APB + [m]) <==> n == m {
      assert (APB + [m])[..2] == APB + [m] && (APB + [m])[1] == m && (APB + [n])[1] == n;
    }
    assert CONFIG[1] == "config.yaml";
    assert forall n: Name :: (APB + [n])[1] == n;
  }

  ghost predicate InitFits(t: Tree) {
    DirFits(t, "playbooks") && DirFits(t, "profiles") && DirFits(t, "runs")
  }

  predicate DirFits(t: Tree, n: Name) {
    APB + [n] in t ==> t[APB + [n]].Dir?
  }

  lemma DirFitsStill(t0: Tree, t1: Tree, n: Name, m: Name)
    requires APB + [n] != APB + [m]
    requires forall p :: EntryAt(t1, p) == if p == APB + [n] then Some(Dir) else EntryAt(t0, p)
    ensures DirFits(t1, m) <==> DirFits(t0, m)
  {
    assert EntryAt(t1, APB + [m]) == EntryAt(t0, APB + [m]);
  }

  lemma ThreeDirs(t0: Tree, t1: Tree, t2: Tree, t: Tree)
    requires IsDir(t0, []) && IsDir(t0, APB)
    requires forall p :: EntryAt(t1, p) == if p == APB + ["playbooks"] then Some(Dir) else EntryAt(t0, p)
    requires forall p :: EntryAt(t2, p) == if p == APB + ["profiles"] then Some(Dir) else EntryAt(t1, p)
    requires forall p :: EntryAt(t, p) == if p == APB + ["runs"] then Some(Dir) else EntryAt(t2, p)
    ensures forall p :: EntryAt(t, p) == if p in InitDirs() then Some(Dir) else EntryAt(t0, p)
  {
    forall p ensures EntryAt(t, p) == if p in InitDirs() then Some(Dir) else EntryAt(t0, p) {
      assert EntryAt(t0, []) == Some(Dir) && EntryAt(t0, APB) == Some(Dir);
    }
  }

  lemma InitDirsDiffer()
    ensures APB + ["playbooks"] != APB + ["profiles"] && APB + ["playbooks"] != APB + ["runs"]
    ensures APB + ["profiles"] != APB + ["runs"] && CONFIG !in InitDirs() && IGNORE !in InitDirs() && CONFIG != IGNORE
  {
    assert (APB + ["playbooks"])[1] == "playbooks" && (APB + ["profiles"])[1] == "profiles";
    assert (APB + ["runs"])[1] == "runs" && CONFIG[1] == "config.yaml" && IGNORE[1] == ".gitignore";
    assert |"playbooks"| == 9 && |"profiles"| == 8 && |"runs"| == 4 && |"config.yaml"| == 11 && |".gitignore"| == 10;
  }

  /** The paths under the project's `.apb` that a run may read: the playbook
      without its suite and without links at its top, the profiles, the skills
      and the config. */
  ghost predicate Copied(project: Tree, id: Name, q: Path) {
    && q in project
    && (|| (AtOrBelow(["playbooks", id], q)
            && (|q| > 2 ==> q[2] != EVALS && ["playbooks", id, q[2]] in project
                            && (project[["playbooks", id, q[2]]].Dir? || project[["playbooks", id, q[2]]].File?)))
        || (|q| > 0 && q[0] in ["profiles", "skills"] && IsDir(project, [q[0]]))
        || (q == ["config.yaml"] && project[q].File?))
  }

  /** What is under `.apb` of a materialized tree, path by path: independent of
      every fixture layer. */
  ghost function Expected(project: Tree, id: Name, draft: bool, texts: InitTexts, q: Path): Option<Entry> {
    if q == [".gitignore"] then IgnoredAt(None, texts)
    else if draft && q == ["playbooks", id, "lifecycle"] then Some(File("active"))
    else if Copied(project, id, q) then Some(project[q])
    else if q in [[], ["playbooks"], ["profiles"], ["runs"]] then Some(Dir)
    else if q == ["config.yaml"] then Some(File(texts.config))
    else None
  }

  /** One tree over another. */
  function Merged(below: Tree, layer: Option<Tree>): Tree {
    if layer.Some? then below + layer.value else below
  }

  /** The fixture can be copied over the archive, and the two together pass as one layer. */
  ghost predicate FixtureFits(base: Tree, fixture: Option<Tree>, unreadable: set<Path>,
                              canon: Path -> LayerCheck.Canonical)
  {
    var t := Merged(base, fixture);
    && (fixture.Some? ==> Copyable(base, fixture.value, unreadable, [], [], Sub(fixture.value, [])))
    && LayerCheck.LayerOk(t, true, canon)
    && (APB in t ==> t[APB].Dir?)
  }

  /** The change carries neither a `.git` nor an `.apb`, can be copied over the tree,
      and the two together pass. */
  ghost predicate ChangeFits(t: Tree, change: Tree, unreadable: set<Path>, canon: Path -> LayerCheck.Canonical) {
    && !GitSearch.HasGit(change) && APB !in change
    && Copyable(t, change, unreadable, [], [], Sub(change, []))
    && LayerCheck.LayerOk(Merged(t, Some(change)), false, canon)
  }

  /** The tree before the definitions: the layers and apb's own repository. */
  ghost function BuiltAt(archive: Option<Tree>, fixture: Option<Tree>, repository: Tree, p: Path): Option<Entry> {
    if p == [] then Some(Dir)
    else if AtOrBelow(APB, p) then None
    else if AtOrBelow(GIT, p) then EntryAt(repository, p[1..])
    else LayeredAt(archive, fixture, p)
  }

  /** apb's repository in place of both directories apb owns. */
  ghost function RepositoryAt(before: Tree, repository: Tree, p: Path): Option<Entry> {
    if AtOrBelow(GIT, p) then EntryAt(repository, p[1..])
    else if AtOrBelow(APB, p) then None
    else EntryAt(before, p)
  }

  ghost predicate IsBuilt(archive: Option<Tree>, fixture: Option<Tree>, repository: Tree, t: Tree) {
    forall p :: EntryAt(t, p) == BuiltAt(archive, fixture, repository, p)
  }

  /** The tree before the change. */
  ghost function ReadyAt(archive: Option<Tree>, fixture: Option<Tree>, repository: Tree,
                         project: Tree, id: Name, draft: bool, texts: InitTexts, p: Path): Option<Entry>
  {
    if AtOrBelow(APB, p) then Expected(project, id, draft, texts, p[1..]) else BuiltAt(archive, fixture, repository, p)
  }

  ghost predicate IsReady(archive: Option<Tree>, fixture: Option<Tree>, repository: Tree,
                          project: Tree, id: Name, draft: bool, texts: InitTexts, t: Tree)
  {
    forall p :: EntryAt(t, p) == ReadyAt(archive, fixture, repository, project, id, draft, texts, p)
  }

  lemma ReadyPart(archive: Option<Tree>, fixture: Option<Tree>, git: Git,
                  project: Tree, id: Name, draft: bool, texts: InitTexts, t0: Tree, t1: Tree, t: Tree, p: Path)
    requires EntryAt(t0, p) == BuiltAt(archive, fixture, git.init, p)
    requires AtOrBelow(APB, p) ==> EntryAt(t1, p) == Expected(project, id, draft, texts, p[1..])
    requires p != [] && !AtOrBelow(APB, p) ==> EntryAt(t1, p) == EntryAt(t0, p)
    requires WellFormed(t) && EntryAt(t, p) == GitAt(t1, git.committed, p)
    ensures EntryAt(t, p) == ReadyAt(archive, fixture, git.committed, project, id, draft, texts, p)
  {
    OwnAreApart();
  }

  lemma BuiltPart(archive: Option<Tree>, fixture: Option<Tree>, repository: Tree, layered: Tree, t: Tree, p: Path)
    requires WellFormed(t)
    requires layered == Merged(if archive.Some? then archive.value else map[[] := Dir], fixture)
    requires EntryAt(t, p) == RepositoryAt(layered, repository, p)
    ensures EntryAt(t, p) == BuiltAt(archive, fixture, repository, p)
  {
    if p != [] && !IsOwn(p) {
      assert EntryAt(layered, p) == LayeredAt(archive, fixture, p);
    }
  }

  lemma OneBuilt(archive: Option<Tree>, fixture: Option<Tree>, repository: Tree, t: Tree)
    requires IsBuilt(archive, fixture, repository, t)
    ensures forall u :: IsBuilt(archive, fixture, repository, u) ==> u == t
  {
    forall u | IsBuilt(archive, fixture, repository, u) ensures u == t {
      SameEntries(u, t);
    }
  }

  lemma OwnAreApart()
    ensures forall p :: AtOrBelow(APB, p) ==> !AtOrBelow(GIT, p)
  {
    forall p | AtOrBelow(APB, p) ensures !AtOrBelow(GIT, p) {
      assert p[..1][0] == ".apb" && GIT[0] == ".git";
    }
  }

  function GitAt(before: Tree, repository: Tree, p: Path): Option<Entry> {
    if AtOrBelow(GIT, p) then EntryAt(repository, p[1..]) else EntryAt(before, p)
  }

  function GitPaths(repository: Tree): set<Path> {
    set q | q in repository :: GIT + q
  }

  /** The new `.git` in place of the old one. */
  function WithGit(before: Tree, repository: Tree): Tree {
    map p | p in before.Keys + GitPaths(repository) && GitAt(before, repository, p).Some? ::
      GitAt(before, repository, p).value
  }

  lemma WithGitAt(before: Tree, repository: Tree, p: Path)
    ensures EntryAt(WithGit(before, repository), p) == GitAt(before, repository, p)
  {
    if AtOrBelow(GIT, p) && p[1..] in repository {
      assert p == GIT + p[1..] && p in GitPaths(repository);
    }
  }

  lemma WithGitIsWellFormed(before: Tree, repository: Tree)
    requires WellFormed(before) && WellFormed(repository)
    ensures WellFormed(WithGit(before, repository))
  {
    var t := WithGit(before, repository);
    WithGitAt(before, repository, []);
    forall p | p in t && p != [] ensures IsDir(t, Parent(p)) {
      WithGitAt(before, repository, p);
      WithGitAt(before, repository, Parent(p));
      ParentAcrossGit(p);
    }
  }

  /** A path below `.git` has its parent there, and any other path has it outside. */
  lemma ParentAcrossGit(p: Path)
    requires p != []
    ensures p != GIT && AtOrBelow(GIT, p) ==>
              AtOrBelow(GIT, Parent(p)) && p[1..] != [] && Parent(p)[1..] == Parent(p[1..])
    ensures p == GIT ==> Parent(p) == []
    ensures !AtOrBelow(GIT, p) ==> !AtOrBelow(GIT, Parent(p))
  {
    if |p| > 1 {
      assert Parent(p)[..1] == p[..1];
    }
  }

  lemma OneReady(archive: Option<Tree>, fixture: Option<Tree>, repository: Tree,
                 project: Tree, id: Name, draft: bool, texts: InitTexts, t: Tree)
    requires IsReady(archive, fixture, repository, project, id, draft, texts, t)
    ensures forall u :: IsReady(archive, fixture, repository, project, id, draft, texts, u) ==> u == t
  {
    forall u | IsReady(archive, fixture, repository, project, id, draft, texts, u) ensures u == t {
      SameEntries(u, t);
    }
  }

  /** The fixture fits, and apb's repository holds no special file. */
  ghost predicate LayersFit(archive: Option<Tree>, fixture: Option<Tree>, unreadable: set<Path>, repository: Tree,
                            canon: Path -> LayerCheck.Canonical)
  {
    && FixtureFits(if archive.Some? then archive.value else map[[] := Dir], fixture, unreadable, canon)
    && forall q :: q in repository ==> !repository[q].Other?
  }

  lemma LayerIsMerged(below: Tree, t: Tree, layer: Option<Tree>)
    requires layer.Some? ==> IsPut(below, t, layer.value, [], [], Sub(layer.value, []))
    requires layer.None? ==> t == below
    ensures t == Merged(below, layer)
  {
    if layer.Some? {
      assert Sub(layer.value, []) == layer.value.Keys;
      forall p ensures EntryAt(t, p) == EntryAt(below + layer.value, p) {
        assert Origin([], [], p) == p;
      }
      assert forall p :: p in t <==> EntryAt(t, p).Some?;
      assert forall p :: p in below + layer.value <==> EntryAt(below + layer.value, p).Some?;
      assert forall p :: p in t ==> EntryAt(t, p) == Some(t[p]);
    }
  }

  /** Where nothing is in the way, all but special files can be copied. */
  lemma RepositoryFits(t: Tree, repository: Tree)
    requires forall p :: AtOrBelow(GIT, p) ==> p !in t
    ensures Copyable(t, repository, {}, [], GIT, Sub(repository, [])) <==>
            forall q :: q in repository ==> !repository[q].Other?
  {
    assert Sub(repository, []) == repository.Keys;
    forall q | q in repository ensures EntryAt(t, Dest([], GIT, q)) == None {
      assert AtOrBelow(GIT, Dest([], GIT, q));
    }
  }

  lemma DirsAreReadable(t: Tree, src: Tree, unreadable: set<Path>)
    requires Copyable(t, src, unreadable, [], [], Sub(src, []))
    ensures forall d :: d in unreadable ==> !IsDir(src, d)
  {
    forall d | d in unreadable ensures !IsDir(src, d) {
      assert d in src ==> d in Sub(src, []) && AtOrBelow([], d);
    }
  }

  lemma RepositoryPut(t0: Tree, t: Tree, repository: Tree, p: Path)
    requires IsPut(t0, t, repository, [], GIT, Sub(repository, [])) && forall q :: AtOrBelow(GIT, q) ==> q !in t0
    ensures EntryAt(t, p) == if AtOrBelow(GIT, p) then EntryAt(repository, p[1..]) else EntryAt(t0, p)
  {
    assert Sub(repository, []) == repository.Keys;
    if AtOrBelow(GIT, p) {
      assert Origin([], GIT, p) == p[1..];
    }
  }

  /** Paths under `.apb` compare as the paths relative to it do. */
  lemma Shifted(a: Path, q: Path)
    ensures AtOrBelow(APB + a, APB + q) <==> AtOrBelow(a, q)
    ensures APB + a == APB + q <==> a == q
  {
    assert (APB + a)[1..] == a && (APB + q)[1..] == q;
    if |a| <= |q| {
      assert (APB + q)[..|a| + 1] == APB + q[..|a|];
      assert (APB + q[..|a|])[1..] == q[..|a|];
    }
  }

  /** The definitions as the closed description gives them, before the project init. */
  ghost function CopiedAt(project: Tree, id: Name, draft: bool, q: Path): Option<Entry> {
    if draft && q == ["playbooks", id, "lifecycle"] then Some(File("active"))
    else if Copied(project, id, q) then Some(project[q])
    else if q in [[], ["playbooks"]] then Some(Dir)
    else None
  }

  lemma PlaybookPart(before: Tree, project: Tree, id: Name, q: Path)
    requires APB + q !in before && IsDir(project, ["playbooks", id])
    requires q == [] || q[0] == "playbooks"
    ensures PlaybookAt(before, project, id, APB + q) ==
            if Copied(project, id, q) then Some(project[q])
            else if q in [[], ["playbooks"]] then Some(Dir) else None
  {
    var from := ["playbooks", id];
    Shifted(from, q);
    Shifted(q, from);
    assert (APB + q)[1..] == q;
    assert from[..0] == [] && from[..1] == ["playbooks"] && from[..2] == from;
    assert AtOrBelow(q, from) <==> q in [[], ["playbooks"], from];
    assert AtOrBelow(APB + q, APB + from) <==> AtOrBelow(q, from);
    if |q| > 2 && AtOrBelow(from, q) {
      NamesAreChildren(project, from, q[2]);
      assert from + [q[2]] == ["playbooks", id, q[2]];
    }
  }

  lemma OtherPart(before: Tree, project: Tree, id: Name, q: Path)
    requires APB + q !in before && q != [] && q[0] != "playbooks"
    ensures PlaybookAt(before, project, id, APB + q) == None
  {
    var from := ["playbooks", id];
    Shifted(from, q);
    Shifted(q, from);
    assert |q| <= 2 ==> from[..|q|][0] == "playbooks";
    assert |q| >= 2 ==> q[..2][0] == q[0];
  }

  lemma SubPart(project: Tree, sub: Name, q: Path)
    requires WellFormed(project) && q != []
    ensures AtOrBelow(APB + [sub], APB + q) <==> q[0] == sub
    ensures q[0] == sub && q in project && !IsDir(project, [sub]) ==> q == [sub]
  {
    Shifted([sub], q);
    assert q[..1] == [q[0]];
    if q in project && |q| > 1 {
      AncestorsAreDirs(project, q, 1);
    }
  }

  lemma DefinitionsAreCopied(before: Tree, project: Tree, id: Name, draft: bool, q: Path)
    requires APB + q !in before && IsDir(project, ["playbooks", id]) && WellFormed(project)
    ensures DefinedAt(before, project, id, draft, APB + q) == CopiedAt(project, id, draft, q)
  {
    Shifted(["config.yaml"], q);
    Shifted(["playbooks", id, "lifecycle"], q);
    assert CONFIG == APB + ["config.yaml"] && Mark(id) == APB + ["playbooks", id, "lifecycle"];
    assert (APB + q)[1..] == q;
    if q == [] {
      PlaybookPart(before, project, id, q);
    } else {
      SubPart(project, "skills", q);
      SubPart(project, "profiles", q);
      assert q[0] != "playbooks" ==> !AtOrBelow(["playbooks", id], q) by {
        assert |q| >= 2 ==> q[..2][0] == q[0];
      }
      if q[0] == "playbooks" {
        PlaybookPart(before, project, id, q);
      } else {
        OtherPart(before, project, id, q);
      }
    }
  }

  lemma OnlyTheProject(t0: Tree, t1: Tree, t: Tree, project: Tree, id: Name, draft: bool, texts: InitTexts, p: Path)
    requires AtOrBelow(APB, p) && p !in t0 && IsDir(project, ["playbooks", id]) && WellFormed(project)
    requires EntryAt(t1, p) == DefinedAt(t0, project, id, draft, p)
    requires EntryAt(t, p) == InitializedAt(t1, texts, p)
    ensures EntryAt(t, p) == Expected(project, id, draft, texts, p[1..])
  {
    var q := p[1..];
    assert p == APB + q;
    DefinitionsAreCopied(t0, project, id, draft, q);
    InitAfterCopy(t1, project, id, draft, texts, q);
  }

  lemma InitAfterCopy(t1: Tree, project: Tree, id: Name, draft: bool, texts: InitTexts, q: Path)
    requires EntryAt(t1, APB + q) == CopiedAt(project, id, draft, q) && WellFormed(project)
    ensures InitializedAt(t1, texts, APB + q) == Expected(project, id, draft, texts, q)
  {
    Shifted([".gitignore"], q);
    Shifted(["config.yaml"], q);
    InitDirsShifted(q);
    if q == ["config.yaml"] {
      assert !AtOrBelow(["playbooks", id], q);
    }
  }

  lemma InitDirsShifted(q: Path)
    ensures APB + q in InitDirs() <==> q in [[], ["playbooks"], ["profiles"], ["runs"]]
  {
    Shifted(["playbooks"], q);
    Shifted(["profiles"], q);
    Shifted(["runs"], q);
    Shifted([], q);
    assert APB + [] == APB;
  }

  lemma OutsideStays(t0: Tree, t1: Tree, t: Tree, project: Tree, id: Name, draft: bool, texts: InitTexts, p: Path)
    requires p != [] && !AtOrBelow(APB, p)
    requires EntryAt(t1, p) == DefinedAt(t0, project, id, draft, p)
    requires EntryAt(t, p) == InitializedAt(t1, texts, p)
    ensures EntryAt(t, p) == EntryAt(t0, p)
  {
    assert p[..1] == [p[0]];
    assert forall a: Path :: a != [] && a[0] == ".apb" ==> !AtOrBelow(a, p) && !AtOrBelow(p, a) && a != p by {
      forall a: Path | a != [] && a[0] == ".apb" ensures !AtOrBelow(a, p) && !AtOrBelow(p, a) && a != p {
        assert |a| <= |p| ==> p[..|a|][0] == p[0];
        assert |p| <= |a| ==> a[..|p|][0] == a[0];
      }
    }
  }

  lemma NothingBelowNothing(t: Tree, path: Path)
    requires WellFormed(t) && path !in t
    ensures forall p :: AtOrBelow(path, p) ==> p !in t
  {
    forall p | AtOrBelow(path, p) ensures p !in t {
      assert |p| == |path| ==> p == path;
      if p in t && |p| > |path| {
        AncestorsAreDirs(t, p, |path|);
      }
    }
  }

  ghost predicate KeepsDirs(before: Tree, after: Tree) {
    forall p :: IsDir(before, p) ==> IsDir(after, p)
  }

  /** Making the destination directory is part of the copy. */
  lemma MadeIsCopyable(t: Tree, src: Tree, unreadable: set<Path>, from: Path, to: Path)
    requires IsDir(src, from) && from !in unreadable && (to in t ==> t[to].Dir?)
    ensures Copyable(t[to := Dir], src, unreadable, from, to, Sub(src, from)) <==>
            Copyable(t, src, unreadable, from, to, Sub(src, from))
  {
    forall q | q in Sub(src, from)
      ensures MayCopy(EntryAt(t[to := Dir], Dest(from, to, q)), src[q], q !in unreadable) <==>
              MayCopy(EntryAt(t, Dest(from, to, q)), src[q], q !in unreadable)
    {
      if Dest(from, to, q) == to {
        assert |q| == |from| && q == from;
      }
    }
  }

  /** What was copied next to a part changes nothing where that part goes. */
  lemma SiblingsKeepCopyable(t0: Tree, t: Tree, src: Tree, unreadable: set<Path>, from: Path, to: Path,
                             seen: set<Name>, n: Name)
    requires IsPut(t0, t, src, from, to, Done(src, from, seen)) && n !in seen
    ensures Copyable(t, src, unreadable, from, to, Sub(src, from + [n])) <==>
            Copyable(t0, src, unreadable, from, to, Sub(src, from + [n]))
  {
    forall q | q in Sub(src, from + [n]) && AtOrBelow(from, q)
      ensures EntryAt(t, Dest(from, to, q)) == EntryAt(t0, Dest(from, to, q))
    {
      var d := Dest(from, to, q);
      assert q[..|from| + 1][|from|] == n;
      assert d[..|to|] == to && d[|to|..] == q[|from|..];
      assert Origin(from, to, d) == q[..|from|] + q[|from|..] == q;
    }
  }

  /** The named entries of `from` are copied, and could be. */
  ghost predicate Copying(t0: Tree, t: Tree, src: Tree, unreadable: set<Path>, from: Path, to: Path, seen: set<Name>) {
    && IsPut(t0, t, src, from, to, Done(src, from, seen))
    && Copyable(t0, src, unreadable, from, to, Done(src, from, seen))
  }

  lemma CopyBegins(t: Tree, src: Tree, unreadable: set<Path>, from: Path, to: Path)
    requires IsDir(src, from) && from !in unreadable && IsDir(t, to)
    ensures Copying(t, t, src, unreadable, from, to, {})
  {
    RootIsPut(t, src, from, to);
    assert t[to := Dir] == t && Dest(from, to, from) == to;
  }

  /** One more entry copied. */
  lemma OneMoreCopied(t0: Tree, t1: Tree, t2: Tree, src: Tree, unreadable: set<Path>, from: Path, to: Path,
                      seen: set<Name>, n: Name)
    requires IsPut(t0, t1, src, from, to, Done(src, from, seen)) && IsPut(t1, t2, src, from, to, Sub(src, from + [n]))
    requires Copyable(t0, src, unreadable, from, to, Done(src, from, seen))
    requires Copyable(t0, src, unreadable, from, to, Sub(src, from + [n]))
    ensures IsPut(t0, t2, src, from, to, Done(src, from, seen + {n}))
    ensures Copyable(t0, src, unreadable, from, to, Done(src, from, seen + {n}))
  {
    PutsAddUp(t0, t1, t2, src, from, to, Done(src, from, seen), Sub(src, from + [n]));
    DoneGrows(src, from, seen, n);
  }

  lemma PartIsNotCopyable(t: Tree, src: Tree, unreadable: set<Path>, from: Path, to: Path, n: Name)
    requires !Copyable(t, src, unreadable, from, to, Sub(src, from + [n]))
    ensures !Copyable(t, src, unreadable, from, to, Sub(src, from))
  {
    DoneGrows(src, from, {}, n);
  }

  /** One entry of a directory, seen from the directory and from itself. */
  lemma CopyableFromAbove(t: Tree, src: Tree, unreadable: set<Path>, from: Path, to: Path, n: Name)
    requires WellFormed(src) && from + [n] in src
    ensures Copyable(t, src, unreadable, from, to, Sub(src, from + [n])) <==>
            Copyable(t, src, unreadable, from + [n], to + [n], Sub(src, from + [n]))
    ensures !src[from + [n]].Dir? ==>
              (Copyable(t, src, unreadable, from, to, Sub(src, from + [n])) <==>
               MayCopy(EntryAt(t, to + [n]), src[from + [n]], from + [n] !in unreadable))
  {
    var c := from + [n];
    forall q | q in Sub(src, c)
      ensures AtOrBelow(from, q) && Dest(from, to, q) == Dest(c, to + [n], q)
    {
      assert q[..|c|][..|from|] == q[..|from|] && c[..|from|] == from;
      assert q[..|c|][|from|] == n;
      assert q[|from|..] == [n] + q[|c|..];
    }
    assert Dest(c, to + [n], c) == to + [n];
    if !src[c].Dir? {
      LeafIsAlone(src, c);
    }
  }

  /** Making the destination directory copies `from` itself. */
  lemma RootIsPut(t: Tree, src: Tree, from: Path, to: Path)
    requires IsDir(src, from)
    ensures IsPut(t, t[to := Dir], src, from, to, {from}) && Done(src, from, {}) == {from}
  {
    assert Done(src, from, {}) == {from};
    forall p ensures Comes({from}, from, to, p) <==> p == to {
      if AtOrBelow(to, p) && from + p[|to|..] == from {
        assert |p[|to|..]| == 0;
      }
    }
  }
}
