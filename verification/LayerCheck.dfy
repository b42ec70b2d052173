/**
 A directory tree as a finite map from paths (relative to its root) to what is
 there, without following any link.
 */
module Trees {

  type Name = string
  type Path = seq<Name>

  datatype Component = Up | Here | To(name: Name)
  datatype Target = Absolute(components: seq<Component>) | Relative(components: seq<Component>)
  datatype Entry = File(content: string) | Link(target: Target) | Dir | Other

  type Tree = map<Path, Entry>

  function Parent(p: Path): Path
    requires p != []
  {
    p[..|p| - 1]
  }

  function Last(p: Path): Name
    requires p != []
  {
    p[|p| - 1]
  }

  /** `q` is `p` or lies below it. */
  predicate AtOrBelow(p: Path, q: Path) {
    |p| <= |q| && q[..|p|] == p
  }

  predicate Below(p: Path, q: Path) {
    |p| < |q| && q[..|p|] == p
  }

  predicate IsDir(t: Tree, p: Path) {
    p in t && t[p].Dir?
  }

  /** Every entry lies in a directory of the tree. */
  ghost predicate WellFormed(t: Tree) {
    IsDir(t, []) && forall p :: p in t && p != [] ==> IsDir(t, Parent(p))
  }

  /** The entries of directory `d`. */
  function Children(t: Tree, d: Path): set<Path> {
    set p | p in t && p != [] && Parent(p) == d
  }

  /** The names `read_dir` gives for `d`, in no particular order. */
  function Names(t: Tree, d: Path): set<Name> {
    set p | p in t && p != [] && Parent(p) == d :: Last(p)
  }

  lemma NamesAreChildren(t: Tree, d: Path, n: Name)
    ensures n in Names(t, d) <==> d + [n] in t
  {
    if d + [n] in t {
      assert Parent(d + [n]) == d && Last(d + [n]) == n;
    }
    if n in Names(t, d) {
      var p :| p in t && p != [] && Parent(p) == d && Last(p) == n;
      assert p == d + [n];
    }
  }

  /** Every directory on the way to an entry is there. */
  lemma {:induction false} AncestorsAreDirs(t: Tree, p: Path, k: nat)
    requires WellFormed(t) && p in t && k < |p|
    ensures IsDir(t, p[..k])
    decreases |p|
  {
    if k < |p| - 1 {
      AncestorsAreDirs(t, Parent(p), k);
      assert Parent(p)[..k] == p[..k];
    }
  }
}

/**
 The check of a layer: `check_layer` and `link_stays_inside`
 (crates/apb-cli/src/eval.rs).
 */
module LayerCheck {
  import opened Options
  import opened Trees

  /** What `canonicalize` says about a link's target: it exists, inside the tree
      or not, or it does not exist. */
  datatype Canonical = Exists(inside: bool) | Dangling

  // ------------------------------------------------------ lexical resolution

  /** Where a relative target leads from `dir`, keeping the directory as a stack
      of names; `None` when it would leave the tree root. */
  function Resolve(dir: Path, target: seq<Component>): Option<Path>
    decreases |target|
  {
    if target == [] then Some(dir)
    else match target[0]
      case Up => if dir == [] then None else Resolve(Parent(dir), target[1..])
      case Here => Resolve(dir, target[1..])
      case To(n) => Resolve(dir + [n], target[1..])
  }

  /** The depth after a part of the target, and whether it was ever negative:
      the counter of `link_stays_inside`. */
  method DepthStaysInside(dir: Path, target: seq<Component>) returns (ok: bool)
    ensures ok <==> Resolve(dir, target).Some?
  {
    var depth: int := |dir|;
    ok := true;
    ghost var at := Some(dir);
    assert target[0..] == target;
    for k := 0 to |target|
      invariant ok <==> at.Some?
      invariant ok ==> depth == |at.value| && Resolve(dir, target) == Resolve(at.value, target[k..])
      invariant !ok ==> Resolve(dir, target).None?
    {
      assert target[k..][0] == target[k] && target[k..][1..] == target[k + 1..];
      match target[k] {
        case Up =>
          depth := depth - 1;
          at := if at.Some? && at.value != [] then Some(Parent(at.value)) else None;
        case To(n) =>
          depth := depth + 1;
          at := if at.Some? then Some(at.value + [n]) else None;
        case Here =>
      }
      if depth < 0 {
        ok := false;
      }
    }
  }

  // ------------------------------------------------------------ check_layer

  /** A link at `p` that neither is absolute nor leads out of the tree. */
  predicate LinkStaysInside(p: Path, target: Target, canon: Canonical)
    requires p != []
  {
    && target.Relative?
    && match canon
       case Exists(inside) => inside
       case Dangling => Resolve(Parent(p), target.components).Some?
  }

  predicate EntryOk(p: Path, e: Entry, fixture: bool, canon: Path -> Canonical)
    requires p != []
  {
    && (fixture ==> Last(p) != ".git")
    && (e.Link? ==> !(fixture && p[0] == ".apb") && LinkStaysInside(p, e.target, canon(p)))
  }

  /** The repository apb created at the root is its own. */
  predicate Looked(p: Path) {
    !(|p| > 1 && p[0] == ".git")
  }

  predicate Entered(d: Path) {
    d == [] || d[0] != ".git"
  }

  /** What the walk is for: no absolute or escaping link anywhere, and in a
      fixture no `.git` at all and no link at or below `.apb`. */
  ghost predicate LayerOk(t: Tree, fixture: bool, canon: Path -> Canonical) {
    forall p :: p in t && p != [] && Looked(p) ==> EntryOk(p, t[p], fixture, canon)
  }

  /** What an accepted fixture is, entry by entry: nothing is named `.git` anywhere, no
      entry of `.apb` is a link, and every link is relative and stays inside. */
  ghost predicate CleanFixture(t: Tree, canon: Path -> Canonical) {
    && (forall p, k :: p in t && 0 <= k < |p| ==> p[k] != ".git")
    && (forall p :: p in t && p != [] && p[0] == ".apb" ==> !t[p].Link?)
    && (forall p :: p in t && p != [] && t[p].Link? ==>
          && !t[p].target.Absolute?
          && canon(p) != Exists(false)
          && (canon(p).Dangling? ==> Resolve(Parent(p), t[p].target.components).Some?))
  }

  lemma AcceptedFixtureIsClean(t: Tree, canon: Path -> Canonical)
    requires WellFormed(t)
    ensures LayerOk(t, true, canon) <==> CleanFixture(t, canon)
  {
    if LayerOk(t, true, canon) {
      forall p, k | p in t && 0 <= k < |p| ensures p[k] != ".git" {
        NothingIsNamedGit(t, canon, p, k);
      }
      forall p | p in t && p != [] ensures Looked(p) {
        assert p[0] != ".git";
      }
    }
    if CleanFixture(t, canon) {
      forall p | p in t && p != [] && Looked(p) ensures EntryOk(p, t[p], true, canon) {
        assert Last(p) == p[|p| - 1] != ".git";
      }
    }
  }

  lemma {:induction false} NothingIsNamedGit(t: Tree, canon: Path -> Canonical, p: Path, k: nat)
    requires WellFormed(t) && LayerOk(t, true, canon) && p in t && k < |p|
    ensures p[k] != ".git"
    decreases k
  {
    if k > 0 {
      NothingIsNamedGit(t, canon, p, 0);
    }
    var q := p[..k + 1];
    if k + 1 < |p| {
      AncestorsAreDirs(t, p, k + 1);
    } else {
      assert q == p;
    }
    assert Last(q) == p[k] && q[0] == p[0];
    assert Looked(q);
    assert EntryOk(q, t[q], true, canon);
  }

  /** In a change every link is checked as well, below the repository apb made. */
  lemma AcceptedLinksAreFit(t: Tree, fixture: bool, canon: Path -> Canonical, p: Path)
    requires LayerOk(t, fixture, canon) && p in t && p != [] && t[p].Link? && (p[0] == ".git" ==> |p| == 1)
    ensures t[p].target.Relative? && canon(p) != Exists(false)
    ensures canon(p).Dangling? ==> Resolve(Parent(p), t[p].target.components).Some?
  {
    assert Looked(p);
  }

  method EntryAccepted(p: Path, e: Entry, fixture: bool, canon: Path -> Canonical) returns (ok: bool)
    requires p != []
    ensures ok <==> EntryOk(p, e, fixture, canon)
  {
    if fixture && Last(p) == ".git" {
      return false;
    }
    if !e.Link? {
      return true;
    }
    if fixture && p[0] == ".apb" {
      return false;
    }
    if e.target.Absolute? {
      return false;
    }
    match canon(p)
    case Exists(inside) => return inside;
    case Dangling =>
      ok := DepthStaysInside(Parent(p), e.target.components);
  }

  /** The entries not seen yet: those below a directory on the stack. */
  ghost function Pending(t: Tree, stack: seq<Path>): set<Path> {
    set p | p in t && exists k :: 0 <= k < |stack| && Below(stack[k], p)
  }

  /** No directory of the stack lies at or below another. */
  ghost predicate Apart(stack: seq<Path>) {
    forall i, j :: 0 <= i < |stack| && 0 <= j < |stack| && i != j ==> !AtOrBelow(stack[i], stack[j])
  }

  /** `dirs` are the directories in `dir` the walk goes into. */
  ghost predicate Subdirs(t: Tree, dir: Path, dirs: seq<Path>) {
    && (forall k :: 0 <= k < |dirs| ==>
          dirs[k] != [] && Parent(dirs[k]) == dir && IsDir(t, dirs[k]) && dirs[k] != [".git"])
    && (forall i, j :: 0 <= i < j < |dirs| ==> dirs[i] != dirs[j])
    && (forall p :: p in Children(t, dir) && IsDir(t, p) && p != [".git"] ==> p in dirs)
  }

  /** The same for the entries already listed; `left` are not. */
  ghost predicate PartSubdirs(t: Tree, dir: Path, left: set<Path>, dirs: seq<Path>) {
    && (forall k :: 0 <= k < |dirs| ==>
          dirs[k] != [] && Parent(dirs[k]) == dir && dirs[k] !in left && IsDir(t, dirs[k]) && dirs[k] != [".git"])
    && (forall i, j :: 0 <= i < j < |dirs| ==> dirs[i] != dirs[j])
    && (forall p :: p in Children(t, dir) && p !in left && IsDir(t, p) && p != [".git"] ==> p in dirs)
  }

  lemma PartSubdirsGrow(t: Tree, dir: Path, left: set<Path>, dirs: seq<Path>, p: Path)
    requires PartSubdirs(t, dir, left, dirs) && p in left && p in Children(t, dir)
    ensures PartSubdirs(t, dir, left - {p}, if t[p].Dir? && p != [".git"] then dirs + [p] else dirs)
  {
  }

  lemma StackStaysApart(t: Tree, rest: seq<Path>, dir: Path, dirs: seq<Path>)
    requires Apart(rest + [dir]) && Subdirs(t, dir, dirs)
    ensures Apart(rest + dirs)
  {
    var before, stack := rest + [dir], rest + dirs;
    forall i, j | 0 <= i < |stack| && 0 <= j < |stack| && i != j ensures !AtOrBelow(stack[i], stack[j]) {
      assert i < |rest| ==> before[i] == stack[i] && !AtOrBelow(before[i], dir) && !AtOrBelow(dir, before[i]) by {
        assert before[|rest|] == dir;
      }
      assert j < |rest| ==> before[j] == stack[j] && !AtOrBelow(before[j], dir) && !AtOrBelow(dir, before[j]) by {
        assert before[|rest|] == dir;
      }
      assert i >= |rest| ==> stack[i][..|dir|] == dir;
      assert j >= |rest| ==> stack[j][..|dir|] == dir;
      assert |stack[i]| <= |dir| <= |stack[j]| ==> stack[j][..|dir|][..|stack[i]|] == stack[j][..|stack[i]|];
      assert |dir| <= |stack[i]| <= |stack[j]| ==> stack[j][..|stack[i]|][..|dir|] == stack[j][..|dir|];
    }
  }

  /** Nothing the new stack still has to look at is a child of `dir`. */
  lemma ChildrenAreDone(t: Tree, rest: seq<Path>, dir: Path, dirs: seq<Path>, c: Path)
    requires Apart(rest + [dir]) && Subdirs(t, dir, dirs) && c != [] && Parent(c) == dir
    ensures c !in Pending(t, rest + dirs)
  {
    var before, stack := rest + [dir], rest + dirs;
    forall k | 0 <= k < |stack| ensures !Below(stack[k], c) {
      if k < |rest| {
        assert !AtOrBelow(before[k], before[|rest|]);
        assert |stack[k]| <= |dir| ==> c[..|stack[k]|] == dir[..|stack[k]|];
      }
    }
  }

  lemma PendingOnlyShrinks(t: Tree, rest: seq<Path>, dir: Path, dirs: seq<Path>)
    requires Subdirs(t, dir, dirs)
    ensures Pending(t, rest + dirs) <= Pending(t, rest + [dir])
  {
    var before, stack := rest + [dir], rest + dirs;
    forall p | p in Pending(t, stack) ensures p in Pending(t, before) {
      var k :| 0 <= k < |stack| && Below(stack[k], p);
      if k < |rest| {
        assert Below(before[k], p);
      } else {
        assert p[..|stack[k]|][..|dir|] == p[..|dir|];
        assert Below(before[|rest|], p);
      }
    }
  }

  lemma SubsetIsSmaller<T>(a: set<T>, b: set<T>)
    requires a <= b
    ensures |a| <= |b|
  {
    assert b == a + (b - a);
  }

  /** Fewer entries are pending, or no more with a shorter stack. */
  lemma WalkEnds(t: Tree, rest: seq<Path>, dir: Path, dirs: seq<Path>)
    requires Apart(rest + [dir]) && Subdirs(t, dir, dirs)
    ensures |Pending(t, rest + dirs)| <= |Pending(t, rest + [dir])|
    ensures dirs != [] ==> |Pending(t, rest + dirs)| < |Pending(t, rest + [dir])|
  {
    PendingOnlyShrinks(t, rest, dir, dirs);
    SubsetIsSmaller(Pending(t, rest + dirs), Pending(t, rest + [dir]));
    if dirs != [] {
      var before := rest + [dir];
      assert Below(before[|rest|], dirs[0]);
      ChildrenAreDone(t, rest, dir, dirs, dirs[0]);
      SubsetIsSmaller(Pending(t, rest + dirs), Pending(t, rest + [dir]) - {dirs[0]});
    }
  }

  /** An entry deeper than a child of `dir` is still to be looked at. */
  lemma DeeperIsPending(t: Tree, rest: seq<Path>, dir: Path, dirs: seq<Path>, p: Path)
    requires WellFormed(t) && Subdirs(t, dir, dirs) && p in t && Looked(p) && |p| > |dir| + 1 && Below(dir, p)
    ensures p in Pending(t, rest + dirs)
  {
    AncestorsAreDirs(t, p, |dir| + 1);
    var c := p[..|dir| + 1];
    assert Parent(c) == p[..|dir|] == dir;
    assert c in Children(t, dir);
    assert c[0] == p[0];
    var j :| 0 <= j < |dirs| && dirs[j] == c;
    assert (rest + dirs)[|rest| + j] == c && Below(c, p);
  }

  /** Every entry is looked at: what is no longer pending is a child of `dir`. */
  lemma OnlyChildrenLeave(t: Tree, rest: seq<Path>, dir: Path, dirs: seq<Path>, p: Path)
    requires WellFormed(t) && Subdirs(t, dir, dirs) && Looked(p)
    requires p in Pending(t, rest + [dir]) && p !in Pending(t, rest + dirs)
    ensures p in Children(t, dir)
  {
    var before, stack := rest + [dir], rest + dirs;
    var k :| 0 <= k < |before| && Below(before[k], p);
    assert forall j :: 0 <= j < |rest| ==> before[j] == stack[j] && !Below(stack[j], p);
    assert k == |rest| && Below(dir, p);
    if |p| > |dir| + 1 {
      DeeperIsPending(t, rest, dir, dirs, p);
    }
    assert Parent(p) == p[..|dir|] == dir;
  }

  /** The body of the walk for one directory. */
  method LookAt(t: Tree, dir: Path, fixture: bool, canon: Path -> Canonical) returns (ok: bool, dirs: seq<Path>)
    ensures ok <==> forall p :: p in Children(t, dir) ==> EntryOk(p, t[p], fixture, canon)
    ensures ok ==> Subdirs(t, dir, dirs)
  {
    var left := Children(t, dir);
    ok, dirs := true, [];
    while left != {}
      invariant left <= Children(t, dir)
      invariant PartSubdirs(t, dir, left, dirs)
      invariant forall p :: p in Children(t, dir) && p !in left ==> EntryOk(p, t[p], fixture, canon)
    {
      var p :| p in left;
      ok := EntryAccepted(p, t[p], fixture, canon);
      if !ok {
        return;
      }
      PartSubdirsGrow(t, dir, left, dirs, p);
      if t[p].Dir? && !(dir == [] && Last(p) == ".git") {
        dirs := dirs + [p];
      }
      left := left - {p};
    }
  }

  lemma ChildIsLooked(dir: Path, p: Path)
    requires p != [] && Parent(p) == dir && Entered(dir)
    ensures Looked(p)
  {
    assert |p| > 1 ==> dir[0] == p[0];
  }

  /** What the walk knows: the directories still to enter do not overlap, and all that
      is not below them is fine. */
  ghost predicate WalkInv(t: Tree, stack: seq<Path>, fixture: bool, canon: Path -> Canonical) {
    && (forall k :: 0 <= k < |stack| ==> Entered(stack[k]))
    && Apart(stack)
    && forall p :: p in t && p != [] && Looked(p) && p !in Pending(t, stack) ==> EntryOk(p, t[p], fixture, canon)
  }

  lemma RootIsPending(t: Tree)
    ensures forall p :: p in t && p != [] ==> p in Pending(t, [[]])
  {
    var stack: seq<Path> := [[]];
    forall p | p in t && p != [] ensures p in Pending(t, stack) {
      assert Below(stack[0], p);
    }
  }

  lemma WalkBegins(t: Tree, fixture: bool, canon: Path -> Canonical)
    ensures WalkInv(t, [[]], fixture, canon)
  {
    RootIsPending(t);
  }

  function Top(stack: seq<Path>): Path
    requires stack != []
  {
    stack[|stack| - 1]
  }

  /** The stack without its last directory, and with the directories in that one. */
  function Next(stack: seq<Path>, dirs: seq<Path>): seq<Path>
    requires stack != []
  {
    stack[..|stack| - 1] + dirs
  }

  /** The measure of the walk goes down. */
  ghost predicate Nearer(t: Tree, before: seq<Path>, after: seq<Path>) {
    || |Pending(t, after)| < |Pending(t, before)|
    || (|Pending(t, after)| == |Pending(t, before)| && |after| < |before|)
  }

  lemma WalkAdvances(t: Tree, before: seq<Path>, dirs: seq<Path>, fixture: bool, canon: Path -> Canonical)
    requires before != [] && WellFormed(t) && WalkInv(t, before, fixture, canon) && Subdirs(t, Top(before), dirs)
    requires forall p :: p in Children(t, Top(before)) ==> EntryOk(p, t[p], fixture, canon)
    ensures WalkInv(t, Next(before, dirs), fixture, canon)
    ensures Nearer(t, before, Next(before, dirs))
  {
    var dir, rest := Top(before), before[..|before| - 1];
    var stack := rest + dirs;
    assert before == rest + [dir];
    StackStaysApart(t, rest, dir, dirs);
    WalkEnds(t, rest, dir, dirs);
    forall k | 0 <= k < |stack| ensures Entered(stack[k]) {
      assert k < |rest| ==> stack[k] == before[k];
      assert before[|rest|] == dir;
      assert k >= |rest| && dir != [] ==> stack[k][0] == dir[0];
    }
    forall p | p in t && p != [] && Looked(p) && p !in Pending(t, stack) ensures EntryOk(p, t[p], fixture, canon) {
      if p in Pending(t, before) {
        OnlyChildrenLeave(t, rest, dir, dirs, p);
      }
    }
  }

  /** Every directory the walk enters reads. */
  ghost predicate LayerReads(t: Tree, unreadable: set<Path>) {
    forall d :: d in unreadable && IsDir(t, d) ==> !Entered(d)
  }

  /** The directories entered so far read. */
  ghost predicate ReadSoFar(t: Tree, unreadable: set<Path>, stack: seq<Path>) {
    && (forall k :: 0 <= k < |stack| ==> IsDir(t, stack[k]))
    && forall d :: d in unreadable && IsDir(t, d) && Entered(d) && d !in stack ==> d in Pending(t, stack)
  }

  lemma ReadAdvances(t: Tree, unreadable: set<Path>, before: seq<Path>, dirs: seq<Path>)
    requires before != [] && WellFormed(t) && ReadSoFar(t, unreadable, before) && Apart(before)
    requires Subdirs(t, Top(before), dirs) && Top(before) !in unreadable
    ensures ReadSoFar(t, unreadable, Next(before, dirs))
  {
    var dir, rest := Top(before), before[..|before| - 1];
    var stack := rest + dirs;
    assert before == rest + [dir];
    assert before[|rest|] == dir;
    forall d | d in unreadable && IsDir(t, d) && Entered(d) && d !in Pending(t, stack) ensures d in stack {
      StaysOrIsEntered(t, unreadable, rest, dir, dirs, d);
    }
  }

  /** A directory that does not read and is not pending any more is on the stack. */
  lemma StaysOrIsEntered(t: Tree, unreadable: set<Path>, rest: seq<Path>, dir: Path, dirs: seq<Path>, d: Path)
    requires WellFormed(t) && ReadSoFar(t, unreadable, rest + [dir]) && Apart(rest + [dir])
    requires Subdirs(t, dir, dirs) && dir !in unreadable
    requires d in unreadable && IsDir(t, d) && Entered(d) && d !in Pending(t, rest + dirs)
    ensures d in rest + dirs
  {
    if d !in rest {
      assert d !in rest + [dir];
      OnlyChildrenLeave(t, rest, dir, dirs, d);
      assert d in dirs;
    }
  }

  /** `check_layer`: the walk with an explicit stack ends on every tree and accepts
      exactly the layers `LayerOk` describes whose directories read. */
  method CheckLayer(t: Tree, unreadable: set<Path>, fixture: bool, canon: Path -> Canonical) returns (ok: bool)
    requires WellFormed(t)
    ensures ok <==> LayerOk(t, fixture, canon) && LayerReads(t, unreadable)
  {
    var stack: seq<Path> := [[]];
    WalkBegins(t, fixture, canon);
    RootIsPending(t);
    while stack != []
      invariant WalkInv(t, stack, fixture, canon) && ReadSoFar(t, unreadable, stack)
      decreases |Pending(t, stack)|, |stack|
    {
      var dir := stack[|stack| - 1];
      if dir in unreadable {
        return false;
      }
      var fine, dirs := LookAt(t, dir, fixture, canon);
      if !fine {
        var p :| p in Children(t, dir) && !EntryOk(p, t[p], fixture, canon);
        ChildIsLooked(dir, p);
        return false;
      }
      WalkAdvances(t, stack, dirs, fixture, canon);
      ReadAdvances(t, unreadable, stack, dirs);
      stack := stack[..|stack| - 1] + dirs;
    }
    ok := true;
  }
}
