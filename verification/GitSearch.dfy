/**
 The search for a `.git` in a change overlay: `carries_git`
 (crates/apb-cli/src/eval.rs). It ends with "none" at the first directory that does
 not read, so its answer may depend on the order in which directories list their
 entries; that order is a parameter.
 */
module GitSearch {
  import opened Options
  import opened Trees
  import opened LayerCheck

  type Order = Path -> seq<Path>

  /** Every directory lists each of its entries once. */
  ghost predicate Lists(t: Tree, order: Order) {
    forall d :: IsDir(t, d) ==> ListsAll(t, d, order(d))
  }

  ghost predicate ListsAll(t: Tree, d: Path, list: seq<Path>) {
    && (forall p :: p in list <==> p in Children(t, d))
    && (forall i, j :: 0 <= i < j < |list| ==> list[i] != list[j])
  }

  predicate IsGit(p: Path) {
    p != [] && Last(p) == ".git"
  }

  ghost predicate HasGit(t: Tree) {
    exists p :: p in t && IsGit(p)
  }

  // ------------------------------------------------------------- one directory

  /** The first `.git` listed. */
  function FirstGit(list: seq<Path>): (r: Option<Path>)
    ensures r.Some? ==> r.value in list && IsGit(r.value)
    ensures r.None? ==> forall p :: p in list ==> !IsGit(p)
  {
    if list == [] then None
    else if IsGit(list[0]) then Some(list[0])
    else FirstGit(list[1..])
  }

  /** The directories listed, in order. */
  function DirsIn(t: Tree, list: seq<Path>): (r: seq<Path>)
    ensures forall p :: p in r <==> p in list && IsDir(t, p)
    ensures (forall i, j :: 0 <= i < j < |list| ==> list[i] != list[j]) ==>
              forall i, j :: 0 <= i < j < |r| ==> r[i] != r[j]
  {
    if list == [] then []
    else
      var front, last := list[..|list| - 1], list[|list| - 1];
      assert list == front + [last];
      DirsIn(t, front) + if IsDir(t, last) then [last] else []
  }

  lemma ListedSubdirs(t: Tree, dir: Path, list: seq<Path>)
    requires ListsAll(t, dir, list) && FirstGit(list).None?
    ensures Subdirs(t, dir, DirsIn(t, list))
    ensures forall p :: p in Children(t, dir) ==> !IsGit(p)
  {
    var dirs := DirsIn(t, list);
    forall k | 0 <= k < |dirs|
      ensures dirs[k] != [] && Parent(dirs[k]) == dir && IsDir(t, dirs[k]) && dirs[k] != [".git"]
    {
      assert dirs[k] in dirs && dirs[k] in list && dirs[k] in Children(t, dir) && !IsGit(dirs[k]);
    }
  }

  // ----------------------------------------------------------------- the search

  /** Some directory above `d`, or one above those, holds a `.git`: it is listed before
      `d` is entered. */
  ghost predicate GitAbove(t: Tree, d: Path) {
    exists j :: 0 <= j < |d| && d[..j] + [".git"] in t
  }

  /** What the search knows: it has passed no `.git`. */
  ghost predicate SearchInv(t: Tree, stack: seq<Path>) {
    && (forall k :: 0 <= k < |stack| ==> IsDir(t, stack[k]) && !GitAbove(t, stack[k]))
    && Apart(stack)
    && forall p :: p in t && p != [] && Looked(p) && p !in Pending(t, stack) ==> !IsGit(p)
  }

  lemma SearchBegins(t: Tree)
    requires WellFormed(t)
    ensures SearchInv(t, [[]])
  {
    RootIsPending(t);
  }

  lemma NoGitAboveChildren(t: Tree, dir: Path, dirs: seq<Path>)
    requires Subdirs(t, dir, dirs) && !GitAbove(t, dir) && forall p :: p in Children(t, dir) ==> !IsGit(p)
    ensures forall k :: 0 <= k < |dirs| ==> !GitAbove(t, dirs[k])
  {
    forall k, j | 0 <= k < |dirs| && 0 <= j < |dirs[k]| ensures dirs[k][..j] + [".git"] !in t {
      var p := dirs[k][..j] + [".git"];
      if j < |dir| {
        assert dirs[k][..j] == dir[..j];
      } else {
        assert dirs[k][..j] == dir && Parent(p) == dir && IsGit(p);
        assert p !in Children(t, dir);
      }
    }
  }

  /** The search goes on below the top of the stack without having passed a `.git`. */
  lemma SearchAdvances(t: Tree, before: seq<Path>, dirs: seq<Path>)
    requires before != [] && WellFormed(t) && SearchInv(t, before) && Subdirs(t, Top(before), dirs)
    requires forall p :: p in Children(t, Top(before)) ==> !IsGit(p)
    ensures SearchInv(t, Next(before, dirs))
    ensures Nearer(t, before, Next(before, dirs))
  {
    var dir, rest := Top(before), before[..|before| - 1];
    var stack := rest + dirs;
    assert before == rest + [dir];
    StackStaysApart(t, rest, dir, dirs);
    WalkEnds(t, rest, dir, dirs);
    assert before[|rest|] == dir;
    NoGitAboveChildren(t, dir, dirs);
    forall k | 0 <= k < |stack| ensures IsDir(t, stack[k]) && !GitAbove(t, stack[k]) {
      assert k < |rest| ==> stack[k] == before[k];
    }
    forall p | p in t && p != [] && Looked(p) && p !in Pending(t, stack) ensures !IsGit(p) {
      if p in Pending(t, before) {
        OnlyChildrenLeave(t, rest, dir, dirs, p);
      }
    }
  }

  /** The answer of the search from a stack of directories still to enter. */
  ghost function Search(t: Tree, unreadable: set<Path>, order: Order, stack: seq<Path>): Option<Path>
    requires WellFormed(t) && Lists(t, order) && SearchInv(t, stack)
    decreases |Pending(t, stack)|, |stack|
  {
    if stack == [] then None
    else
      var dir := Top(stack);
      if dir in unreadable then None
      else if FirstGit(order(dir)).Some? then FirstGit(order(dir))
      else
        ListedSubdirs(t, dir, order(dir));
        var dirs := DirsIn(t, order(dir));
        SearchAdvances(t, stack, dirs);
        Search(t, unreadable, order, Next(stack, dirs))
  }

  /** The whole search. */
  ghost function Answer(t: Tree, unreadable: set<Path>, order: Order): Option<Path>
    requires WellFormed(t) && Lists(t, order)
  {
    SearchBegins(t);
    Search(t, unreadable, order, [[]])
  }

  /** `carries_git`, with its explicit stack. */
  method CarriesGit(t: Tree, unreadable: set<Path>, order: Order) returns (found: Option<Path>)
    requires WellFormed(t) && Lists(t, order)
    ensures found == Answer(t, unreadable, order)
  {
    var stack: seq<Path> := [[]];
    SearchBegins(t);
    while stack != []
      invariant SearchInv(t, stack) && Search(t, unreadable, order, stack) == Answer(t, unreadable, order)
      decreases |Pending(t, stack)|, |stack|
    {
      var dir := stack[|stack| - 1];
      if dir in unreadable {
        return None;
      }
      var dirs;
      found, dirs := LookForGit(t, order(dir));
      if found.Some? {
        return;
      }
      ListedSubdirs(t, dir, order(dir));
      SearchAdvances(t, stack, dirs);
      stack := stack[..|stack| - 1] + dirs;
    }
    found := None;
  }

  /** One directory of the search: a `.git` in it, or the directories to go into. */
  method LookForGit(t: Tree, list: seq<Path>) returns (found: Option<Path>, dirs: seq<Path>)
    ensures found == FirstGit(list)
    ensures found.None? ==> dirs == DirsIn(t, list)
  {
    dirs := [];
    assert list[..0] == [];
    for i := 0 to |list|
      invariant FirstGit(list) == FirstGit(list[i..])
      invariant dirs == DirsIn(t, list[..i])
    {
      assert list[i..][0] == list[i] && list[i..][1..] == list[i + 1..];
      if IsGit(list[i]) {
        return Some(list[i]), dirs;
      }
      assert list[..i + 1][..i] == list[..i];
      if IsDir(t, list[i]) {
        dirs := dirs + [list[i]];
      }
    }
    assert list[..|list|] == list;
    found := None;
  }

  // ------------------------------------------------------------- when it is right

  /** A `.git` that is found is one. */
  lemma {:induction false} FoundIsGit(t: Tree, unreadable: set<Path>, order: Order, stack: seq<Path>)
    requires WellFormed(t) && Lists(t, order) && SearchInv(t, stack)
    ensures var found := Search(t, unreadable, order, stack); found.Some? ==> found.value in t && IsGit(found.value)
    decreases |Pending(t, stack)|, |stack|
  {
    if stack != [] && Top(stack) !in unreadable && FirstGit(order(Top(stack))).None? {
      var dirs := DirsIn(t, order(Top(stack)));
      ListedSubdirs(t, Top(stack), order(Top(stack)));
      SearchAdvances(t, stack, dirs);
      FoundIsGit(t, unreadable, order, Next(stack, dirs));
    }
  }

  /** Every directory that does not read has a `.git` above it. */
  ghost predicate Guarded(t: Tree, unreadable: set<Path>) {
    forall d :: d in unreadable && IsDir(t, d) ==> GitAbove(t, d)
  }

  lemma {:induction false} GuardedSearchFinds(t: Tree, unreadable: set<Path>, order: Order, stack: seq<Path>)
    requires WellFormed(t) && Lists(t, order) && SearchInv(t, stack) && Guarded(t, unreadable)
    ensures Search(t, unreadable, order, stack).None? ==> !HasGit(t)
    decreases |Pending(t, stack)|, |stack|
  {
    if stack == [] {
      NoGitInSightIsNoGit(t);
    } else {
      assert IsDir(t, Top(stack)) && !GitAbove(t, Top(stack));
      if FirstGit(order(Top(stack))).None? {
        var dirs := DirsIn(t, order(Top(stack)));
        ListedSubdirs(t, Top(stack), order(Top(stack)));
        SearchAdvances(t, stack, dirs);
        GuardedSearchFinds(t, unreadable, order, Next(stack, dirs));
      }
    }
  }

  /** A `.git` below another one cannot be the only one. */
  lemma NoGitInSightIsNoGit(t: Tree)
    requires WellFormed(t)
    requires forall p :: p in t && p != [] && Looked(p) ==> !IsGit(p)
    ensures !HasGit(t)
  {
    forall p | p in t && |p| > 1 ensures p[0] != ".git" {
      AncestorsAreDirs(t, p, 1);
      assert Looked(p[..1]) && Last(p[..1]) == p[0];
    }
  }

  // ---------------------------------------------------- an order that misses it

  /** A listing of a set with `last` at its end, if it is in it. */
  ghost function ListOf(s: set<Path>, last: Path): (r: seq<Path>)
    ensures forall p :: p in r <==> p in s
    ensures forall i, j :: 0 <= i < j < |r| ==> r[i] != r[j]
    ensures last in s ==> r != [] && r[|r| - 1] == last
    decreases |s|
  {
    if s == {} then []
    else if last in s then ListOf(s - {last}, last) + [last]
    else
      var p :| p in s;
      ListOf(s - {p}, last) + [p]
  }

  /** The next directory on the way from `d` down to `goal`. */
  function Toward(goal: Path, d: Path): Path {
    if |d| < |goal| then goal[..|d| + 1] else goal
  }

  ghost function OrderToward(t: Tree, goal: Path): Order {
    (d: Path) => ListOf(Children(t, d), Toward(goal, d))
  }

  lemma OrderLists(t: Tree, goal: Path)
    ensures Lists(t, OrderToward(t, goal))
  {
  }

  /** On the way down to `goal` every directory lists the next one last. */
  ghost predicate Leads(goal: Path, order: Order) {
    forall j :: 0 <= j < |goal| ==> EndsWith(order(goal[..j]), goal[..j + 1])
  }

  predicate EndsWith(list: seq<Path>, p: Path) {
    list != [] && list[|list| - 1] == p
  }

  lemma ChildOnTheWay(t: Tree, goal: Path, j: nat)
    requires WellFormed(t) && IsDir(t, goal) && j < |goal|
    ensures goal[..j + 1] in Children(t, goal[..j])
  {
    if j + 1 < |goal| {
      AncestorsAreDirs(t, goal, j + 1);
    } else {
      assert goal[..j + 1] == goal;
    }
    assert Parent(goal[..j + 1]) == goal[..j];
  }

  lemma ListEndsWith(s: set<Path>, last: Path)
    requires last in s
    ensures EndsWith(ListOf(s, last), last)
  {
  }

  lemma OrderLeads(t: Tree, goal: Path)
    requires WellFormed(t) && IsDir(t, goal)
    ensures Leads(goal, OrderToward(t, goal))
  {
    forall j | 0 <= j < |goal| ensures EndsWith(OrderToward(t, goal)(goal[..j]), goal[..j + 1]) {
      ChildOnTheWay(t, goal, j);
      ListEndsWith(Children(t, goal[..j]), goal[..j + 1]);
    }
  }

  lemma LastDirIsLast(t: Tree, list: seq<Path>)
    requires list != [] && IsDir(t, list[|list| - 1])
    ensures var r := DirsIn(t, list); r != [] && r[|r| - 1] == list[|list| - 1]
  {
  }

  lemma ChildrenAreNoGit(t: Tree, goal: Path, dir: Path, list: seq<Path>)
    requires ListsAll(t, dir, list) && AtOrBelow(dir, goal) && |dir| < |goal| && !GitAbove(t, goal)
    ensures FirstGit(list).None?
  {
    forall p | p in list ensures !IsGit(p) {
      assert p in Children(t, dir) && p == dir + [Last(p)];
      assert goal[..|dir|] == dir;
    }
  }

  /** The step towards `goal` from a directory above it. */
  lemma OneStepToward(t: Tree, goal: Path, stack: seq<Path>, order: Order)
    requires WellFormed(t) && SearchInv(t, stack) && stack != []
    requires AtOrBelow(Top(stack), goal) && |Top(stack)| < |goal|
    requires IsDir(t, goal) && !GitAbove(t, goal)
    requires Leads(goal, order) && Lists(t, order)
    ensures FirstGit(order(Top(stack))).None?
    ensures var next := Next(stack, DirsIn(t, order(Top(stack))));
            SearchInv(t, next) && EndsWith(next, goal[..|Top(stack)| + 1])
  {
    var dir := Top(stack);
    var child := goal[..|dir| + 1];
    assert dir == goal[..|dir|];
    if |dir| + 1 < |goal| {
      AncestorsAreDirs(t, goal, |dir| + 1);
    } else {
      assert child == goal;
    }
    assert EndsWith(order(dir), child);
    ChildrenAreNoGit(t, goal, dir, order(dir));
    LastDirIsLast(t, order(dir));
    ListedSubdirs(t, dir, order(dir));
    SearchAdvances(t, stack, DirsIn(t, order(dir)));
  }

  lemma OneSearchStep(t: Tree, unreadable: set<Path>, order: Order, stack: seq<Path>, next: seq<Path>)
    requires WellFormed(t) && Lists(t, order) && SearchInv(t, stack) && stack != []
    requires Top(stack) !in unreadable && FirstGit(order(Top(stack))).None?
    requires next == Next(stack, DirsIn(t, order(Top(stack)))) && SearchInv(t, next)
    ensures Search(t, unreadable, order, stack) == Search(t, unreadable, order, next)
  {
  }

  /** With that order the search goes straight to `goal`, if no `.git` is listed and all
      directories read on the way, and ends there when it does not read. */
  lemma {:induction false} StraightToGoal(t: Tree, unreadable: set<Path>, goal: Path, stack: seq<Path>, order: Order)
    requires WellFormed(t) && SearchInv(t, stack) && stack != [] && AtOrBelow(Top(stack), goal)
    requires IsDir(t, goal) && goal in unreadable && !GitAbove(t, goal)
    requires Leads(goal, order) && Lists(t, order)
    requires forall j :: 0 <= j < |goal| ==> goal[..j] !in unreadable
    ensures Search(t, unreadable, order, stack).None?
    decreases |goal| - |Top(stack)|
  {
    var dir := Top(stack);
    assert dir == goal[..|dir|];
    if |dir| < |goal| {
      OneStepToward(t, goal, stack, order);
      var next := Next(stack, DirsIn(t, order(dir)));
      StraightToGoal(t, unreadable, goal, next, order);
      OneSearchStep(t, unreadable, order, stack, next);
    } else {
      assert dir == goal[..|goal|] == goal;
    }
  }

  /** The shortest unreadable directory on the way to `d`. */
  lemma {:induction false} FirstUnreadable(t: Tree, unreadable: set<Path>, d: Path) returns (goal: Path)
    requires WellFormed(t) && IsDir(t, d) && d in unreadable && !GitAbove(t, d)
    ensures IsDir(t, goal) && goal in unreadable && !GitAbove(t, goal)
    ensures forall j :: 0 <= j < |goal| ==> goal[..j] !in unreadable
    decreases |d|
  {
    if j :| 0 <= j < |d| && d[..j] in unreadable {
      AncestorsAreDirs(t, d, j);
      assert forall i :: 0 <= i < j ==> d[..j][..i] == d[..i];
      goal := FirstUnreadable(t, unreadable, d[..j]);
    } else {
      goal := d;
    }
  }

  /** The answer is right whatever the order of the listings if and only if there is no
      `.git` at all, or every directory that does not read has one above it. */
  lemma AnswerIsRightIff(t: Tree, unreadable: set<Path>)
    requires WellFormed(t)
    ensures (forall order :: Lists(t, order) ==> (Answer(t, unreadable, order).Some? <==> HasGit(t))) <==>
            !HasGit(t) || Guarded(t, unreadable)
  {
    SearchBegins(t);
    forall order | Lists(t, order) && (!HasGit(t) || Guarded(t, unreadable))
      ensures Answer(t, unreadable, order).Some? <==> HasGit(t)
    {
      FoundIsGit(t, unreadable, order, [[]]);
      if Guarded(t, unreadable) {
        GuardedSearchFinds(t, unreadable, order, [[]]);
      }
    }
    if HasGit(t) && !Guarded(t, unreadable) {
      var d :| d in unreadable && IsDir(t, d) && !GitAbove(t, d);
      var goal := FirstUnreadable(t, unreadable, d);
      OrderLists(t, goal);
      OrderLeads(t, goal);
      StraightToGoal(t, unreadable, goal, [[]], OrderToward(t, goal));
      assert Answer(t, unreadable, OrderToward(t, goal)).None?;
    }
  }
}
