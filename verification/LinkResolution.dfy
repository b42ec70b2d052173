/**
 Where the links of an accepted layer lead once the system follows them: path
 resolution on a whole file system, of which the layer is the directory `root`, against
 the check of `link_stays_inside` (crates/apb-cli/src/eval.rs). A link whose target
 exists is judged by its canonical path, a dangling one by its text alone.
 */
module LinkResolution {
  import opened Options
  import opened Trees
  import LayerCheck

  /** How many links the system follows in one path. */
  const MAX_LINKS: nat := 40

  // ------------------------------------------------------------- path resolution

  function Up_(p: Path): Path {
    if p == [] then [] else Parent(p)
  }

  /** Where a link starts over from. */
  function From(dir: Path, target: Target): Path {
    if target.Absolute? then [] else dir
  }

  /** `canonicalize`: the entry reached, if every name on the way exists, only
      directories are passed, and not too many links. */
  function Canonical(fs: Tree, dir: Path, rest: seq<Component>, links: nat): Option<Path>
    decreases links, |rest|
  {
    if rest == [] then (if dir in fs then Some(dir) else None)
    else if !IsDir(fs, dir) then None
    else match rest[0]
      case Here => Canonical(fs, dir, rest[1..], links)
      case Up => Canonical(fs, Up_(dir), rest[1..], links)
      case To(n) =>
        var next := dir + [n];
        if next in fs && fs[next].Link? then
          if links == 0 then None
          else Canonical(fs, From(dir, fs[next].target), fs[next].target.components + rest[1..], links - 1)
        else Canonical(fs, next, rest[1..], links)
  }

  /** Where the path lands once everything that is missing on the way is there: a name
      that does not exist is taken for a directory to come. None for too many links. */
  function Lands(fs: Tree, dir: Path, rest: seq<Component>, links: nat): Option<Path>
    decreases links, |rest|
  {
    if rest == [] then Some(dir)
    else match rest[0]
      case Here => Lands(fs, dir, rest[1..], links)
      case Up => Lands(fs, Up_(dir), rest[1..], links)
      case To(n) =>
        var next := dir + [n];
        if next in fs && fs[next].Link? then
          if links == 0 then None
          else Lands(fs, From(dir, fs[next].target), fs[next].target.components + rest[1..], links - 1)
        else Lands(fs, next, rest[1..], links)
  }

  /** What exists is where the path lands. */
  lemma {:induction false} CanonicalLands(fs: Tree, dir: Path, rest: seq<Component>, links: nat)
    ensures Canonical(fs, dir, rest, links).Some? ==> Lands(fs, dir, rest, links) == Canonical(fs, dir, rest, links)
    decreases links, |rest|
  {
    if rest != [] && IsDir(fs, dir) {
      match rest[0]
      case Here => CanonicalLands(fs, dir, rest[1..], links);
      case Up => CanonicalLands(fs, Up_(dir), rest[1..], links);
      case To(n) =>
        var next := dir + [n];
        if next in fs && fs[next].Link? {
          if links > 0 {
            CanonicalLands(fs, From(dir, fs[next].target), fs[next].target.components + rest[1..], links - 1);
          }
        } else {
          CanonicalLands(fs, next, rest[1..], links);
        }
    }
  }

  /** The path walks through a link: some name of it, taken from where the names before
      it lead, is one. */
  predicate MeetsLink(fs: Tree, dir: Path, rest: seq<Component>)
    decreases |rest|
  {
    rest != [] &&
    match rest[0]
    case Here => MeetsLink(fs, dir, rest[1..])
    case Up => MeetsLink(fs, Up_(dir), rest[1..])
    case To(n) => (dir + [n] in fs && fs[dir + [n]].Link?) || MeetsLink(fs, dir + [n], rest[1..])
  }

  /** Where the components lead by their text, from `dir` of the file system. */
  function Lexical(dir: Path, rest: seq<Component>): Path
    decreases |rest|
  {
    if rest == [] then dir
    else match rest[0]
      case Here => Lexical(dir, rest[1..])
      case Up => Lexical(if dir == [] then [] else dir[..|dir| - 1], rest[1..])
      case To(n) => Lexical(dir + [n], rest[1..])
  }

  lemma LexicalFirst(dir: Path, rest: seq<Component>, k: nat)
    requires 0 < k <= |rest|
    ensures Lexical(dir, rest[..k]) == Lexical(Lexical(dir, rest[..1]), rest[1..][..k - 1])
  {
    assert rest[..k][0] == rest[..1][0] == rest[0] && rest[..k][1..] == rest[1..][..k - 1] && rest[..1][1..] == [];
  }

  /** The first `k` components lead by their text to a link. */
  predicate IsLinkAt(fs: Tree, dir: Path, rest: seq<Component>, k: nat)
    requires k <= |rest|
  {
    k > 0 && rest[k - 1].To? && Lexical(dir, rest[..k]) in fs && fs[Lexical(dir, rest[..k])].Link?
  }

  lemma LinkAtFurther(fs: Tree, dir: Path, rest: seq<Component>, k: nat)
    requires 1 < k <= |rest|
    ensures IsLinkAt(fs, dir, rest, k) <==> IsLinkAt(fs, Lexical(dir, rest[..1]), rest[1..], k - 1)
  {
    LexicalFirst(dir, rest, k);
    assert rest[1..][k - 2] == rest[k - 1];
  }

  /** A path walks through a link exactly when some beginning of its text ends at one. */
  lemma {:induction false} MeetsLinkIff(fs: Tree, dir: Path, rest: seq<Component>)
    ensures MeetsLink(fs, dir, rest) <==> exists k: nat :: k <= |rest| && IsLinkAt(fs, dir, rest, k)
    decreases |rest|
  {
    if rest != [] {
      var next := Lexical(dir, rest[..1]);
      MeetsLinkIff(fs, next, rest[1..]);
      FirstIsLink(fs, dir, rest);
      if MeetsLink(fs, next, rest[1..]) {
        var k: nat :| k <= |rest[1..]| && IsLinkAt(fs, next, rest[1..], k);
        LinkAtFurther(fs, dir, rest, k + 1);
        assert IsLinkAt(fs, dir, rest, k + 1);
      }
      forall k: nat | 1 < k <= |rest| && IsLinkAt(fs, dir, rest, k) ensures MeetsLink(fs, next, rest[1..]) {
        LinkAtFurther(fs, dir, rest, k);
        assert IsLinkAt(fs, next, rest[1..], k - 1);
      }
    }
  }

  lemma FirstIsLink(fs: Tree, dir: Path, rest: seq<Component>)
    requires rest != []
    ensures MeetsLink(fs, dir, rest) <==>
            IsLinkAt(fs, dir, rest, 1) || MeetsLink(fs, Lexical(dir, rest[..1]), rest[1..])
  {
    LexicalOne(dir, rest[0]);
    assert rest[..1] == [rest[0]];
  }

  lemma LexicalOne(dir: Path, c: Component)
    ensures Lexical(dir, [c]) == match c case Here => dir case Up => Up_(dir) case To(n) => dir + [n]
  {
    assert [c][1..] == [];
    assert forall d: Path :: Lexical(d, []) == d;
  }

  /** Every place passed before the end is a directory. */
  ghost predicate PassesDirs(fs: Tree, dir: Path, rest: seq<Component>) {
    forall k: nat :: k < |rest| ==> IsDir(fs, Lexical(dir, rest[..k]))
  }

  lemma PassesFirst(fs: Tree, dir: Path, rest: seq<Component>)
    requires rest != []
    ensures PassesDirs(fs, dir, rest) <==> IsDir(fs, dir) && PassesDirs(fs, Lexical(dir, rest[..1]), rest[1..])
  {
    var next := Lexical(dir, rest[..1]);
    assert rest[..0] == [];
    forall k: nat | k < |rest[1..]| ensures Lexical(next, rest[1..][..k]) == Lexical(dir, rest[..k + 1]) {
      LexicalFirst(dir, rest, k + 1);
    }
    if IsDir(fs, dir) && PassesDirs(fs, next, rest[1..]) {
      forall k: nat | k < |rest| ensures IsDir(fs, Lexical(dir, rest[..k])) {
        assert k > 0 ==> IsDir(fs, Lexical(next, rest[1..][..k - 1]));
      }
    }
    if PassesDirs(fs, dir, rest) {
      assert IsDir(fs, Lexical(dir, rest[..0]));
    }
  }

  /** Without a link on the way, a path that passes only directories exists where its text
      leads, and any other does not exist. */
  lemma {:induction false} PlainPathIsLexical(fs: Tree, dir: Path, rest: seq<Component>, links: nat)
    requires !MeetsLink(fs, dir, rest)
    ensures Canonical(fs, dir, rest, links) ==
            if PassesDirs(fs, dir, rest) && Lexical(dir, rest) in fs then Some(Lexical(dir, rest)) else None
    decreases |rest|
  {
    if rest != [] {
      var next := Lexical(dir, rest[..1]);
      assert rest[..1][0] == rest[0] && rest[..1][1..] == [];
      assert rest[..|rest|] == rest && rest[1..][..|rest| - 1] == rest[1..];
      LexicalFirst(dir, rest, |rest|);
      PassesFirst(fs, dir, rest);
      PlainPathIsLexical(fs, next, rest[1..], links);
    }
  }

  /** An absolute link leads to the same place from anywhere. */
  lemma AbsoluteIsPlaceless(fs: Tree, dir: Path, name: Name, dir2: Path, name2: Name, target: Target, links: nat)
    requires IsDir(fs, dir) && IsDir(fs, dir2) && target.Absolute?
    requires dir + [name] in fs && dir2 + [name2] in fs
    requires fs[dir + [name]] == Link(target) && fs[dir2 + [name2]] == Link(target)
    ensures Canonical(fs, dir, [To(name)], links) == Canonical(fs, dir2, [To(name2)], links)
    ensures Lands(fs, dir, [To(name)], links) == Lands(fs, dir2, [To(name2)], links)
  {
  }

  // -------------------------------------------------------------------- the layer

  /** The layer `t` is what the file system has at `root`. */
  ghost predicate IsLayer(fs: Tree, root: Path, t: Tree) {
    && WellFormed(fs) && IsDir(fs, root)
    && forall p :: (p in t <==> root + p in fs) && (p in t ==> t[p] == fs[root + p])
  }

  /** The links the walk looks at. */
  predicate IsLooked(t: Tree, p: Path) {
    p in t && p != [] && LayerCheck.Looked(p) && t[p].Link?
  }

  /** What `canonicalize` answers for a link of the layer; it may also fail without a
      reason in the tree. */
  function CanonOf(fs: Tree, root: Path, t: Tree, fails: set<Path>): Path -> LayerCheck.Canonical {
    p =>
      if p == [] || p !in t || !t[p].Link? || p in fails then LayerCheck.Dangling
      else
        match Canonical(fs, From(root + Parent(p), t[p].target), t[p].target.components, MAX_LINKS)
        case Some(q) => LayerCheck.Exists(AtOrBelow(root, q))
        case None => LayerCheck.Dangling
  }

  /** Following the link never ends outside the layer. */
  predicate LandsInside(fs: Tree, root: Path, t: Tree, p: Path)
    requires p in t && p != [] && t[p].Link?
  {
    match Lands(fs, From(root + Parent(p), t[p].target), t[p].target.components, MAX_LINKS)
    case Some(q) => AtOrBelow(root, q)
    case None => true
  }

  /** A dangling link whose target walks through another link. */
  predicate DanglesThroughALink(fs: Tree, root: Path, t: Tree, fails: set<Path>, p: Path)
    requires p in t && p != [] && t[p].Link?
  {
    CanonOf(fs, root, t, fails)(p).Dangling? && MeetsLink(fs, root + Parent(p), t[p].target.components)
  }

  lemma {:induction false} NoLinkIsLexical(fs: Tree, root: Path, dir: Path, rest: seq<Component>, links: nat)
    requires !MeetsLink(fs, root + dir, rest) && LayerCheck.Resolve(dir, rest).Some?
    ensures Lands(fs, root + dir, rest, links) == Some(root + LayerCheck.Resolve(dir, rest).value)
    decreases |rest|
  {
    if rest != [] {
      match rest[0]
      case Here => NoLinkIsLexical(fs, root, dir, rest[1..], links);
      case Up =>
        assert Up_(root + dir) == root + Parent(dir);
        NoLinkIsLexical(fs, root, Parent(dir), rest[1..], links);
      case To(n) =>
        assert root + dir + [n] == root + (dir + [n]);
        NoLinkIsLexical(fs, root, dir + [n], rest[1..], links);
    }
  }

  /** A link of an accepted layer lands inside it, when its target exists or does not
      walk through another link. */
  lemma AcceptedLinkLandsInside(fs: Tree, root: Path, t: Tree, fails: set<Path>, fixture: bool, p: Path)
    requires IsLayer(fs, root, t) && LayerCheck.LayerOk(t, fixture, CanonOf(fs, root, t, fails)) && IsLooked(t, p)
    requires !DanglesThroughALink(fs, root, t, fails, p)
    ensures LandsInside(fs, root, t, p)
  {
    var dir, rest := Parent(p), t[p].target.components;
    assert LayerCheck.EntryOk(p, t[p], fixture, CanonOf(fs, root, t, fails));
    assert t[p].target.Relative?;
    CanonicalLands(fs, root + dir, rest, MAX_LINKS);
    if CanonOf(fs, root, t, fails)(p).Dangling? {
      NoLinkIsLexical(fs, root, dir, rest, MAX_LINKS);
      var q := LayerCheck.Resolve(dir, rest).value;
      assert (root + q)[..|root|] == root;
    }
  }

  // ------------------------------------------------------------- the failing family

  /** A directory `d` with a link `up` to the root and a link `out` to
      `up/../name`; nothing is at `name` next to the root. */
  datatype Shape = Shape(d: Name, up: Name, out: Name, name: Name)

  predicate IsShape(h: Shape, root: Path) {
    && root != [] && h.up != h.out && h.name != Last(root)
    && ".git" !in {h.d, h.up, h.out} && h.d != ".apb"
  }

  function UpTarget(): Target {
    Relative([Up])
  }

  function OutTarget(h: Shape): Target {
    Relative([To(h.up), Up, To(h.name)])
  }

  function LayerOf(h: Shape): Tree {
    map[[] := Dir, [h.d] := Dir, [h.d, h.up] := Link(UpTarget()), [h.d, h.out] := Link(OutTarget(h))]
  }

  function Prefixes(root: Path): Tree {
    map k | 0 <= k <= |root| :: root[..k] := Dir
  }

  function SystemOf(h: Shape, root: Path): Tree {
    Prefixes(root)
      [root + [h.d] := Dir]
      [root + [h.d] + [h.up] := Link(UpTarget())]
      [root + [h.d] + [h.out] := Link(OutTarget(h))]
  }

  /** What the file system has above the layer, and at its root. */
  lemma AboveTheLayer(h: Shape, root: Path, p: Path)
    requires |p| <= |root|
    ensures p in SystemOf(h, root) <==> AtOrBelow(p, root)
    ensures p in SystemOf(h, root) ==> SystemOf(h, root)[p] == Dir
  {
    assert AtOrBelow(p, root) ==> p == root[..|p|];
  }

  lemma SystemIsWellFormed(h: Shape, root: Path)
    requires IsShape(h, root)
    ensures WellFormed(SystemOf(h, root)) && IsDir(SystemOf(h, root), root) && IsDir(SystemOf(h, root), root + [h.d])
  {
    var fs := SystemOf(h, root);
    assert root[..|root|] == root;
    AboveTheLayer(h, root, []);
    AboveTheLayer(h, root, root);
    forall p | p in fs && p != [] ensures IsDir(fs, Parent(p)) {
      if |p| <= |root| {
        AboveTheLayer(h, root, p);
        AboveTheLayer(h, root, Parent(p));
        assert Parent(p) == root[..|p| - 1];
      } else if p == root + [h.d] {
        assert Parent(p) == root;
      } else {
        assert Parent(p) == root + [h.d];
      }
    }
  }

  lemma BelowTheRoot(root: Path, p: Path, q: Path)
    ensures root + p == root + q <==> p == q
    ensures p != [] ==> |root + p| > |root|
  {
    assert (root + p)[|root|..] == p && (root + q)[|root|..] == q;
  }

  lemma EntryIsThere(h: Shape, root: Path, p: Path)
    requires IsShape(h, root) && p != []
    ensures p in LayerOf(h) <==> root + p in SystemOf(h, root)
    ensures p in LayerOf(h) ==> LayerOf(h)[p] == SystemOf(h, root)[root + p]
  {
    assert root + [h.d] + [h.up] == root + [h.d, h.up] && root + [h.d] + [h.out] == root + [h.d, h.out];
    BelowTheRoot(root, p, [h.d]);
    BelowTheRoot(root, p, [h.d, h.up]);
    BelowTheRoot(root, p, [h.d, h.out]);
    assert root + p !in Prefixes(root);
  }

  lemma LayerIsThere(h: Shape, root: Path)
    requires IsShape(h, root)
    ensures IsLayer(SystemOf(h, root), root, LayerOf(h))
  {
    var fs, t := SystemOf(h, root), LayerOf(h);
    SystemIsWellFormed(h, root);
    forall p ensures (p in t <==> root + p in fs) && (p in t ==> t[p] == fs[root + p]) {
      if p == [] {
        assert root + p == root;
        AboveTheLayer(h, root, root);
      } else {
        EntryIsThere(h, root, p);
      }
    }
  }

  /** One name further: up, or to what is no link. */
  lemma OneUp(fs: Tree, dir: Path, rest: seq<Component>, links: nat)
    requires IsDir(fs, dir)
    ensures Canonical(fs, dir, [Up] + rest, links) == Canonical(fs, Up_(dir), rest, links)
    ensures Lands(fs, dir, [Up] + rest, links) == Lands(fs, Up_(dir), rest, links)
  {
    assert ([Up] + rest)[1..] == rest;
  }

  lemma OneMissing(fs: Tree, dir: Path, n: Name, links: nat)
    requires IsDir(fs, dir) && dir + [n] !in fs
    ensures Canonical(fs, dir, [To(n)], links) == None && Lands(fs, dir, [To(n)], links) == Some(dir + [n])
  {
    assert [To(n)][1..] == [];
  }

  lemma OneLink(fs: Tree, dir: Path, n: Name, rest: seq<Component>, links: nat)
    requires IsDir(fs, dir) && dir + [n] in fs && fs[dir + [n]] == Link(Relative([Up])) && links > 0
    ensures Canonical(fs, dir, [To(n)] + rest, links) == Canonical(fs, dir, [Up] + rest, links - 1)
    ensures Lands(fs, dir, [To(n)] + rest, links) == Lands(fs, dir, [Up] + rest, links - 1)
    ensures MeetsLink(fs, dir, [To(n)] + rest)
  {
    assert ([To(n)] + rest)[1..] == rest;
  }

  /** Where the two links lead in the system. */
  lemma TwoLinks(h: Shape, root: Path)
    requires IsShape(h, root)
    ensures var fs, dir := SystemOf(h, root), root + [h.d];
            && Canonical(fs, dir, [Up], MAX_LINKS) == Some(root)
            && Canonical(fs, dir, OutTarget(h).components, MAX_LINKS) == None
            && Lands(fs, dir, OutTarget(h).components, MAX_LINKS) == Some(Parent(root) + [h.name])
            && MeetsLink(fs, dir, OutTarget(h).components)
  {
    var fs, dir := SystemOf(h, root), root + [h.d];
    SystemIsWellFormed(h, root);
    assert Up_(dir) == root && [Up] + [] == [Up];
    AboveTheLayer(h, root, root);
    AboveTheLayer(h, root, Parent(root));
    assert Up_(root) == Parent(root) == root[..|root| - 1];
    var there := Parent(root) + [h.name];
    AboveTheLayer(h, root, there);
    assert Last(there) == h.name && there != root && root[..|root|] == root;
    OneUp(fs, dir, [], MAX_LINKS);
    assert OutTarget(h).components == [To(h.up)] + ([Up] + [To(h.name)]);
    OneLink(fs, dir, h.up, [Up] + [To(h.name)], MAX_LINKS);
    OneUp(fs, dir, [Up] + [To(h.name)], MAX_LINKS - 1);
    OneUp(fs, root, [To(h.name)], MAX_LINKS - 1);
    OneMissing(fs, Parent(root), h.name, MAX_LINKS - 1);
  }

  /** And what the text of the second says: it stays inside. */
  lemma TextStaysInside(h: Shape)
    ensures LayerCheck.Resolve([h.d], OutTarget(h).components) == Some([h.d, h.name])
  {
    var rest := OutTarget(h).components;
    assert rest[1..] == [Up, To(h.name)] && [Up, To(h.name)][1..] == [To(h.name)] && [To(h.name)][1..] == [];
    assert [h.d] + [h.up] == [h.d, h.up] && Parent([h.d, h.up]) == [h.d] && [h.d] + [h.name] == [h.d, h.name];
    assert LayerCheck.Resolve([h.d], [To(h.name)]) == LayerCheck.Resolve([h.d, h.name], []);
    assert LayerCheck.Resolve([h.d, h.up], [Up, To(h.name)]) == LayerCheck.Resolve([h.d], [To(h.name)]);
  }

  /** What the check sees of the two links. */
  lemma CanonOfBoth(h: Shape, root: Path)
    requires IsShape(h, root)
    ensures var canon := CanonOf(SystemOf(h, root), root, LayerOf(h), {});
            canon([h.d, h.up]) == LayerCheck.Exists(true) && canon([h.d, h.out]) == LayerCheck.Dangling
  {
    TwoLinks(h, root);
    assert root[..|root|] == root;
    assert Parent([h.d, h.up]) == [h.d] && Parent([h.d, h.out]) == [h.d];
  }

  lemma LinksAreOk(h: Shape, canon: Path -> LayerCheck.Canonical)
    requires ".git" !in {h.d, h.up, h.out} && h.d != ".apb"
    requires canon([h.d, h.up]) == LayerCheck.Exists(true) && canon([h.d, h.out]) == LayerCheck.Dangling
    ensures LayerCheck.EntryOk([h.d, h.up], Link(UpTarget()), true, canon)
    ensures LayerCheck.EntryOk([h.d, h.out], Link(OutTarget(h)), true, canon)
  {
    TextStaysInside(h);
    assert Parent([h.d, h.out]) == [h.d];
  }

  lemma BothAreAccepted(h: Shape, root: Path)
    requires IsShape(h, root)
    ensures LayerCheck.LayerOk(LayerOf(h), true, CanonOf(SystemOf(h, root), root, LayerOf(h), {}))
  {
    var canon := CanonOf(SystemOf(h, root), root, LayerOf(h), {});
    CanonOfBoth(h, root);
    LinksAreOk(h, canon);
    LayerIsOk(h, canon);
  }

  lemma LayerIsOk(h: Shape, canon: Path -> LayerCheck.Canonical)
    requires h.d != ".git" && h.up != h.out
    requires LayerCheck.EntryOk([h.d, h.up], Link(UpTarget()), true, canon)
    requires LayerCheck.EntryOk([h.d, h.out], Link(OutTarget(h)), true, canon)
    ensures LayerCheck.LayerOk(LayerOf(h), true, canon)
  {
    assert LayerOf(h).Keys == {[], [h.d], [h.d, h.up], [h.d, h.out]};
  }

  lemma NextToTheRoot(root: Path, name: Name)
    requires root != [] && name != Last(root)
    ensures !AtOrBelow(root, Parent(root) + [name])
  {
    var there := Parent(root) + [name];
    assert there[..|root|] == there && Last(there) == name;
  }

  lemma SecondLinkLeaves(h: Shape, root: Path, t: Tree, p: Path)
    requires IsShape(h, root) && p == [h.d, h.out] && p in t && t[p] == Link(OutTarget(h))
    ensures Lands(SystemOf(h, root), root + Parent(p), OutTarget(h).components, MAX_LINKS) ==
            Some(Parent(root) + [h.name])
    ensures MeetsLink(SystemOf(h, root), root + Parent(p), OutTarget(h).components)
    ensures !LandsInside(SystemOf(h, root), root, t, p)
  {
    TwoLinks(h, root);
    NextToTheRoot(root, h.name);
    assert Parent(p) == [h.d];
  }

  /** A fixture of this shape is accepted, and its second link leads next to the tree,
      whatever the names and wherever the tree is. */
  lemma AcceptedLinkLeaves(h: Shape, root: Path)
    requires IsShape(h, root)
    ensures var fs, t, p := SystemOf(h, root), LayerOf(h), [h.d, h.out];
            && IsAcceptedLink(fs, root, t, {}, true, p) && DanglesThroughALink(fs, root, t, {}, p)
            && Lands(fs, root + Parent(p), t[p].target.components, MAX_LINKS) == Some(Parent(root) + [h.name])
            && !LandsInside(fs, root, t, p)
  {
    var t, p := LayerOf(h), [h.d, h.out];
    assert p in t && t[p] == Link(OutTarget(h));
    LayerIsThere(h, root);
    CanonOfBoth(h, root);
    BothAreAccepted(h, root);
    SecondLinkLeaves(h, root, t, p);
  }

  /** Every link of an accepted layer lands inside it; `through` says whether dangling
      links may walk through another link. */
  ghost predicate AcceptedMeansInside(through: bool) {
    forall fs, root, t, fails, fixture, p ::
      IsAcceptedLink(fs, root, t, fails, fixture, p) && (through || !DanglesThroughALink(fs, root, t, fails, p)) ==>
        LandsInside(fs, root, t, p)
  }

  ghost predicate IsAcceptedLink(fs: Tree, root: Path, t: Tree, fails: set<Path>, fixture: bool, p: Path) {
    IsLayer(fs, root, t) && LayerCheck.LayerOk(t, fixture, CanonOf(fs, root, t, fails)) && IsLooked(t, p)
  }

  /** Over all file systems and layers: acceptance keeps every link inside if and only if
      no dangling target walks through a link. */
  lemma AcceptedMeansInsideIff(through: bool)
    ensures AcceptedMeansInside(through) <==> !through
  {
    if through {
      var h, root := Shape("a", "up", "out", "b"), ["r"];
      assert |"up"| == 2 && |"out"| == 3 && "b"[0] != "r"[0] && |".git"| == 4 && |".apb"| == 4;
      AcceptedLinkLeaves(h, root);
    } else {
      forall fs, root, t, fails, fixture, p |
        IsAcceptedLink(fs, root, t, fails, fixture, p) && !DanglesThroughALink(fs, root, t, fails, p)
        ensures LandsInside(fs, root, t, p)
      {
        AcceptedLinkLandsInside(fs, root, t, fails, fixture, p);
      }
    }
  }
}
