/**
 Precedence of versions, section 11 of Semantic Versioning 2.0.0. Build metadata has
 no precedence and is not part of a version here.
 */
module SemVer {

  datatype Ordering = Less | Equal | Greater

  function Flip(o: Ordering): Ordering {
    match o
    case Less => Greater
    case Equal => Equal
    case Greater => Less
  }

  function Then(first: Ordering, second: Ordering): Ordering {
    if first == Equal then second else first
  }

  datatype Identifier = Numeric(n: nat) | AlphaNumeric(text: string)
  datatype Version = Version(major: nat, minor: nat, patch: nat, pre: seq<Identifier>)

  function CompareNat(a: nat, b: nat): Ordering {
    if a < b then Less else if a == b then Equal else Greater
  }

  function CompareChar(a: char, b: char): Ordering {
    CompareNat(a as int, b as int)
  }

  /** Element by element; a proper beginning comes first. */
  function Lex<T>(a: seq<T>, b: seq<T>, cmp: (T, T) -> Ordering): Ordering {
    if a == [] then (if b == [] then Equal else Less)
    else if b == [] then Greater
    else Then(cmp(a[0], b[0]), Lex(a[1..], b[1..], cmp))
  }

  function CompareIdentifier(a: Identifier, b: Identifier): Ordering {
    match (a, b)
    case (Numeric(m), Numeric(n)) => CompareNat(m, n)
    case (Numeric(_), AlphaNumeric(_)) => Less
    case (AlphaNumeric(_), Numeric(_)) => Greater
    case (AlphaNumeric(s), AlphaNumeric(t)) => Lex(s, t, CompareChar)
  }

  /** A version without a pre-release comes after all of its pre-releases. */
  function ComparePre(a: seq<Identifier>, b: seq<Identifier>): Ordering {
    if a == [] then (if b == [] then Equal else Greater)
    else if b == [] then Less
    else Lex(a, b, CompareIdentifier)
  }

  function Compare(v: Version, w: Version): Ordering {
    Then(CompareNat(v.major, w.major),
         Then(CompareNat(v.minor, w.minor),
              Then(CompareNat(v.patch, w.patch), ComparePre(v.pre, w.pre))))
  }

  predicate Below(v: Version, w: Version) {
    Compare(v, w) == Less
  }

  // ------------------------------------------------------------ a total order

  /** `cmp` is a total order on three elements. */
  ghost predicate Lawful<T(!new)>(cmp: (T, T) -> Ordering, a: T, b: T, c: T) {
    && (cmp(a, b) == Equal <==> a == b)
    && cmp(b, a) == Flip(cmp(a, b))
    && (cmp(a, b) == Less && cmp(b, c) == Less ==> cmp(a, c) == Less)
  }

  /** The lexicographic order over a total order is one. */
  lemma {:induction false} LexIsLawful<T(!new)>(cmp: (T, T) -> Ordering, a: seq<T>, b: seq<T>, c: seq<T>)
    requires forall x, y, z :: Lawful(cmp, x, y, z)
    ensures Lex(a, b, cmp) == Equal <==> a == b
    ensures Lex(b, a, cmp) == Flip(Lex(a, b, cmp))
    ensures Lex(a, b, cmp) == Less && Lex(b, c, cmp) == Less ==> Lex(a, c, cmp) == Less
  {
    if a != [] && b != [] {
      var z := if c == [] then a[0] else c[0];
      LexIsLawful(cmp, a[1..], b[1..], if c == [] then c else c[1..]);
      assert Lawful(cmp, a[0], b[0], z) && Lawful(cmp, b[0], z, a[0]) && Lawful(cmp, a[0], z, b[0]);
      assert a == b <==> a[0] == b[0] && a[1..] == b[1..] by {
        assert a == [a[0]] + a[1..] && b == [b[0]] + b[1..];
      }
    }
  }

  lemma IdentifiersAreOrdered(a: Identifier, b: Identifier, c: Identifier)
    ensures Lawful(CompareIdentifier, a, b, c)
  {
    assert forall x, y, z :: Lawful(CompareChar, x, y, z);
    if a.AlphaNumeric? && b.AlphaNumeric? {
      LexIsLawful(CompareChar, a.text, b.text, if c.AlphaNumeric? then c.text else "");
    }
  }

  lemma PreReleasesAreOrdered(a: seq<Identifier>, b: seq<Identifier>, c: seq<Identifier>)
    ensures Lawful(ComparePre, a, b, c)
  {
    forall x, y, z ensures Lawful(CompareIdentifier, x, y, z) {
      IdentifiersAreOrdered(x, y, z);
    }
    LexIsLawful(CompareIdentifier, a, b, c);
  }

  /** Precedence is a total order on versions. */
  lemma PrecedenceIsATotalOrder(u: Version, v: Version, w: Version)
    ensures Lawful(Compare, u, v, w)
  {
    PreReleasesAreOrdered(u.pre, v.pre, w.pre);
  }

  // ------------------------------------------------------------ section 11

  /** `a` and `b` agree up to `k`, and there comes `a`'s element first, or `a` ends. */
  ghost predicate FirstDifference<T(!new)>(a: seq<T>, b: seq<T>, first: (T, T) -> bool, k: nat) {
    && k <= |a| && k < |b| && a[..k] == b[..k]
    && (k < |a| ==> first(a[k], b[k]))
  }

  predicate CharBefore(c: char, d: char) {
    c < d
  }

  /** Rule 11.4: numbers by value and before everything else, other identifiers by
      their characters in ASCII order. */
  ghost predicate IdentifierBefore(a: Identifier, b: Identifier) {
    match (a, b)
    case (Numeric(m), Numeric(n)) => m < n
    case (Numeric(_), AlphaNumeric(_)) => true
    case (AlphaNumeric(_), Numeric(_)) => false
    case (AlphaNumeric(s), AlphaNumeric(t)) => exists k: nat :: FirstDifference(s, t, CharBefore, k)
  }

  /** Rules 11.2 to 11.4 for versions, by their first difference. */
  ghost predicate ComesBefore(v: Version, w: Version) {
    || v.major < w.major
    || (v.major == w.major && v.minor < w.minor)
    || (v.major == w.major && v.minor == w.minor && v.patch < w.patch)
    || (&& v.major == w.major && v.minor == w.minor && v.patch == w.patch
        && (|| (v.pre != [] && w.pre == [])
            || (v.pre != [] && exists k: nat :: FirstDifference(v.pre, w.pre, IdentifierBefore, k))))
  }

  lemma SameFirst<T>(a: seq<T>, b: seq<T>, k: nat)
    requires 0 < k <= |a| && k <= |b| && a[..k] == b[..k]
    ensures a[0] == b[0]
  {
    assert a[..k][0] == a[0] && b[..k][0] == b[0];
  }

  lemma {:induction false} LexFindsTheDifference<T(!new)>(a: seq<T>, b: seq<T>, cmp: (T, T) -> Ordering,
                                                         first: (T, T) -> bool)
    requires forall x, y :: (cmp(x, y) == Less <==> first(x, y)) && (cmp(x, y) == Equal <==> x == y)
    ensures Lex(a, b, cmp) == Less <==> exists k: nat :: FirstDifference(a, b, first, k)
    ensures forall x :: !first(x, x)
  {
    forall x ensures !first(x, x) {
      assert cmp(x, x) == Equal;
    }
    if a == [] || b == [] {
      assert a == [] && b != [] ==> FirstDifference(a, b, first, 0);
    } else {
      LexFindsTheDifference(a[1..], b[1..], cmp, first);
      if a[0] != b[0] {
        assert first(a[0], b[0]) ==> FirstDifference(a, b, first, 0);
        forall k: nat | FirstDifference(a, b, first, k) ensures k == 0 {
          if k > 0 {
            SameFirst(a, b, k);
          }
        }
      } else {
        forall k: nat | FirstDifference(a[1..], b[1..], first, k) ensures FirstDifference(a, b, first, k + 1) {
          assert a[..k + 1] == [a[0]] + a[1..][..k] && b[..k + 1] == [b[0]] + b[1..][..k];
        }
        forall k: nat | FirstDifference(a, b, first, k) ensures k > 0 && FirstDifference(a[1..], b[1..], first, k - 1) {
          assert k > 0;
          assert a[1..][..k - 1] == a[..k][1..] && b[1..][..k - 1] == b[..k][1..];
        }
      }
    }
  }

  lemma IdentifiersByTheRules(a: Identifier, b: Identifier)
    ensures CompareIdentifier(a, b) == Less <==> IdentifierBefore(a, b)
    ensures CompareIdentifier(a, b) == Equal <==> a == b
  {
    IdentifiersAreOrdered(a, b, b);
    if a.AlphaNumeric? && b.AlphaNumeric? {
      LexFindsTheDifference(a.text, b.text, CompareChar, CharBefore);
    }
  }

  /** Precedence is the one of section 11, for all versions: major, minor and patch decide
      in this order; then a pre-release comes before its release, and two pre-releases are
      decided by their first difference, of which one that has ended comes first. */
  lemma BelowByTheRules(v: Version, w: Version)
    ensures Below(v, w) <==> ComesBefore(v, w)
  {
    forall a, b
      ensures (CompareIdentifier(a, b) == Less <==> IdentifierBefore(a, b)) &&
              (CompareIdentifier(a, b) == Equal <==> a == b)
    {
      IdentifiersByTheRules(a, b);
    }
    LexFindsTheDifference(v.pre, w.pre, CompareIdentifier, IdentifierBefore);
  }

  /** The highest of a finite set. */
  ghost function Newest(releases: set<Version>): (r: Version)
    requires releases != {}
    ensures r in releases && forall v :: v in releases && v != r ==> Below(v, r)
    decreases |releases|
  {
    var v :| v in releases;
    var rest := releases - {v};
    if rest == {} then
      assert releases == {v};
      v
    else
      var best := Newest(rest);
      NewestStep(rest, best, v);
      assert rest + {v} == releases;
      if Below(best, v) then v else best
  }

  lemma NewestIs(releases: set<Version>, r: Version)
    requires r in releases && forall v :: v in releases && v != r ==> Below(v, r)
    ensures Newest(releases) == r
  {
    PrecedenceIsATotalOrder(Newest(releases), r, r);
  }

  lemma NewestStep(rest: set<Version>, best: Version, v: Version)
    requires best in rest && v !in rest && forall w :: w in rest && w != best ==> Below(w, best)
    ensures var r := if Below(best, v) then v else best;
            forall w :: w in rest + {v} && w != r ==> Below(w, r)
  {
    PrecedenceIsATotalOrder(best, v, v);
    forall w | w in rest && w != best ensures Below(best, v) ==> Below(w, v) {
      PrecedenceIsATotalOrder(w, best, v);
    }
  }
}

/**
 Which release `apb self-update` offers (crates/apb-cli/src/selfupdate.rs), with the
 newest release taken by precedence. The installer's release query either answers or
 fails; an install is of the running version.
 */
module ReleaseChoice {
  import opened SemVer

  datatype Outcome = UpToDate | Available(version: Version) | Failed
  datatype Channel = Stable | Any

  predicate IsStable(v: Version) {
    v.pre == []
  }

  predicate SameLine(v: Version, w: Version) {
    v.major == w.major && v.minor == w.minor && v.patch == w.patch
  }

  /** `takes_prerelease`. */
  predicate Takes(running: Version, newest: Version) {
    IsStable(newest) || SameLine(newest, running)
  }

  ghost function StableOnes(releases: set<Version>): set<Version> {
    set v | v in releases && IsStable(v)
  }

  /** `updater_for`; `answered` says that the look at the pre-releases did not fail, and
      the second result that the person is warned. */
  ghost function ChannelFor(running: Version, releases: set<Version>, answered: bool): (r: (Channel, bool))
    ensures r.1 <==> running.pre != [] && !answered
  {
    if IsStable(running) then (Stable, false)
    else if !answered then (Stable, true)
    else if releases != {} && Takes(running, Newest(releases)) then (Any, false)
    else (Stable, false)
  }

  /** `run_updater` on that channel. */
  ghost function OutcomeOn(running: Version, releases: set<Version>, channel: Channel): Outcome {
    var offered := if channel == Any then releases else StableOnes(releases);
    if offered == {} then Failed
    else if Below(running, Newest(offered)) then Available(Newest(offered))
    else UpToDate
  }

  ghost function SelfUpdate(running: Version, releases: set<Version>, answered: bool): Outcome {
    OutcomeOn(running, releases, ChannelFor(running, releases, answered).0)
  }

  /** What an install may move to at all: a newer release, or, from a pre-release, also a
      newer pre-release of the same line. */
  predicate Fits(running: Version, v: Version) {
    && Below(running, v)
    && (v.pre == [] ||
        (running.pre != [] && v.major == running.major && v.minor == running.minor && v.patch == running.patch))
  }

  /** An offer is a release above the running one; a stable install is offered stable
      ones only, a pre-release install no pre-release of another line. */
  lemma OfferFits(running: Version, releases: set<Version>, answered: bool)
    ensures var o := SelfUpdate(running, releases, answered);
            o.Available? ==> o.version in releases && Fits(running, o.version)
  {
  }

  /** A stable release above the running one always leads to an offer at least that
      new, also when the look at the pre-releases failed. */
  lemma NewerStableIsNotMissed(running: Version, releases: set<Version>, answered: bool, v: Version)
    requires v in releases && IsStable(v) && Below(running, v)
    ensures var o := SelfUpdate(running, releases, answered);
            o.Available? && !Below(o.version, v)
  {
    var channel := ChannelFor(running, releases, answered).0;
    var offered := if channel == Any then releases else StableOnes(releases);
    assert v in offered;
    var n := Newest(offered);
    PrecedenceIsATotalOrder(running, v, n);
    PrecedenceIsATotalOrder(v, n, n);
    PrecedenceIsATotalOrder(n, n, n);
  }

  /** The offer is the highest fitting release, or there is none to offer. */
  ghost predicate IsBest(running: Version, releases: set<Version>, o: Outcome) {
    if o.Available? then
      && o.version in releases && Fits(running, o.version)
      && forall v :: v in releases && Fits(running, v) && v != o.version ==> Below(v, o.version)
    else forall v :: v in releases ==> !Fits(running, v)
  }

  /** The highest release is a pre-release of another line, and behind it hides a
      pre-release of the running line above every stable release. */
  ghost predicate Hidden(running: Version, releases: set<Version>) {
    && releases != {} && Newest(releases).pre != []
    && Newest(releases).(pre := []) != running.(pre := [])
    && exists p :: p in releases && p.pre != [] && Fits(running, p) &&
                   forall s :: s in StableOnes(releases) ==> Below(s, p)
  }

  lemma StableInstallGetsTheBest(running: Version, releases: set<Version>, answered: bool)
    requires IsStable(running)
    ensures IsBest(running, releases, SelfUpdate(running, releases, answered))
  {
    forall v | v in releases && Fits(running, v) ensures v in StableOnes(releases) {
      NewerStableIsNotMissed(running, releases, answered, v);
    }
  }

  lemma TakenNewestIsBest(running: Version, releases: set<Version>)
    requires !IsStable(running) && releases != {} && Takes(running, Newest(releases))
    ensures IsBest(running, releases, SelfUpdate(running, releases, true))
  {
    var n := Newest(releases);
    forall v | v in releases && Fits(running, v) ensures Below(running, n) {
      PrecedenceIsATotalOrder(running, v, n);
    }
  }

  /** A pre-release install is offered the best fitting release exactly when none of
      its line is hidden behind a later line. */
  lemma PrereleaseInstallGetsTheBestUnlessHidden(running: Version, releases: set<Version>)
    requires !IsStable(running)
    ensures IsBest(running, releases, SelfUpdate(running, releases, true)) <==> !Hidden(running, releases)
  {
    var o := SelfUpdate(running, releases, true);
    if releases != {} && Takes(running, Newest(releases)) {
      TakenNewestIsBest(running, releases);
    } else if Hidden(running, releases) {
      HiddenIsMissed(running, releases);
    } else if releases != {} {
      UnhiddenIsBest(running, releases);
    }
  }

  lemma HiddenIsMissed(running: Version, releases: set<Version>)
    requires !IsStable(running) && Hidden(running, releases)
    ensures !IsBest(running, releases, SelfUpdate(running, releases, true))
  {
    var p :| p in releases && p.pre != [] && Fits(running, p) &&
             forall s :: s in StableOnes(releases) ==> Below(s, p);
    var o := SelfUpdate(running, releases, true);
    if o.Available? {
      assert o.version in StableOnes(releases);
      PrecedenceIsATotalOrder(o.version, p, p);
    }
  }

  lemma UnhiddenIsBest(running: Version, releases: set<Version>)
    requires !IsStable(running) && releases != {} && !Takes(running, Newest(releases)) && !Hidden(running, releases)
    ensures IsBest(running, releases, SelfUpdate(running, releases, true))
  {
    var o := SelfUpdate(running, releases, true);
    var stable := StableOnes(releases);
    forall v | v in releases && Fits(running, v) ensures o.Available? && (v != o.version ==> Below(v, o.version)) {
      var s: Version := v;
      if !IsStable(v) {
        s :| s in stable && !Below(s, v);
        PrecedenceIsATotalOrder(s, v, v);
        PrecedenceIsATotalOrder(running, v, s);
      }
      NewerStableIsNotMissed(running, releases, true, s);
      assert s in stable;
      PrecedenceIsATotalOrder(v, s, o.version);
    }
  }

  /** A tester whose own release is out, and nothing else above the running version, is
      offered that release. */
  lemma OwnReleaseIsOffered(running: Version, releases: set<Version>, answered: bool)
    requires !IsStable(running) && running.(pre := []) in releases
    requires forall v :: v in releases && ComesBefore(running, v) ==> v == running.(pre := [])
    ensures SelfUpdate(running, releases, answered) == Available(running.(pre := []))
  {
    var release := running.(pre := []);
    BelowByTheRules(running, release);
    NewerStableIsNotMissed(running, releases, answered, release);
    var o := SelfUpdate(running, releases, answered);
    OfferFits(running, releases, answered);
    BelowByTheRules(running, o.version);
  }

  function Beta(n: nat): Version {
    Version(1, 0, 0, [AlphaNumeric("beta"), Numeric(n)])
  }

  lemma BetasAreOrdered(m: nat, n: nat)
    requires m < n
    ensures Below(Beta(m), Beta(n)) && !Below(Beta(n), Beta(m))
  {
    var a, b := Beta(m).pre, Beta(n).pre;
    IdentifiersAreOrdered(a[0], b[0], b[0]);
    assert CompareIdentifier(a[0], b[0]) == Equal;
    assert a[1..] == [Numeric(m)] && b[1..] == [Numeric(n)];
    assert Lex(a[1..], b[1..], CompareIdentifier) == Less;
    assert Lex(a, b, CompareIdentifier) == Less;
    PrecedenceIsATotalOrder(Beta(m), Beta(n), Beta(n));
  }

  /** A tester of the 1.0.0 betas is told that beta n is up to date although the next
      one is out, when a 1.1.0 alpha stands next to it. */
  lemma NextBetaHidesBehindALaterLine(n: nat)
    ensures var releases := {Version(0, 9, 0, []), Beta(n), Beta(n + 1), Version(1, 1, 0, [AlphaNumeric("alpha")])};
            Hidden(Beta(n), releases) && SelfUpdate(Beta(n), releases, true) == UpToDate
  {
    var old_, alpha := Version(0, 9, 0, []), Version(1, 1, 0, [AlphaNumeric("alpha")]);
    var releases := {old_, Beta(n), Beta(n + 1), alpha};
    BetasAreOrdered(n, n + 1);
    NewestIs(releases, alpha);
    assert StableOnes(releases) == {old_};
    NewestIs({old_}, old_);
    assert Below(old_, Beta(n + 1)) && !Below(Beta(n), old_);
  }
}
