/**
 The `--max-size` value of `apb cache prune` (crates/apb-cli/src/cache.rs): the parser
 with its checked 64-bit arithmetic, against a grammar with exact values.
 */
module SizeParser {
  import opened Numerals
  import opened Options
  import opened Text

  // -------------------------------------------------------------- numerals

  /** What is left of a numeral after its sign: one `+` is allowed in front of more. */
  function Unsigned(s: string): string {
    if |s| > 1 && s[0] == '+' then s[1..] else s
  }

  predicate IsNumeral(s: string) {
    Unsigned(s) != "" && AllDigits(Unsigned(s))
  }

  /** `u64::from_str`: digit by digit, each step checked. */
  function Accumulate(s: string, acc: nat): Option<nat> {
    if s == "" then Some(acc)
    else if !IsDigit(s[0]) then None
    else if acc * 10 > U64_MAX then None
    else if acc * 10 + Digit(s[0]) > U64_MAX then None
    else Accumulate(s[1..], acc * 10 + Digit(s[0]))
  }

  function ParseU64(s: string): Option<nat> {
    if Unsigned(s) == "" then None else Accumulate(Unsigned(s), 0)
  }

  lemma {:induction false} ValueOfBoth(a: string, d: char, b: string)
    requires AllDigits(a) && IsDigit(d) && AllDigits(b)
    ensures AllDigits(a + [d] + b) && AllDigits(a + [d])
    ensures Value(a + [d]) == 10 * Value(a) + Digit(d)
    ensures Value(a + [d] + b) >= Value(a + [d])
    ensures Value(a + [d]) >= 10 * Value(a)
    decreases |b|
  {
    assert (a + [d])[..|a|] == a;
    if b == "" {
      assert a + [d] + b == a + [d];
    } else {
      var front := b[..|b| - 1];
      ValueOfBoth(a, d, front);
      assert (a + [d] + b)[..|a + [d] + b| - 1] == a + [d] + front;
    }
  }

  /** An overflow seen early is an overflow of the whole numeral, and no wrapped value
      gets through. */
  lemma {:induction false} AccumulateIsExact(done: string, s: string)
    requires AllDigits(done) && Value(done) <= U64_MAX
    ensures Accumulate(s, Value(done)) ==
            (if AllDigits(s) && Value(done + s) <= U64_MAX then Some(Value(done + s)) else None)
    decreases |s|
  {
    if s == "" {
      assert done + s == done;
    } else if IsDigit(s[0]) {
      var next := done + [s[0]];
      assert done + s == next + s[1..];
      ValueOfBoth(done, s[0], "");
      assert AllDigits(s) <==> AllDigits(s[1..]) by {
        assert s == [s[0]] + s[1..];
      }
      if AllDigits(s) {
        ValueOfBoth(done, s[0], s[1..]);
      }
      if Value(next) <= U64_MAX {
        AccumulateIsExact(next, s[1..]);
      }
    }
  }

  function Bounded(v: nat): Option<nat> {
    if v <= U64_MAX then Some(v) else None
  }

  lemma ParseU64IsExact(s: string)
    ensures ParseU64(s) == if IsNumeral(s) then Bounded(Value(Unsigned(s))) else None
  {
    var digits := Unsigned(s);
    AccumulateIsExact("", digits);
    assert "" + digits == digits;
  }

  // ------------------------------------------------------------------ sizes

  function LowerChar(c: char): char {
    if 'A' <= c <= 'Z' then (c as int + 32) as char else c
  }

  function Lower(s: string): (r: string)
    ensures |r| == |s| && forall i :: 0 <= i < |s| ==> r[i] == LowerChar(s[i])
  {
    seq(|s|, i requires 0 <= i < |s| => LowerChar(s[i]))
  }

  function Multiplier(c: char): Option<nat> {
    match c
    case 'k' => Some(1024)
    case 'm' => Some(1024 * 1024)
    case 'g' => Some(1024 * 1024 * 1024)
    case _ => None
  }

  function CheckedMul(a: Option<nat>, b: nat): Option<nat> {
    if a.Some? && a.value * b <= U64_MAX then Some(a.value * b) else None
  }

  function ParseSize(text: string): Option<nat> {
    ParseTrimmed(Lower(Trim(text)))
  }

  function ParseTrimmed(s: string): Option<nat> {
    var plain := ParseU64(s);
    if plain.Some? then plain
    else if s == "" || Multiplier(s[|s| - 1]).None? then None
    else CheckedMul(ParseU64(Trim(s[..|s| - 1])), Multiplier(s[|s| - 1]).value)
  }

  // ----------------------------------------------------------------- grammar

  datatype Size = Size(plus: bool, digits: string, gap: string, suffix: Option<char>)

  predicate WellFormed(z: Size) {
    && z.digits != "" && AllDigits(z.digits) && AllSpace(z.gap)
    && (if z.suffix.Some? then Multiplier(LowerChar(z.suffix.value)).Some? else z.gap == "")
  }

  function Numeral(z: Size): string {
    (if z.plus then "+" else "") + z.digits
  }

  function Written(z: Size): string {
    Numeral(z) + z.gap + (if z.suffix.Some? then [z.suffix.value] else "")
  }

  /** The bytes a written size stands for, without any bound. */
  function Bytes(z: Size): nat
    requires WellFormed(z)
  {
    Value(z.digits) * (if z.suffix.Some? then Multiplier(LowerChar(z.suffix.value)).value else 1)
  }

  /** `text` is the size, with white space around it. */
  ghost predicate Denotes(text: string, z: Size) {
    WellFormed(z) && exists a, b :: AllSpace(a) && AllSpace(b) && text == a + Written(z) + b
  }

  // ------------------------------------------------------------------- proofs

  lemma NumeralChars(n: string)
    requires IsNumeral(n)
    ensures n != "" && IsDigit(n[|n| - 1]) && forall i :: 0 <= i < |n| ==> IsDigit(n[i]) || n[i] == '+'
  {
    var d := Unsigned(n);
    if d == n[1..] {
      assert forall i :: 1 <= i < |n| ==> n[i] == d[i - 1];
    }
  }

  lemma NumeralIsItself(n: string)
    requires IsNumeral(n)
    ensures Lower(n) == n && !IsSpace(n[0]) && !IsSpace(n[|n| - 1])
  {
    NumeralChars(n);
  }

  lemma NumeralOf(z: Size)
    requires WellFormed(z)
    ensures Unsigned(Numeral(z)) == z.digits && IsNumeral(Numeral(z))
  {
    var n := Numeral(z);
    if z.plus {
      assert n[1..] == z.digits;
    } else {
      assert n == z.digits && IsDigit(n[0]);
    }
  }

  lemma SpaceStaysLower(s: string)
    requires AllSpace(s)
    ensures Lower(s) == s
  {
  }

  lemma LowerOfBoth(a: string, b: string)
    ensures Lower(a + b) == Lower(a) + Lower(b)
  {
  }

  lemma WrittenEnds(z: Size)
    requires WellFormed(z)
    ensures var core := Written(z); core != "" && !IsSpace(core[0]) && !IsSpace(core[|core| - 1])
  {
    var n, core := Numeral(z), Written(z);
    NumeralOf(z);
    NumeralIsItself(n);
    assert core[0] == n[0];
    if z.suffix.Some? {
      assert core[|core| - 1] == z.suffix.value;
    } else {
      assert core == n;
    }
  }

  lemma PlainIsRead(n: string)
    requires IsNumeral(n)
    ensures ParseU64(Lower(n)) == Bounded(Value(Unsigned(n)))
    ensures Multiplier(Lower(n)[|n| - 1]).None?
  {
    NumeralIsItself(n);
    NumeralChars(n);
    ParseU64IsExact(n);
  }

  lemma LowerWritten(z: Size)
    requires WellFormed(z) && z.suffix.Some?
    ensures Lower(Written(z)) == Numeral(z) + z.gap + [LowerChar(z.suffix.value)]
  {
    var n := Numeral(z);
    NumeralOf(z);
    NumeralIsItself(n);
    SpaceStaysLower(z.gap);
    LowerOfBoth(n + z.gap, [z.suffix.value]);
    LowerOfBoth(n, z.gap);
  }

  lemma NotANumeral(s: string)
    requires s != "" && !IsDigit(s[|s| - 1])
    ensures ParseU64(s).None?
  {
    ParseU64IsExact(s);
    if IsNumeral(s) {
      NumeralChars(s);
    }
  }

  lemma SuffixedIsRead(n: string, gap: string, c: char)
    requires IsNumeral(n) && AllSpace(gap) && !IsDigit(c)
    ensures var s := n + gap + [c];
            && s != "" && ParseU64(s).None? && s[|s| - 1] == c
            && ParseU64(Trim(s[..|s| - 1])) == Bounded(Value(Unsigned(n)))
  {
    var s := n + gap + [c];
    NotANumeral(s);
    NumeralIsItself(n);
    assert s[..|s| - 1] == "" + n + gap;
    TrimFindsTheCore("", n, gap);
    ParseU64IsExact(n);
  }

  /** Every size of the grammar that fits in 64 bits is read as its exact value, and no
      other one is read. */
  lemma SizesAreRead(text: string, z: Size)
    requires Denotes(text, z)
    ensures ParseSize(text) == Bounded(Bytes(z))
  {
    var a, b :| AllSpace(a) && AllSpace(b) && text == a + Written(z) + b;
    WrittenEnds(z);
    TrimFindsTheCore(a, Written(z), b);
    WrittenIsRead(text, z);
  }

  lemma WrittenIsRead(text: string, z: Size)
    requires WellFormed(z) && Trim(text) == Written(z)
    ensures ParseSize(text) == Bounded(Bytes(z))
  {
    NumeralOf(z);
    if z.suffix.None? {
      assert Written(z) == Numeral(z);
      PlainSize(Numeral(z));
    } else {
      LowerWritten(z);
      SuffixedSize(Numeral(z), z.gap, LowerChar(z.suffix.value));
    }
  }

  lemma PlainSize(n: string)
    requires IsNumeral(n)
    ensures ParseTrimmed(Lower(n)) == Bounded(Value(Unsigned(n)))
  {
    PlainIsRead(n);
  }

  lemma MultipliedIsNoLess(v: nat, m: nat)
    requires m >= 1
    ensures v * m >= v
  {
  }

  lemma SuffixedSize(n: string, gap: string, c: char)
    requires IsNumeral(n) && AllSpace(gap) && Multiplier(c).Some?
    ensures var bytes := Value(Unsigned(n)) * Multiplier(c).value;
            ParseTrimmed(n + gap + [c]) == Bounded(bytes)
  {
    SuffixedIsRead(n, gap, c);
    MultipliedIsNoLess(Value(Unsigned(n)), Multiplier(c).value);
  }

  /** A lower-cased numeral was one. */
  lemma LowerNumeral(s: string)
    requires IsNumeral(Lower(s))
    ensures Lower(s) == s
  {
    var t := Lower(s);
    forall i | 0 <= i < |s| ensures s[i] == t[i] {
      assert IsDigit(t[i]) || t[i] == '+' by {
        if Unsigned(t) != t && i > 0 {
          assert Unsigned(t)[i - 1] == t[i];
        }
      }
    }
  }

  function SizeFor(numeral: string, gap: string, suffix: Option<char>): (z: Size)
    requires IsNumeral(numeral)
    ensures Numeral(z) == numeral && z.digits == Unsigned(numeral) && z.gap == gap && z.suffix == suffix
  {
    if |numeral| > 1 && numeral[0] == '+' then
      assert "+" + numeral[1..] == numeral;
      Size(true, numeral[1..], gap, suffix)
    else
      assert "" + numeral == numeral;
      Size(false, numeral, gap, suffix)
  }

  lemma PlainWas(core: string) returns (z: Size)
    requires ParseU64(Lower(core)).Some?
    ensures WellFormed(z) && Written(z) == core
  {
    ParseU64IsExact(Lower(core));
    LowerNumeral(core);
    z := SizeFor(core, "", None);
  }

  lemma TrimmedWasNumeral(front: string)
    requires ParseU64(Trim(Lower(front))).Some?
    ensures IsNumeral(Trim(front))
  {
    LowerTrims(front);
    ParseU64IsExact(Lower(Trim(front)));
    LowerNumeral(Trim(front));
  }

  lemma Regroup(a: string, n: string, gap: string, c: char)
    ensures a + (n + gap + [c]) == (a + n + gap) + [c]
  {
  }

  lemma SuffixedWas(front: string, c: char) returns (a: string, z: Size)
    requires IsNumeral(Trim(front)) && Multiplier(LowerChar(c)).Some?
    ensures WellFormed(z) && AllSpace(a) && a + Written(z) == front + [c]
  {
    var n := Trim(front);
    var gap;
    a, gap := TrimSplits(front);
    z := SizeFor(n, gap, Some(c));
    Regroup(a, n, gap, c);
  }

  lemma LowerFront(core: string)
    requires core != ""
    ensures Lower(core)[..|core| - 1] == Lower(core[..|core| - 1])
  {
  }

  lemma SuffixedParsed(core: string) returns (front: string, c: char)
    requires ParseTrimmed(Lower(core)).Some? && ParseU64(Lower(core)).None?
    ensures core == front + [c] && IsNumeral(Trim(front)) && Multiplier(LowerChar(c)).Some?
  {
    front, c := core[..|core| - 1], core[|core| - 1];
    LowerFront(core);
    TrimmedWasNumeral(front);
  }

  lemma DenotesIn(text: string, a: string, a2: string, b: string, core: string, z: Size)
    requires WellFormed(z) && AllSpace(a) && AllSpace(a2) && AllSpace(b)
    requires text == a + core + b && core == a2 + Written(z)
    ensures Denotes(text, z)
  {
    assert AllSpace(a + a2) && text == (a + a2) + Written(z) + b;
  }

  /** What is read is a size of the grammar. */
  lemma ReadIsASize(text: string) returns (z: Size)
    requires ParseSize(text).Some?
    ensures Denotes(text, z)
  {
    var core := Trim(text);
    var s := Lower(core);
    var a, b := TrimSplits(text);
    var a2 := "";
    if ParseU64(s).Some? {
      z := PlainWas(core);
      assert core == "" + Written(z);
    } else {
      var front, c := SuffixedParsed(core);
      a2, z := SuffixedWas(front, c);
    }
    DenotesIn(text, a, a2, b, core, z);
  }

  /** Lower-casing and trimming commute. */
  lemma LowerTrims(s: string)
    ensures Trim(Lower(s)) == Lower(Trim(s))
  {
    var a, b := TrimSplits(s);
    var core := Trim(s);
    SpaceStaysLower(a);
    SpaceStaysLower(b);
    LowerOfBoth(a + core, b);
    LowerOfBoth(a, core);
    TrimFindsTheCore(a, Lower(core), b);
  }

  /** The parser and the grammar agree on every string. */
  lemma ParseSizeIsExact(text: string, v: nat)
    ensures ParseSize(text) == Some(v) <==> v <= U64_MAX && exists z :: Denotes(text, z) && Bytes(z) == v
  {
    if ParseSize(text) == Some(v) {
      var z := ReadIsASize(text);
      SizesAreRead(text, z);
    }
    forall z | Denotes(text, z) && Bytes(z) == v && v <= U64_MAX ensures ParseSize(text) == Some(v) {
      SizesAreRead(text, z);
    }
  }

  function Power(b: nat, e: nat): nat {
    if e == 0 then 1 else b * Power(b, e - 1)
  }

  lemma TenDoublings(e: nat)
    ensures Power(2, e + 10) == 1024 * Power(2, e)
  {
    assert Power(2, e + 2) == 4 * Power(2, e);
    assert Power(2, e + 4) == 4 * Power(2, e + 2);
    assert Power(2, e + 6) == 4 * Power(2, e + 4);
    assert Power(2, e + 8) == 4 * Power(2, e + 6);
  }

  /** What a letter after a number multiplies it with. */
  function BytesPer(c: char): Option<nat> {
    if c in {'k', 'K'} then Some(Power(2, 10))
    else if c in {'m', 'M'} then Some(Power(2, 20))
    else if c in {'g', 'G'} then Some(Power(2, 30))
    else None
  }

  /** `n` times that. */
  function Scaled(n: nat, per: nat): nat {
    n * per
  }

  lemma MultiplierIsBytesPer(c: char)
    ensures Multiplier(LowerChar(c)) == BytesPer(c)
  {
    TenDoublings(0);
    TenDoublings(10);
    TenDoublings(20);
  }

  function DecimalSize(n: nat, suffix: Option<char>): (z: Size)
    requires suffix.Some? ==> BytesPer(suffix.value).Some?
    ensures WellFormed(z) && z.digits == Decimal(n) && z.suffix == suffix
    ensures Written(z) == Decimal(n) + (if suffix.Some? then [suffix.value] else "")
  {
    if suffix.Some? then
      MultiplierIsBytesPer(suffix.value);
      Size(false, Decimal(n), "", suffix)
    else Size(false, Decimal(n), "", None)
  }

  lemma DecimalIsASize(n: nat, suffix: Option<char>)
    requires suffix.Some? ==> BytesPer(suffix.value).Some?
    ensures Bytes(DecimalSize(n, suffix)) == Scaled(n, if suffix.Some? then BytesPer(suffix.value).value else 1)
    ensures Denotes(Decimal(n) + (if suffix.Some? then [suffix.value] else ""), DecimalSize(n, suffix))
  {
    var z := DecimalSize(n, suffix);
    DecimalRoundTrip(n);
    if suffix.Some? {
      MultiplierIsBytesPer(suffix.value);
    }
    assert Written(z) == "" + Written(z) + "";
  }

  lemma SizedNumber(n: nat, suffix: Option<char>)
    requires suffix.Some? ==> BytesPer(suffix.value).Some?
    ensures ParseSize(Decimal(n) + (if suffix.Some? then [suffix.value] else "")) ==
            Bounded(Scaled(n, if suffix.Some? then BytesPer(suffix.value).value else 1))
  {
    DecimalIsASize(n, suffix);
    SizesAreRead(Decimal(n) + (if suffix.Some? then [suffix.value] else ""), DecimalSize(n, suffix));
  }

  lemma OtherLetters(n: nat, c: char)
    requires !IsSpace(c) && !IsDigit(c) && BytesPer(c).None?
    ensures ParseSize(Decimal(n) + [c]).None?
  {
    var text := Decimal(n) + [c];
    NumeralOf(DecimalSize(n, None));
    assert Numeral(DecimalSize(n, None)) == Decimal(n);
    NumeralIsItself(Decimal(n));
    TrimLeavesEnds(text);
    LowerOfBoth(Decimal(n), [c]);
    MultiplierIsBytesPer(c);
    NotANumeral(Lower(text));
  }

  /** A number alone is that many bytes; with a k, m or g after it, in either case, that
      many times 2^10, 2^20 or 2^30, up to 2^64 - 1; and with any other character it is
      no size. */
  lemma NumbersAndSuffixes(n: nat, c: char)
    requires !IsSpace(c) && !IsDigit(c)
    ensures ParseSize(Decimal(n)) == Bounded(n)
    ensures ParseSize(Decimal(n) + [c]) ==
            if BytesPer(c).Some? then Bounded(Scaled(n, BytesPer(c).value)) else None
  {
    SizedNumber(n, None);
    assert Decimal(n) + "" == Decimal(n);
    if BytesPer(c).Some? {
      SizedNumber(n, Some(c));
    } else {
      OtherLetters(n, c);
    }
  }
}
