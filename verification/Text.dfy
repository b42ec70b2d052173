/**
 Strings as the readers of flags and files see them: Rust's `trim`, `split_once`, `split` and
 `join` for one separator character.
 */
module Text {

  /** The code points Unicode calls white space. */
  predicate IsSpace(c: char) {
    var n := c as int;
    || 0x09 <= n <= 0x0D || n == 0x20 || n == 0x85 || n == 0xA0 || n == 0x1680 || 0x2000 <= n <= 0x200A
    || n == 0x2028 || n == 0x2029 || n == 0x202F || n == 0x205F || n == 0x3000
  }

  function TrimStart(s: string): (r: string)
    ensures |r| <= |s|
  {
    if s != "" && IsSpace(s[0]) then TrimStart(s[1..]) else s
  }

  function TrimEnd(s: string): (r: string)
    ensures |r| <= |s|
  {
    if s != "" && IsSpace(s[|s| - 1]) then TrimEnd(s[..|s| - 1]) else s
  }

  function Trim(s: string): string {
    TrimEnd(TrimStart(s))
  }

  lemma TrimLeavesEnds(s: string)
    ensures Trim(s) == s <==> s == "" || (!IsSpace(s[0]) && !IsSpace(s[|s| - 1]))
  {
    if s != "" && IsSpace(s[0]) {
      assert |TrimStart(s)| <= |s| - 1;
    } else if s != "" && IsSpace(s[|s| - 1]) {
      assert |TrimEnd(s)| <= |s| - 1;
    }
  }

  predicate AllSpace(s: string) {
    forall i :: 0 <= i < |s| ==> IsSpace(s[i])
  }

  lemma {:induction false} TrimStartSplits(s: string) returns (a: string)
    ensures AllSpace(a) && s == a + TrimStart(s)
    ensures TrimStart(s) != "" ==> !IsSpace(TrimStart(s)[0])
  {
    if s != "" && IsSpace(s[0]) {
      var rest := TrimStartSplits(s[1..]);
      a := [s[0]] + rest;
    } else {
      a := "";
    }
  }

  lemma {:induction false} TrimEndSplits(s: string) returns (b: string)
    ensures AllSpace(b) && s == TrimEnd(s) + b
    ensures TrimEnd(s) != "" ==> !IsSpace(TrimEnd(s)[|TrimEnd(s)| - 1])
  {
    if s != "" && IsSpace(s[|s| - 1]) {
      var rest := TrimEndSplits(s[..|s| - 1]);
      b := rest + [s[|s| - 1]];
    } else {
      b := "";
    }
  }

  /** Trimming takes white space off both ends, and all of it. */
  lemma TrimSplits(s: string) returns (a: string, b: string)
    ensures AllSpace(a) && AllSpace(b) && s == a + Trim(s) + b
    ensures Trim(s) != "" ==> !IsSpace(Trim(s)[0]) && !IsSpace(Trim(s)[|Trim(s)| - 1])
  {
    a := TrimStartSplits(s);
    var t := TrimStart(s);
    b := TrimEndSplits(t);
    assert Trim(s) != "" ==> Trim(s)[0] == t[0];
  }

  lemma {:induction false} TrimStartSkips(a: string, s: string)
    requires AllSpace(a)
    ensures TrimStart(a + s) == TrimStart(s)
  {
    if a == "" {
      assert a + s == s;
    } else {
      assert (a + s)[1..] == a[1..] + s && (a + s)[0] == a[0];
      TrimStartSkips(a[1..], s);
    }
  }

  lemma {:induction false} TrimEndSkips(s: string, b: string)
    requires AllSpace(b)
    ensures TrimEnd(s + b) == TrimEnd(s)
  {
    if b == "" {
      assert s + b == s;
    } else {
      assert (s + b)[..|s + b| - 1] == s + b[..|b| - 1] && (s + b)[|s + b| - 1] == b[|b| - 1];
      TrimEndSkips(s, b[..|b| - 1]);
    }
  }

  lemma TrimFindsTheCore(a: string, core: string, b: string)
    requires AllSpace(a) && AllSpace(b)
    requires core == "" || (!IsSpace(core[0]) && !IsSpace(core[|core| - 1]))
    ensures Trim(a + core + b) == core
  {
    assert a + core + b == a + (core + b);
    TrimStartSkips(a, core + b);
    if core == "" {
      assert core + b == b + "";
      TrimStartSkips(b, "");
    } else {
      assert (core + b)[0] == core[0];
      TrimEndSkips(core, b);
    }
  }

  /** The first position of `c`, or the end. */
  function Find(s: string, c: char): (i: nat)
    ensures i <= |s| && (i < |s| ==> s[i] == c)
    ensures forall k :: 0 <= k < i ==> s[k] != c
    ensures i == |s| <==> c !in s
  {
    if s == "" then 0 else if s[0] == c then 0 else 1 + Find(s[1..], c)
  }

  lemma FindIsTheSeparator(a: string, c: char, b: string)
    requires c !in a
    ensures Find(a + [c] + b, c) == |a|
    ensures (a + [c] + b)[..|a|] == a && (a + [c] + b)[|a| + 1..] == b
  {
    var s := a + [c] + b;
    assert s[|a|] == c;
    assert forall k :: 0 <= k < |a| ==> s[k] == a[k];
  }

  function Split(s: string, c: char): seq<string>
    decreases |s|
  {
    var i := Find(s, c);
    if i == |s| then [s] else [s[..i]] + Split(s[i + 1..], c)
  }

  function Join(parts: seq<string>, c: char): string {
    if parts == [] then ""
    else if |parts| == 1 then parts[0]
    else parts[0] + [c] + Join(parts[1..], c)
  }

  lemma {:induction false} SplitJoin(parts: seq<string>, c: char)
    requires parts != [] && forall i :: 0 <= i < |parts| ==> c !in parts[i]
    ensures Split(Join(parts, c), c) == parts
  {
    if |parts| > 1 {
      FindIsTheSeparator(parts[0], c, Join(parts[1..], c));
      SplitJoin(parts[1..], c);
    }
  }
}

/**
 The lines of a text file, as Rust's `lines` gives them.
 */
module TextLines {
  import opened Text

  /** A terminated line without its carriage return. */
  function Stripped(line: string): string {
    if line != "" && line[|line| - 1] == '\r' then line[..|line| - 1] else line
  }

  /** Rust's `lines`: `\n` or `\r\n` ends a line; a last line without `\n` is kept whole. */
  function Lines(s: string): seq<string>
    decreases |s|
  {
    if s == "" then []
    else
      var i := Find(s, '\n');
      if i == |s| then [s] else [Stripped(s[..i])] + Lines(s[i + 1..])
  }

  predicate EndsLine(s: string) {
    s == "" || s[|s| - 1] == '\n'
  }

  lemma SliceFront(a: string, b: string, i: nat)
    requires i < |a|
    ensures (a + b)[..i] == a[..i] && (a + b)[i + 1..] == a[i + 1..] + b
    ensures a != "" && EndsLine(a) ==> EndsLine(a[i + 1..])
  {
  }

  lemma LinesStep(a: string, b: string, i: nat)
    requires i < |a| && a[i] == '\n' && forall k :: 0 <= k < i ==> a[k] != '\n'
    ensures Lines(a + b) == [Stripped(a[..i])] + Lines(a[i + 1..] + b)
  {
    assert '\n' in a && Find(a, '\n') == i;
    FindInFront(a, b, '\n');
    SliceFront(a, b, i);
  }

  lemma Glue(x: string, front: seq<string>, back: seq<string>)
    ensures [x] + (front + back) == ([x] + front) + back
  {
  }

  lemma {:induction false} LinesOfBoth(a: string, b: string)
    requires EndsLine(a)
    ensures Lines(a + b) == Lines(a) + Lines(b)
    decreases |a|
  {
    if a == "" {
      assert a + b == b;
    } else {
      var i := Find(a, '\n');
      assert a[|a| - 1] == '\n';
      var rest := a[i + 1..];
      LinesStep(a, b, i);
      LinesStep(a, "", i);
      assert a + "" == a && rest + "" == rest;
      LinesOfBoth(rest, b);
      Glue(Stripped(a[..i]), Lines(rest), Lines(b));
    }
  }

  lemma FindInFront(a: string, b: string, c: char)
    requires c in a
    ensures Find(a + b, c) == Find(a, c) < |a|
  {
    var i := Find(a, c);
    assert (a + b)[i] == a[i] == c;
    assert forall k :: 0 <= k < i ==> (a + b)[k] == a[k] != c;
  }

  /** The text, its last line terminated. */
  function Ended(s: string): (r: string)
    ensures EndsLine(r) && s <= r
  {
    if EndsLine(s) then s else s + "\n"
  }

  /** Lines whose last one ends like `s`, and the same lines once that is ended. */
  ghost predicate AreEnded(s: string, lines: seq<string>, ended: seq<string>) {
    && s != "" && lines != []
    && var last := lines[|lines| - 1];
    && last != "" && last[|last| - 1] == s[|s| - 1]
    && ended == lines[..|lines| - 1] + [Stripped(last)]
  }

  lemma AreEndedStep(s: string, rest: string, x: string, lines: seq<string>, ended: seq<string>)
    requires AreEnded(rest, lines, ended) && s != "" && s[|s| - 1] == rest[|rest| - 1]
    ensures AreEnded(s, [x] + lines, [x] + ended)
  {
    assert ([x] + lines)[..|lines|] == [x] + lines[..|lines| - 1];
  }

  lemma LastLineEnded(s: string)
    requires s != "" && '\n' !in s
    ensures AreEnded(s, Lines(s), Lines(s + "\n"))
  {
    FindIsTheSeparator(s, '\n', "");
    assert s + "\n" == s + ['\n'] + "";
    assert Lines("") == [];
  }

  lemma RestEndsAlike(s: string, i: nat)
    requires i < |s| && s[i] == '\n' && !EndsLine(s)
    ensures var rest := s[i + 1..]; !EndsLine(rest) && rest != "" && rest[|rest| - 1] == s[|s| - 1]
  {
  }

  /** A text with a first line, and the same text with a line end after it. */
  lemma FirstLineOf(s: string, i: nat)
    requires i < |s| && i == Find(s, '\n')
    ensures Lines(s) == [Stripped(s[..i])] + Lines(s[i + 1..])
  {
    LinesStep(s, "", i);
    assert s + "" == s && s[i + 1..] + "" == s[i + 1..];
  }

  lemma FirstLineOfEnded(s: string, i: nat)
    requires i < |s| && i == Find(s, '\n')
    ensures Lines(s + "\n") == [Stripped(s[..i])] + Lines(s[i + 1..] + "\n")
  {
    LinesStep(s, "\n", i);
  }

  /** Ending the last line costs it its carriage return, and changes no other line. */
  lemma {:induction false} LinesOfEnded(s: string)
    requires !EndsLine(s)
    ensures AreEnded(s, Lines(s), Lines(s + "\n"))
    decreases |s|
  {
    var i := Find(s, '\n');
    if i == |s| {
      LastLineEnded(s);
    } else {
      var rest := s[i + 1..];
      RestEndsAlike(s, i);
      FirstLineOf(s, i);
      FirstLineOfEnded(s, i);
      LinesOfEnded(rest);
      AreEndedStep(s, rest, Stripped(s[..i]), Lines(rest), Lines(rest + "\n"));
    }
  }
}
