/**
 The `.gitignore` of a project's `.apb` (`ensure_local_ignored` in
 crates/apb-core/src/workspace.rs): existing lines are kept and only the missing entries
 added. The list of entries is a parameter.
 */
module IgnoreFile {
  import opened Options
  import opened Text
  import opened TextLines

  function DropFront(s: string): (r: string)
    ensures r != "" ==> r[0] != '/'
  {
    if s != "" && s[0] == '/' then DropFront(s[1..]) else s
  }

  function DropBack(s: string): (r: string)
    ensures r != "" ==> r[|r| - 1] != '/'
    ensures r <= s
  {
    if s != "" && s[|s| - 1] == '/' then DropBack(s[..|s| - 1]) else s
  }

  /** What a line ignores: white space and slashes around it do not matter. */
  function Norm(line: string): string {
    DropBack(DropFront(Trim(line)))
  }

  /** What a file ignores. */
  function Ignored(lines: seq<string>): set<string> {
    set l | l in lines :: Norm(l)
  }

  function Missing(entries: seq<string>, ignored: set<string>): (r: seq<string>)
    ensures forall e :: e in r <==> e in entries && Norm(e) !in ignored
  {
    if entries == [] then []
    else
      var front, e := Missing(entries[..|entries| - 1], ignored), entries[|entries| - 1];
      if Norm(e) in ignored then front else front + [e]
  }

  function EntryLines(entries: seq<string>): string {
    if entries == [] then "" else EntryLines(entries[..|entries| - 1]) + entries[|entries| - 1] + "\n"
  }

  /** The text after the write. */
  function Completed(current: string, entries: seq<string>): string {
    var add := Missing(entries, Ignored(Lines(current)));
    if add == [] then current else Ended(current) + EntryLines(add)
  }

  /** Entries are lines. */
  predicate AreLines(entries: seq<string>) {
    forall e :: e in entries ==> '\n' !in e && (e != "" ==> e[|e| - 1] != '\r')
  }

  lemma OneMoreEntry(text: string, add: seq<string>, i: nat)
    requires i < |add|
    ensures text + EntryLines(add[..i]) + add[i] + "\n" == text + EntryLines(add[..i + 1])
  {
    assert add[..i + 1][..i] == add[..i] && add[..i + 1][i] == add[i];
    assert text + EntryLines(add[..i]) + add[i] + "\n" == text + (EntryLines(add[..i]) + add[i] + "\n");
  }

  lemma EntryLinesGrow(entries: seq<string>)
    requires entries != []
    ensures EntryLines(entries) != ""
  {
  }

  /** Nothing is missing: every entry is ignored, in whatever spelling. */
  ghost predicate AllIgnored(current: string, entries: seq<string>) {
    forall e :: e in entries ==> Norm(e) in Ignored(Lines(current))
  }

  /** `ensure_local_ignored`: builds the new text in place; none when nothing is missing. */
  method EnsureLocalIgnored(current: string, entries: seq<string>) returns (next: Option<string>)
    ensures next.None? <==> AllIgnored(current, entries)
    ensures next.Some? ==> next.value == Completed(current, entries) && next.value != current
    ensures next.None? ==> Completed(current, entries) == current
  {
    var add := Missing(entries, Ignored(Lines(current)));
    if add == [] {
      return None;
    }
    assert add[0] in add;
    var text := current;
    if text != "" && text[|text| - 1] != '\n' {
      text := text + ['\n'];
    }
    for i := 0 to |add|
      invariant text == Ended(current) + EntryLines(add[..i])
    {
      OneMoreEntry(Ended(current), add, i);
      text := text + add[i];
      text := text + ['\n'];
    }
    assert add[..|add|] == add;
    EntryLinesGrow(add);
    return Some(text);
  }

  // ------------------------------------------------------------------ theorems

  lemma OneEntryLine(e: string)
    requires AreLines([e])
    ensures Lines(e + "\n") == [e]
  {
    assert e in [e];
    FindIsTheSeparator(e, '\n', "");
    assert e + "\n" == e + ['\n'] + "";
    assert Lines("") == [];
  }

  lemma EntryStep(front: seq<string>, e: string)
    ensures EntryLines(front + [e]) == EntryLines(front) + (e + "\n")
  {
    assert (front + [e])[..|front|] == front;
  }

  lemma {:induction false} EntriesAreRead(entries: seq<string>)
    requires AreLines(entries)
    ensures EndsLine(EntryLines(entries)) && Lines(EntryLines(entries)) == entries
  {
    if entries == [] {
      assert Lines("") == [];
    } else {
      var front, e := entries[..|entries| - 1], entries[|entries| - 1];
      assert entries == front + [e];
      EntriesAreRead(front);
      OneEntryLine(e);
      EntryStep(front, e);
      LinesOfBoth(EntryLines(front), e + "\n");
    }
  }

  lemma TrimDropsCr(l: string)
    ensures Trim(Stripped(l)) == Trim(l)
  {
    if Stripped(l) != l {
      var a, b := TrimSplits(Stripped(l));
      var core := Trim(Stripped(l));
      TrimFindsTheCore(a, core, b + "\r");
      assert l == a + core + (b + "\r");
    }
  }

  lemma IgnoredOfBoth(a: seq<string>, b: seq<string>)
    ensures Ignored(a + b) == Ignored(a) + Ignored(b)
  {
  }

  lemma StrippedIgnoresTheSame(front: seq<string>, last: string)
    ensures Ignored(front + [last]) == Ignored(front + [Stripped(last)])
  {
    TrimDropsCr(last);
    IgnoredOfBoth(front, [last]);
    IgnoredOfBoth(front, [Stripped(last)]);
    assert Ignored([last]) == {Norm(last)} && Ignored([Stripped(last)]) == {Norm(Stripped(last))};
  }

  lemma EndedIgnoresTheSame(s: string, lines: seq<string>, ended: seq<string>)
    requires AreEnded(s, lines, ended)
    ensures Ignored(ended) == Ignored(lines)
  {
    var front, last := lines[..|lines| - 1], lines[|lines| - 1];
    assert lines == front + [last];
    StrippedIgnoresTheSame(front, last);
  }

  /** Ending the last line does not change what a file ignores. */
  lemma EndingIgnoresTheSame(s: string)
    ensures Ignored(Lines(Ended(s))) == Ignored(Lines(s))
  {
    if !EndsLine(s) {
      LinesOfEnded(s);
      EndedIgnoresTheSame(s, Lines(s), Lines(s + "\n"));
    }
  }

  /** The old text stays in front; afterwards the file ignores what it did and every entry,
      and nothing else; and a second call changes nothing. */
  lemma KeepsAndCompletes(current: string, entries: seq<string>)
    requires AreLines(entries)
    ensures current <= Completed(current, entries)
    ensures Ignored(Lines(Completed(current, entries))) == Ignored(Lines(current)) + Ignored(entries)
    ensures Completed(Completed(current, entries), entries) == Completed(current, entries)
  {
    var before := Ignored(Lines(current));
    var add := Missing(entries, before);
    if add != [] {
      EntriesAreRead(add);
      LinesOfBoth(Ended(current), EntryLines(add));
      IgnoredOfBoth(Lines(Ended(current)), add);
      EndingIgnoresTheSame(current);
      assert before + Ignored(add) == before + Ignored(entries);
    }
    var after := Completed(current, entries);
    assert Ignored(Lines(after)) == before + Ignored(entries) by {
      if add == [] {
        forall e | e in entries ensures Norm(e) in before {
          assert e !in add;
        }
      }
    }
    NothingMissing(entries, Ignored(Lines(after)));
  }

  lemma {:induction false} NothingMissing(entries: seq<string>, ignored: set<string>)
    requires forall e :: e in entries ==> Norm(e) in ignored
    ensures Missing(entries, ignored) == []
  {
    if entries != [] {
      NothingMissing(entries[..|entries| - 1], ignored);
    }
  }

  /** An entry that is there in another spelling, anchored or without its last slash, is
      not added again. */
  lemma OtherSpellings(name: string)
    requires name != "" && !IsSpace(name[0]) && !IsSpace(name[|name| - 1]) && name[0] != '/' && name[|name| - 1] != '/'
    ensures Norm(name) == name && Norm("/" + name) == name && Norm(name + "/") == name && Norm("/" + name + "/") == name
  {
    forall s | s in {name, "/" + name, name + "/", "/" + name + "/"} ensures Trim(s) == s {
      TrimLeavesEnds(s);
    }
    DropsSlashes(name);
  }

  lemma DropsSlashes(name: string)
    requires name != "" && name[0] != '/' && name[|name| - 1] != '/'
    ensures DropFront(name) == name && DropBack(name) == name
    ensures DropFront("/" + name) == name && DropBack(name + "/") == name
    ensures DropFront(name + "/") == name + "/" && DropFront("/" + name + "/") == name + "/"
  {
    assert ("/" + name)[1..] == name && ("/" + name + "/")[1..] == name + "/";
    assert (name + "/")[..|name|] == name;
  }

  /** From no text at all. */
  lemma FromNothing(entries: seq<string>)
    requires AreLines(entries) && entries != []
    ensures Completed("", entries) != "" && Ignored(Lines(Completed("", entries))) == Ignored(entries)
  {
    KeepsAndCompletes("", entries);
    assert Lines("") == [] && Ignored([]) == {};
    var add := Missing(entries, {});
    assert entries[0] in add;
    EntryLinesGrow(add);
  }
}
