/**
 The template lines `apb connector env --write` adds to a project's secrets file
 (crates/apb-cli/src/connector.rs), and what the dotenv reader
 (crates/apb-core/src/connector/secrets.rs) makes of the file before and after.
 */
module SecretsTemplate {
  import opened Options
  import opened Text
  import opened TextLines

  // ----------------------------------------------------------- assignments

  predicate Skipped(line: string) {
    var t := TrimStart(line);
    t == "" || t[0] == '#'
  }

  /** The key and the value of an assignment line, split at the first `=`. */
  function Assignment(line: string): Option<(string, string)> {
    var i := Find(line, '=');
    if Skipped(line) || i == |line| then None else Some((line[..i], line[i + 1..]))
  }

  /** What the resolver reads: keys as written, the last assignment wins. */
  function Dotenv(lines: seq<string>): map<string, string> {
    if lines == [] then map[]
    else
      var last := Assignment(lines[|lines| - 1]);
      var front := Dotenv(lines[..|lines| - 1]);
      if last.Some? then front[last.value.0 := last.value.1] else front
  }

  /** What the template writer takes as present: keys with white space trimmed. */
  function Present(lines: seq<string>): set<string> {
    if lines == [] then {}
    else
      var last := Assignment(lines[|lines| - 1]);
      Present(lines[..|lines| - 1]) + if last.Some? then {Trim(last.value.0)} else {}
  }

  /** A line whose first character that is no white space is `#`. */
  ghost predicate IsComment(line: string) {
    exists a, b :: AllSpace(a) && line == a + "#" + b
  }

  /** A line assigns a value exactly when it has a `=`, is no comment, and its key ends at
      the first `=`. */
  lemma AssignmentIs(line: string, key: string, value: string)
    ensures Assignment(line) == Some((key, value)) <==>
            line == key + "=" + value && '=' !in key && !IsComment(line)
  {
    var i := Find(line, '=');
    CommentsAreSkipped(line);
    if line == key + "=" + value && '=' !in key {
      assert line == key + ['='] + value;
      FindIsTheSeparator(key, '=', value);
      assert line[|key|] == '=' && !IsSpace('=');
    } else if i < |line| {
      assert line == line[..i] + "=" + line[i + 1..];
    }
  }

  lemma CommentsAreSkipped(line: string)
    ensures Skipped(line) <==> AllSpace(line) || IsComment(line)
  {
    var a := TrimStartSplits(line);
    var t := TrimStart(line);
    if t == "" {
      assert line == a;
    } else {
      assert line[|a|] == t[0];
      if t[0] == '#' {
        assert line == a + "#" + t[1..];
      }
    }
    if IsComment(line) {
      var c, b :| AllSpace(c) && line == c + "#" + b;
      TrimStartSkips(c, "#" + b);
      assert line == c + ("#" + b);
      assert TrimStart("#" + b) == "#" + b;
    }
  }

  /** Some line assigns `value` to `key`, and none below it assigns to `key`. */
  ghost predicate LastAssigned(lines: seq<string>, key: string, value: string) {
    exists i :: 0 <= i < |lines| && Assignment(lines[i]) == Some((key, value)) && NotAssignedFrom(lines, key, i + 1)
  }

  ghost predicate NotAssignedFrom(lines: seq<string>, key: string, n: nat) {
    forall j, v :: n <= j < |lines| ==> Assignment(lines[j]) != Some((key, v))
  }

  predicate Assigns(line: string, key: string) {
    Assignment(line).Some? && Assignment(line).value.0 == key
  }

  lemma AssignedAbove(lines: seq<string>, key: string, value: string)
    requires lines != [] && !Assigns(lines[|lines| - 1], key)
    ensures LastAssigned(lines, key, value) <==> LastAssigned(lines[..|lines| - 1], key, value)
  {
    var n := |lines| - 1;
    var front := lines[..n];
    if i :| 0 <= i < n && Assignment(front[i]) == Some((key, value)) && NotAssignedFrom(front, key, i + 1) {
      forall j, v | i + 1 <= j < |lines| ensures Assignment(lines[j]) != Some((key, v)) {
        assert j < n ==> Assignment(front[j]) != Some((key, v));
      }
      assert Assignment(lines[i]) == Some((key, value)) && NotAssignedFrom(lines, key, i + 1);
    }
    if i :| 0 <= i <= n && Assignment(lines[i]) == Some((key, value)) && NotAssignedFrom(lines, key, i + 1) {
      assert i < n && Assignment(front[i]) == Some((key, value)) && NotAssignedFrom(front, key, i + 1);
    }
  }

  lemma AssignedHere(lines: seq<string>, key: string, value: string)
    requires lines != [] && Assigns(lines[|lines| - 1], key)
    ensures LastAssigned(lines, key, value) <==> Assignment(lines[|lines| - 1]) == Some((key, value))
  {
    var n := |lines| - 1;
    var last := Assignment(lines[n]).value.1;
    assert Assignment(lines[n]) == Some((key, last));
    assert NotAssignedFrom(lines, key, n + 1);
    if i :| 0 <= i <= n && Assignment(lines[i]) == Some((key, value)) && NotAssignedFrom(lines, key, i + 1) {
      assert i == n;
    }
  }

  /** The resolver reads for each key the value of its last assignment. */
  lemma {:induction false} DotenvIsLastAssigned(lines: seq<string>, key: string, value: string)
    ensures key in Dotenv(lines) && Dotenv(lines)[key] == value <==> LastAssigned(lines, key, value)
  {
    if lines != [] {
      if Assigns(lines[|lines| - 1], key) {
        AssignedHere(lines, key, value);
      } else {
        AssignedAbove(lines, key, value);
        DotenvIsLastAssigned(lines[..|lines| - 1], key, value);
      }
    }
  }

  /** The writer takes a name as present exactly when some line assigns to it, white space
      around the name aside. */
  lemma {:induction false} PresentIsAssigned(lines: seq<string>, name: string)
    ensures name in Present(lines) <==>
            exists i, key, value ::
              0 <= i < |lines| && Assignment(lines[i]) == Some((key, value)) && Trim(key) == name
  {
    if lines != [] {
      var n := |lines| - 1;
      var front := lines[..n];
      PresentIsAssigned(front, name);
      assert forall i :: 0 <= i < n ==> front[i] == lines[i];
      var last := Assignment(lines[n]);
      if last.Some? && Trim(last.value.0) == name {
        assert last == Some((last.value.0, last.value.1));
      }
    }
  }

  predicate IsVarName(s: string) {
    && s != "" && 'A' <= s[0] <= 'Z'
    && forall i :: 0 <= i < |s| ==> 'A' <= s[i] <= 'Z' || '0' <= s[i] <= '9' || s[i] == '_'
  }

  predicate VarNames(names: seq<string>) {
    forall i :: 0 <= i < |names| ==> IsVarName(names[i])
  }

  lemma VarNameIsTrimmed(v: string)
    requires IsVarName(v)
    ensures Trim(v) == v && '=' !in v && '\n' !in v
  {
    TrimLeavesEnds(v);
  }

  lemma TemplateLine(v: string)
    requires IsVarName(v)
    ensures Assignment(v + "=") == Some((v, ""))
  {
    VarNameIsTrimmed(v);
    var line := v + ['='] + "";
    FindIsTheSeparator(v, '=', "");
    assert line == v + "=";
    assert line[0] == v[0] && !IsSpace(v[0]);
    assert TrimStart(line) == line;
  }

  lemma LinesOfOne(v: string)
    requires IsVarName(v)
    ensures Lines(v + "=\n") == [v + "="]
  {
    var line := v + "=";
    var text := line + ['\n'] + "";
    assert text == v + "=\n";
    VarNameIsTrimmed(v);
    assert '\n' !in line;
    FindIsTheSeparator(line, '\n', "");
    assert line[|line| - 1] == '=';
    assert Stripped(line) == line && Lines("") == [];
  }

  // ------------------------------------------------------------- the writer

  function Template(vars: seq<string>): string {
    if vars == [] then "" else Template(vars[..|vars| - 1]) + vars[|vars| - 1] + "=\n"
  }

  function TemplateLines(vars: seq<string>): (r: seq<string>)
    ensures |r| == |vars| && forall i :: 0 <= i < |r| ==> r[i] == vars[i] + "="
  {
    seq(|vars|, i requires 0 <= i < |vars| => vars[i] + "=")
  }

  function Missing(vars: seq<string>, present: set<string>): (r: seq<string>)
    ensures forall v :: v in r <==> v in vars && v !in present
    ensures Distinct(vars) ==> Distinct(r)
    ensures VarNames(vars) ==> VarNames(r)
  {
    if vars == [] then []
    else
      var front, v := Missing(vars[..|vars| - 1], present), vars[|vars| - 1];
      if v in present then front else front + [v]
  }

  predicate Distinct(s: seq<string>) {
    forall i, j :: 0 <= i < j < |s| ==> s[i] != s[j]
  }

  /** The text after the write. */
  function Written(old_: string, vars: seq<string>): string {
    var add := Missing(vars, Present(Lines(old_)));
    if add == [] then old_ else Ended(old_) + Template(add)
  }

  lemma OneMoreLine(text: string, add: seq<string>, i: nat)
    requires i < |add|
    ensures text + Template(add[..i]) + add[i] + "=\n" == text + Template(add[..i + 1])
  {
    assert add[..i + 1][..i] == add[..i] && add[..i + 1][i] == add[i];
    var front, v := Template(add[..i]), add[i];
    assert text + front + v + "=\n" == text + (front + v + "=\n");
  }

  /** `write_secrets_template`: builds the new text in place; none when nothing is missing. */
  method WriteTemplate(existing: string, vars: seq<string>) returns (content: Option<string>)
    ensures content == (if Missing(vars, Present(Lines(existing))) == [] then None else Some(Written(existing, vars)))
  {
    var add := Missing(vars, Present(Lines(existing)));
    if add == [] {
      return None;
    }
    var text := existing;
    if text != "" && text[|text| - 1] != '\n' {
      text := text + ['\n'];
    }
    assert Template(add[..0]) == "";
    for i := 0 to |add|
      invariant text == Ended(existing) + Template(add[..i])
    {
      OneMoreLine(Ended(existing), add, i);
      text := text + add[i];
      text := text + "=\n";
    }
    assert add[..|add|] == add;
    return Some(text);
  }

  /** The dedup before it: each name once, by its first place. */
  method Dedup(list: seq<string>) returns (r: seq<string>)
    ensures Distinct(r)
    ensures forall v :: v in r <==> v in list
    ensures FirstsInOrder(list, r)
  {
    r := [];
    var seen: set<string> := {};
    for i := 0 to |list|
      invariant Distinct(r)
      invariant forall v :: v in seen <==> v in r
      invariant forall v :: v in r <==> v in list[..i]
      invariant FirstsInOrder(list, r)
    {
      if list[i] !in seen {
        FirstPlace(list, i);
        assert forall k :: 0 <= k < |r| ==> r[k] in list[..i];
        seen, r := seen + {list[i]}, r + [list[i]];
      }
    }
  }

  function Place(list: seq<string>, v: string): (i: nat)
    requires v in list
    ensures i < |list| && list[i] == v && forall j :: 0 <= j < i ==> list[j] != v
  {
    if list[0] == v then 0 else 1 + Place(list[1..], v)
  }

  ghost predicate FirstsInOrder(list: seq<string>, r: seq<string>) {
    && (forall i :: 0 <= i < |r| ==> r[i] in list)
    && forall i, j :: 0 <= i < j < |r| ==> Place(list, r[i]) < Place(list, r[j])
  }

  lemma FirstPlace(list: seq<string>, i: nat)
    requires i < |list| && list[i] !in list[..i]
    ensures Place(list, list[i]) == i
    ensures forall v :: v in list[..i] ==> Place(list, v) < i
  {
    forall v | v in list[..i] ensures Place(list, v) < i {
      var k :| 0 <= k < i && list[..i][k] == v;
      assert list[k] == v;
    }
    assert forall j :: 0 <= j < i ==> list[j] in list[..i];
  }

  // ------------------------------------------------------- what the file says

  lemma TemplateStep(front: seq<string>, v: string)
    ensures Template(front + [v]) == Template(front) + (v + "=\n")
    ensures TemplateLines(front + [v]) == TemplateLines(front) + [v + "="]
  {
    assert (front + [v])[..|front|] == front;
  }

  lemma {:induction false} TemplateEndsLine(vars: seq<string>)
    ensures EndsLine(Template(vars))
  {
    if vars != [] {
      TemplateStep(vars[..|vars| - 1], vars[|vars| - 1]);
      assert vars == vars[..|vars| - 1] + [vars[|vars| - 1]];
    }
  }

  lemma {:induction false} TemplateReads(vars: seq<string>)
    requires VarNames(vars)
    ensures Lines(Template(vars)) == TemplateLines(vars)
  {
    if vars == [] {
      assert Lines("") == [];
    } else {
      var front, v := vars[..|vars| - 1], vars[|vars| - 1];
      assert vars == front + [v];
      TemplateReads(front);
      TemplateEndsLine(front);
      TemplateStep(front, v);
      LinesOfBoth(Template(front), v + "=\n");
      LinesOfOne(v);
    }
  }

  lemma {:induction false} TrimStartCr(l: string)
    ensures TrimStart(l + "\r") == (if TrimStart(l) == "" then "" else TrimStart(l) + "\r")
  {
    if l == "" {
      assert (l + "\r")[1..] == "";
    } else if IsSpace(l[0]) {
      assert (l + "\r")[1..] == l[1..] + "\r" && (l + "\r")[0] == l[0];
      TrimStartCr(l[1..]);
    }
  }

  /** A carriage return at the end of a line is part of its value, if it has one. */
  lemma AssignmentCr(l: string)
    ensures Assignment(l + "\r") ==
            (if Assignment(l).None? then None else Some((Assignment(l).value.0, Assignment(l).value.1 + "\r")))
  {
    TrimStartCr(l);
    var i := Find(l, '=');
    if i < |l| {
      FindInFront(l, "\r", '=');
      SliceFront(l, "\r", i);
    } else {
      assert '=' !in l + "\r";
    }
  }

  /** One more line. */
  lemma OneLine(lines: seq<string>, line: string)
    ensures Present(lines + [line]) ==
            Present(lines) + (if Assignment(line).Some? then {Trim(Assignment(line).value.0)} else {})
    ensures Dotenv(lines + [line]) ==
            (if Assignment(line).Some? then Dotenv(lines)[Assignment(line).value.0 := Assignment(line).value.1]
             else Dotenv(lines))
  {
    assert (lines + [line])[..|lines|] == lines;
  }

  function EmptyValues(vars: seq<string>): map<string, string> {
    map v | v in vars :: ""
  }

  lemma OneTemplateLine(lines: seq<string>, v: string)
    requires IsVarName(v)
    ensures Present(lines + [v + "="]) == Present(lines) + {v}
    ensures Dotenv(lines + [v + "="]) == Dotenv(lines)[v := ""]
  {
    TemplateLine(v);
    VarNameIsTrimmed(v);
    OneLine(lines, v + "=");
  }

  lemma LinesGrow(lines: seq<string>, front: seq<string>, v: string)
    ensures lines + TemplateLines(front + [v]) == (lines + TemplateLines(front)) + [v + "="]
  {
    TemplateStep(front, v);
  }

  lemma EmptyValuesGrow(old_: map<string, string>, front: seq<string>, v: string)
    ensures old_ + EmptyValues(front + [v]) == (old_ + EmptyValues(front))[v := ""]
    ensures (set w | w in front + [v]) == (set w | w in front) + {v}
  {
    assert forall w :: w in front + [v] <==> w in front || w == v;
  }

  /** `all` says what `lines` say, and each of `vars` without a value. */
  ghost predicate Adds(lines: seq<string>, all: seq<string>, vars: seq<string>) {
    && Present(all) == Present(lines) + (set v | v in vars)
    && Dotenv(all) == Dotenv(lines) + EmptyValues(vars)
  }

  lemma AddsOne(lines: seq<string>, all: seq<string>, vars: seq<string>, v: string)
    requires Adds(lines, all, vars) && IsVarName(v)
    ensures Adds(lines, all + [v + "="], vars + [v])
  {
    OneTemplateLine(all, v);
    EmptyValuesGrow(Dotenv(lines), vars, v);
  }

  lemma AddsNone(lines: seq<string>)
    ensures Adds(lines, lines + TemplateLines([]), [])
  {
    assert lines + TemplateLines([]) == lines;
  }

  lemma AddsNext(lines: seq<string>, front: seq<string>, v: string)
    requires Adds(lines, lines + TemplateLines(front), front) && IsVarName(v)
    ensures Adds(lines, lines + TemplateLines(front + [v]), front + [v])
  {
    AddsOne(lines, lines + TemplateLines(front), front, v);
    LinesGrow(lines, front, v);
  }

  /** The template lines add just their names, each without a value. */
  lemma {:induction false} TemplateAdds(lines: seq<string>, vars: seq<string>)
    requires VarNames(vars)
    ensures Adds(lines, lines + TemplateLines(vars), vars)
  {
    if vars == [] {
      AddsNone(lines);
    } else {
      var front, v := vars[..|vars| - 1], vars[|vars| - 1];
      assert vars == front + [v];
      TemplateAdds(lines, front);
      AddsNext(lines, front, v);
    }
  }

  lemma {:induction false} KeysArePresent(lines: seq<string>)
    ensures forall k :: k in Dotenv(lines) ==> Trim(k) in Present(lines)
  {
    if lines != [] {
      KeysArePresent(lines[..|lines| - 1]);
    }
  }

  /** The lines of the old text once the write has ended its last one. */
  function OldLines(old_: string): seq<string> {
    Lines(Ended(old_))
  }

  lemma WrittenLines(old_: string, vars: seq<string>)
    requires VarNames(vars)
    ensures var add := Missing(vars, Present(Lines(old_)));
            add != [] ==> Lines(Written(old_, vars)) == OldLines(old_) + TemplateLines(add)
  {
    var add := Missing(vars, Present(Lines(old_)));
    TemplateReads(add);
    TemplateEndsLine(add);
    LinesOfBoth(Ended(old_), Template(add));
  }

  /** The last line is an assignment whose value ends in a bare carriage return. */
  predicate EndsInBareCr(s: string) {
    s != "" && s[|s| - 1] == '\r' && Lines(s) != [] && Assignment(Lines(s)[|Lines(s)| - 1]).Some?
  }

  ghost predicate SameValues(a: map<string, string>, b: map<string, string>) {
    forall k :: k in a ==> k in b && a[k] == b[k]
  }

  /** A last line with and without its carriage return. */
  lemma LastLineSays(front: seq<string>, last: string)
    ensures Present(front + [last + "\r"]) == Present(front + [last])
    ensures Dotenv(front + [last + "\r"]).Keys == Dotenv(front + [last]).Keys
    ensures SameValues(Dotenv(front + [last + "\r"]), Dotenv(front + [last])) <==> Assignment(last + "\r").None?
  {
    AssignmentCr(last);
    OneLine(front, last);
    OneLine(front, last + "\r");
    if Assignment(last).Some? {
      var (key, value) := Assignment(last).value;
      assert Dotenv(front + [last + "\r"])[key] == value + "\r" && Dotenv(front + [last])[key] == value;
      assert |value + "\r"| == |value| + 1;
    }
  }

  /** The old lines before and after the write ends the last one. */
  lemma LastLineOf(old_: string) returns (front: seq<string>, last: string)
    requires !EndsLine(old_)
    ensures Lines(old_) == front + [last] && OldLines(old_) == front + [Stripped(last)]
    ensures old_[|old_| - 1] == '\r' <==> last == Stripped(last) + "\r"
    ensures old_[|old_| - 1] != '\r' ==> Stripped(last) == last
  {
    LinesOfEnded(old_);
    var lines := Lines(old_);
    front, last := lines[..|lines| - 1], lines[|lines| - 1];
  }

  /** Ending the last line: the same keys, and the same values unless a bare
      carriage return was part of the last one. */
  lemma EndedSays(old_: string)
    ensures Present(OldLines(old_)) == Present(Lines(old_))
    ensures Dotenv(OldLines(old_)).Keys == Dotenv(Lines(old_)).Keys
    ensures SameValues(Dotenv(Lines(old_)), Dotenv(OldLines(old_))) <==> !EndsInBareCr(old_)
  {
    if !EndsLine(old_) {
      var front, last := LastLineOf(old_);
      if old_[|old_| - 1] == '\r' {
        LastLineSays(front, Stripped(last));
      }
    }
  }

  /** The old text is kept in front, and the requested names are all taken as present
      afterwards, so a second write has nothing to add. */
  lemma WriteKeepsAndCompletes(old_: string, vars: seq<string>)
    requires VarNames(vars)
    ensures old_ <= Written(old_, vars)
    ensures Present(Lines(Written(old_, vars))) == Present(Lines(old_)) + set v | v in vars
    ensures Written(Written(old_, vars), vars) == Written(old_, vars)
  {
    var add := Missing(vars, Present(Lines(old_)));
    if add != [] {
      WrittenLines(old_, vars);
      EndedSays(old_);
      TemplateAdds(OldLines(old_), add);
    }
    assert |Missing(vars, Present(Lines(Written(old_, vars))))| == 0 by {
      NothingMissing(vars, Present(Lines(Written(old_, vars))));
    }
  }

  lemma {:induction false} NothingMissing(vars: seq<string>, present: set<string>)
    requires forall v :: v in vars ==> v in present
    ensures Missing(vars, present) == []
  {
    if vars != [] {
      NothingMissing(vars[..|vars| - 1], present);
    }
  }

  lemma AddedAreNew(old_: string, vars: seq<string>)
    requires VarNames(vars)
    ensures forall v :: v in Missing(vars, Present(Lines(old_))) ==> v !in Dotenv(Lines(old_))
  {
    KeysArePresent(Lines(old_));
    forall v | v in Missing(vars, Present(Lines(old_))) ensures v !in Dotenv(Lines(old_)) {
      VarNameIsTrimmed(v);
    }
  }

  lemma SameValuesWithMore(a: map<string, string>, b: map<string, string>, more: map<string, string>)
    requires a.Keys == b.Keys && forall k :: k in more ==> k !in a
    ensures SameValues(a, b + more) <==> SameValues(a, b)
  {
  }

  /** Every old value is read as before exactly unless the write ends a last line that
      assigns a value with a bare carriage return. */
  lemma OldValuesKept(old_: string, vars: seq<string>)
    requires VarNames(vars)
    ensures SameValues(Dotenv(Lines(old_)), Dotenv(Lines(Written(old_, vars)))) <==>
            Missing(vars, Present(Lines(old_))) == [] || !EndsInBareCr(old_)
  {
    var add := Missing(vars, Present(Lines(old_)));
    if add != [] {
      WrittenLines(old_, vars);
      EndedSays(old_);
      TemplateAdds(OldLines(old_), add);
      AddedAreNew(old_, vars);
      SameValuesWithMore(Dotenv(Lines(old_)), Dotenv(OldLines(old_)), EmptyValues(add));
    }
  }

  /** A requested name can be resolved from the file afterwards exactly when it could
      before or the writer did not take it as present. */
  lemma RequestedIsReadable(old_: string, vars: seq<string>, v: string)
    requires VarNames(vars) && v in vars
    ensures v in Dotenv(Lines(Written(old_, vars))) <==> v in Dotenv(Lines(old_)) || v !in Present(Lines(old_))
  {
    var add := Missing(vars, Present(Lines(old_)));
    if add != [] {
      WrittenLines(old_, vars);
      EndedSays(old_);
      TemplateAdds(OldLines(old_), add);
    }
  }

  lemma SingleLine(key: string, value: string)
    requires key != "" && !IsSpace(key[0]) && key[0] != '#'
    requires '=' !in key && '\n' !in key && '\n' !in value
    ensures var line := key + ['='] + value;
            Lines(line) == [line] && Assignment(line) == Some((key, value))
    ensures Present([key + ['='] + value]) == {Trim(key)}
    ensures Dotenv([key + ['='] + value]) == map[key := value]
  {
    var line := key + ['='] + value;
    FindIsTheSeparator(key, '=', value);
    assert line[0] == key[0] && TrimStart(line) == line;
    OneLine([], line);
    assert [] + [line] == [line];
  }

  lemma TrimDropsSpace(v: string)
    requires IsVarName(v)
    ensures Trim(v + " ") == v
  {
    VarNameIsTrimmed(v);
    var k := v + " ";
    assert k[0] == v[0] && TrimStart(k) == k;
    assert k[..|k| - 1] == v && TrimStart(v) == v;
  }

  /** A key followed by a space counts as present, so its template line is never
      written, and the resolver does not find it. */
  lemma SpacedKeyIsNeverFilledIn(v: string)
    requires IsVarName(v)
    ensures var text := v + " " + ['='] + "";
            Written(text, [v]) == text && v !in Dotenv(Lines(text))
  {
    VarNameIsTrimmed(v);
    TrimDropsSpace(v);
    SingleLine(v + " ", "");
    NothingMissing([v], {v});
    assert |v + " "| != |v|;
  }

  lemma EndsInItsCr(text: string)
    requires text != "" && text[|text| - 1] == '\r' && Lines(text) == [text] && Assignment(text).Some?
    ensures EndsInBareCr(text)
  {
    assert Lines(text)[|Lines(text)| - 1] == text;
  }

  lemma OneIsMissing(w: string, present: set<string>)
    requires w !in present
    ensures Missing([w], present) != []
  {
    assert w in [w];
    assert w in Missing([w], present);
  }

  /** A last line that ends in a bare carriage return loses it from its value as soon
      as another name is added. */
  lemma BareCrIsLost(v: string, w: string)
    requires IsVarName(v) && IsVarName(w) && v != w
    ensures var text := v + ['='] + "\r";
            !SameValues(Dotenv(Lines(text)), Dotenv(Lines(Written(text, [w]))))
  {
    var text := v + ['='] + "\r";
    VarNameIsTrimmed(v);
    SingleLine(v, "\r");
    EndsInItsCr(text);
    OneIsMissing(w, Present(Lines(text)));
    OldValuesKept(text, [w]);
  }

  // ------------------------------------------------------------------ the file

  /** What is at the path: a file that does not read as text is taken as empty. */
  datatype File = Absent | Readable(text: string) | NotText(bytes: seq<bv8>)

  /** `apb connector env --write` over the names still unresolved. */
  method WriteSecrets(file: File, unresolved: seq<string>) returns (after: File, added: seq<string>)
    requires VarNames(unresolved)
    ensures Distinct(added)
    ensures forall v :: v in added <==> v in unresolved && (file.Readable? ==> v !in Present(Lines(file.text)))
    ensures added == [] ==> after == file
    ensures added != [] ==> after.Readable?
    ensures file.Readable? ==> after.Readable? && file.text <= after.text
    ensures file.NotText? && unresolved != [] ==> after == Readable(Template(added))
    ensures after.Readable? && !file.NotText? ==> forall v :: v in unresolved ==> v in Present(Lines(after.text))
  {
    var vars := Dedup(unresolved);
    var existing := if file.Readable? then file.text else "";
    assert Present(Lines("")) == {};
    forall i | 0 <= i < |vars| ensures IsVarName(vars[i]) {
      assert vars[i] in unresolved;
    }
    WriteKeepsAndCompletes(existing, vars);
    added := Missing(vars, Present(Lines(existing)));
    var content := WriteTemplate(existing, vars);
    after := match content case None => file case Some(text) => Readable(text);
    if file.NotText? && unresolved != [] {
      assert unresolved[0] in added;
      assert Ended("") + Template(added) == Template(added);
    }
  }
}
