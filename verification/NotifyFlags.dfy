/**
 The notify flags of `apb run` (crates/apb-cli/src/notify.rs): the flags a request
 is handed on with, how the child reads them, and the request they stand for. The
 credential test on a recipient is a parameter.
 */
module NotifyFlags {
  import opened Options
  import opened Text

  datatype Result<T> = Ok(value: T) | Err(error: Error)
  datatype Error =
    | UnknownFlag | FlagRepeated | ValueMissing | ValueUnexpected | FlagsConflict
    | UnknownName | BadVia | NoBase | NameTheFunction | NameTheRecipient
    | SettingsUnreadable | BadTarget | NoTransition | NoOutcome | OutcomesWithoutFinished

  datatype Transition = Review | Question | Paused | Finished | HostTask | Supervisor | Stalled
  datatype Outcome = Succeeded | NeedsLook | Failed | Aborted

  datatype Target = Target(connector: string, account: string, function_: string, to: string)
  datatype Request = Off | On(target: Option<Target>, on: Option<seq<Transition>>, finished: Option<seq<Outcome>>)

  // --------------------------------------------------------------- the names

  function TransitionName(t: Transition): string {
    match t
    case Review => "review"
    case Question => "question"
    case Paused => "paused"
    case Finished => "finished"
    case HostTask => "host_task"
    case Supervisor => "supervisor"
    case Stalled => "stalled"
  }

  function OutcomeName(o: Outcome): string {
    match o
    case Succeeded => "succeeded"
    case NeedsLook => "needs_look"
    case Failed => "failed"
    case Aborted => "aborted"
  }

  /** The first of `all` with this name. */
  function FirstNamed<T>(all: seq<T>, name: T -> string, s: string): Option<T> {
    if all == [] then None
    else if name(all[0]) == s then Some(all[0])
    else FirstNamed(all[1..], name, s)
  }

  lemma {:induction false} FirstNamedReads<T>(all: seq<T>, name: T -> string, x: T)
    requires x in all && forall y :: y in all && name(y) == name(x) ==> y == x
    ensures FirstNamed(all, name, name(x)) == Some(x)
  {
    if all[0] != x {
      FirstNamedReads(all[1..], name, x);
    }
  }

  const ALL_TRANSITIONS := [Review, Question, Paused, Finished, HostTask, Supervisor, Stalled]
  const ALL_OUTCOMES := [Succeeded, NeedsLook, Failed, Aborted]

  function TransitionOf(s: string): Option<Transition> {
    FirstNamed(ALL_TRANSITIONS, TransitionName, s)
  }

  function OutcomeOf(s: string): Option<Outcome> {
    FirstNamed(ALL_OUTCOMES, OutcomeName, s)
  }

  /** Lower-case letters and underscores, at least one. */
  predicate Plain(s: string) {
    s != "" && forall i :: 0 <= i < |s| ==> 'a' <= s[i] <= 'z' || s[i] == '_'
  }

  lemma TransitionNamesDiffer(t: Transition, u: Transition)
    ensures TransitionName(t) == TransitionName(u) ==> t == u
  {
    assert "review"[0] == 'r' && "question"[0] == 'q' && "paused"[0] == 'p' && "finished"[0] == 'f';
  }

  /** A name is plain, and is read as what it names. */
  ghost predicate NameReads<T>(name: T -> string, parse: string -> Option<T>, x: T) {
    Plain(name(x)) && parse(name(x)) == Some(x)
  }

  lemma TransitionNameReads(t: Transition)
    ensures NameReads(TransitionName, TransitionOf, t)
  {
    forall u ensures TransitionName(u) == TransitionName(t) ==> u == t {
      TransitionNamesDiffer(u, t);
    }
    FirstNamedReads(ALL_TRANSITIONS, TransitionName, t);
  }

  lemma OutcomeNameReads(o: Outcome)
    ensures NameReads(OutcomeName, OutcomeOf, o)
  {
    assert "succeeded"[0] == 's' && "needs_look"[0] == 'n' && "failed"[0] == 'f' && "aborted"[0] == 'a';
    FirstNamedReads(ALL_OUTCOMES, OutcomeName, o);
  }

  /** `names_of`: trimmed, empty ones dropped. */
  function NamesOf(list: seq<string>): seq<string> {
    if list == [] then []
    else
      var n := Trim(list[0]);
      (if n == "" then [] else [n]) + NamesOf(list[1..])
  }

  lemma PlainIsTrimmed(s: string)
    requires Plain(s)
    ensures Trim(s) == s && ',' !in s
  {
    assert !IsSpace(s[0]) && !IsSpace(s[|s| - 1]);
    TrimLeavesEnds(s);
  }

  lemma {:induction false} PlainNamesStay(list: seq<string>)
    requires forall i :: 0 <= i < |list| ==> Plain(list[i])
    ensures NamesOf(list) == list
  {
    if list != [] {
      PlainIsTrimmed(list[0]);
      PlainNamesStay(list[1..]);
    }
  }

  function ParseAll<T>(names: seq<string>, parse: string -> Option<T>): Result<seq<T>> {
    if names == [] then Ok([])
    else
      var first := parse(Trim(names[0]));
      if first.None? then Err(UnknownName)
      else
        var rest := ParseAll(names[1..], parse);
        if rest.Err? then rest else Ok([first.value] + rest.value)
  }

  function NamesFor<T>(items: seq<T>, name: T -> string): (r: seq<string>)
    ensures |r| == |items| && forall i :: 0 <= i < |r| ==> r[i] == name(items[i])
  {
    if items == [] then [] else [name(items[0])] + NamesFor(items[1..], name)
  }

  /** A list printed with commas is read back as it was. */
  lemma {:induction false} ParseAllNames<T>(items: seq<T>, name: T -> string, parse: string -> Option<T>)
    requires forall x: T :: NameReads(name, parse, x)
    ensures ParseAll(NamesFor(items, name), parse) == Ok(items)
  {
    if items != [] {
      var names := NamesFor(items, name);
      ParseAllNames(items[1..], name, parse);
      assert NameReads(name, parse, items[0]);
      PlainIsTrimmed(name(items[0]));
      assert names[0] == name(items[0]) && names[1..] == NamesFor(items[1..], name);
      assert parse(Trim(names[0])) == Some(items[0]) && ParseAll(names[1..], parse) == Ok(items[1..]);
      assert ParseAll(names, parse) == Ok([items[0]] + items[1..]);
      assert items == [items[0]] + items[1..];
    }
  }

  lemma ListReadsBack<T>(items: seq<T>, name: T -> string, parse: string -> Option<T>)
    requires items != [] && forall x: T :: NameReads(name, parse, x)
    ensures ParseAll(NamesOf(Split(Join(NamesFor(items, name), ','), ',')), parse) == Ok(items)
  {
    var names := NamesFor(items, name);
    forall i | 0 <= i < |names| ensures Plain(names[i]) && ',' !in names[i] {
      assert NameReads(name, parse, items[i]);
      PlainIsTrimmed(name(items[i]));
    }
    SplitJoin(names, ',');
    PlainNamesStay(names);
    ParseAllNames(items, name, parse);
  }

  // ----------------------------------------------------------------- the flags

  datatype Flag = Notify | NoNotify | NotifyOn | NotifyFinished | NotifyVia | NotifyTo

  function FlagText(f: Flag): string {
    match f
    case Notify => "--notify"
    case NoNotify => "--no-notify"
    case NotifyOn => "--notify-on"
    case NotifyFinished => "--notify-finished"
    case NotifyVia => "--notify-via"
    case NotifyTo => "--notify-to"
  }

  const ALL_FLAGS := [Notify, NoNotify, NotifyOn, NotifyFinished, NotifyVia, NotifyTo]

  function FlagOf(s: string): Option<Flag> {
    FirstNamed(ALL_FLAGS, FlagText, s)
  }

  lemma FlagTextsDiffer(f: Flag, g: Flag)
    ensures FlagText(f) == FlagText(g) ==> f == g
  {
    assert "--no-notify"[4] == '-' && "--notify-on"[4] == 't' && "--notify-to"[4] == 't';
    assert "--notify-on"[9] == 'o' && "--notify-to"[9] == 't';
  }

  lemma FlagTextReads(f: Flag)
    ensures FlagOf(FlagText(f)) == Some(f) && '=' !in FlagText(f)
  {
    forall g ensures FlagText(g) == FlagText(f) ==> g == f {
      FlagTextsDiffer(g, f);
    }
    FirstNamedReads(ALL_FLAGS, FlagText, f);
  }

  datatype Flags = Flags(notify: bool, noNotify: bool, on: seq<string>, finished: seq<string>,
                         via: Option<string>, to: Option<string>)

  const NO_FLAGS := Flags(false, false, [], [], None, None)

  predicate TakesValue(f: Flag) {
    f != Notify && f != NoNotify
  }

  /** One flag with its value, where it takes one, noted. */
  function Noted(f: Flag, value: string, flags: Flags): Result<Flags> {
    match f
    case Notify => if flags.notify then Err(FlagRepeated) else Ok(flags.(notify := true))
    case NoNotify => if flags.noNotify then Err(FlagRepeated) else Ok(flags.(noNotify := true))
    case NotifyOn => Ok(flags.(on := flags.on + Split(value, ',')))
    case NotifyFinished => Ok(flags.(finished := flags.finished + Split(value, ',')))
    case NotifyVia => if flags.via.Some? then Err(FlagRepeated) else Ok(flags.(via := Some(value)))
    case NotifyTo => if flags.to.Some? then Err(FlagRepeated) else Ok(flags.(to := Some(value)))
  }

  /** What the flags declare as conflicting. */
  function Checked(flags: Flags): Result<Flags> {
    if flags.noNotify &&
       (flags.notify || flags.on != [] || flags.finished != [] || flags.via.Some? || flags.to.Some?)
    then Err(FlagsConflict)
    else Ok(flags)
  }

  /** A value after a space may start with a dash only for the recipient. */
  predicate ReadsAsValue(f: Flag, arg: string) {
    f == NotifyTo || !(|arg| > 1 && arg[0] == '-')
  }

  /** The declared grammar: `--flag=value`, split at the first `=`, or `--flag value`. */
  function ParseArgs(args: seq<string>, flags: Flags): Result<Flags>
    decreases |args|
  {
    if args == [] then Checked(flags)
    else
      var i := Find(args[0], '=');
      var joined := i < |args[0]|;
      var flag := FlagOf(args[0][..i]);
      if flag.None? then Err(UnknownFlag)
      else if !TakesValue(flag.value) then
        if joined then Err(ValueUnexpected)
        else
          var noted := Noted(flag.value, "", flags);
          if noted.Err? then noted else ParseArgs(args[1..], noted.value)
      else if joined then
        var noted := Noted(flag.value, args[0][i + 1..], flags);
        if noted.Err? then noted else ParseArgs(args[1..], noted.value)
      else if |args| < 2 || !ReadsAsValue(flag.value, args[1]) then Err(ValueMissing)
      else
        var noted := Noted(flag.value, args[1], flags);
        if noted.Err? then noted else ParseArgs(args[2..], noted.value)
  }

  function Joined(f: Flag, value: string): string {
    FlagText(f) + "=" + value
  }

  lemma ParseSwitch(f: Flag, rest: seq<string>, flags: Flags)
    requires !TakesValue(f) && Noted(f, "", flags).Ok?
    ensures ParseArgs([FlagText(f)] + rest, flags) == ParseArgs(rest, Noted(f, "", flags).value)
  {
    FlagTextReads(f);
    assert ([FlagText(f)] + rest)[1..] == rest;
    assert FlagText(f)[..|FlagText(f)|] == FlagText(f);
  }

  /** Joined with `=`, any value is read whole, with further `=` or a leading dash in it. */
  lemma ParseJoined(f: Flag, value: string, rest: seq<string>, flags: Flags)
    requires TakesValue(f) && Noted(f, value, flags).Ok?
    ensures ParseArgs([Joined(f, value)] + rest, flags) == ParseArgs(rest, Noted(f, value, flags).value)
  {
    FlagTextReads(f);
    FindIsTheSeparator(FlagText(f), '=', value);
    assert ([Joined(f, value)] + rest)[1..] == rest;
  }

  /** A value that reads as one may be typed after a space; a recipient always does. */
  lemma SpacedIsJoined(f: Flag, value: string, rest: seq<string>, flags: Flags)
    requires TakesValue(f) && Noted(f, value, flags).Ok? && ReadsAsValue(f, value)
    ensures ParseArgs([FlagText(f), value] + rest, flags) == ParseArgs([Joined(f, value)] + rest, flags)
  {
    ParseJoined(f, value, rest, flags);
    FlagTextReads(f);
    var args := [FlagText(f), value] + rest;
    assert args[2..] == rest && args[0][..|args[0]|] == args[0];
  }

  lemma ParseTwoJoined(f: Flag, v: string, g: Flag, w: string, flags: Flags)
    requires TakesValue(f) && Noted(f, v, flags).Ok?
    requires TakesValue(g) && Noted(g, w, Noted(f, v, flags).value).Ok?
    ensures ParseArgs([Joined(f, v), Joined(g, w)], flags) == Checked(Noted(g, w, Noted(f, v, flags).value).value)
  {
    assert [Joined(f, v), Joined(g, w)] == [Joined(f, v)] + ([Joined(g, w)] + []);
    ParseJoined(f, v, [Joined(g, w)] + [], flags);
    ParseJoined(g, w, [], Noted(f, v, flags).value);
  }

  // ---------------------------------------------------------------- the request

  function ParseVia(v: string): Result<(string, string, Option<string>)> {
    var i := Find(v, ':');
    var pair := v[..i];
    var fun := if i < |v| then Some(Trim(v[i + 1..])) else None;
    var j := Find(pair, '/');
    if j == |pair| then Err(BadVia) else Ok((Trim(pair[..j]), Trim(pair[j + 1..]), fun))
  }

  predicate SameAccount(base: Option<Target>, connector: string, account: string) {
    base.Some? && base.value.connector == connector && base.value.account == account
  }

  /** A part left out comes from the base, and only when the base is the same account:
      a recipient or a function never moves to another account. */
  function TargetOf(via: Option<string>, to: Option<string>, base: Option<Target>): (r: Result<Option<Target>>)
    ensures r.Ok? ==> (r.value.None? <==> via.None? && to.None?)
    ensures r.Ok? && r.value.Some? && to.None? ==>
              SameAccount(base, r.value.value.connector, r.value.value.account) && r.value.value.to == base.value.to
    ensures r.Ok? && r.value.Some? && (via.None? || ':' !in via.value) ==>
              && SameAccount(base, r.value.value.connector, r.value.value.account)
              && r.value.value.function_ == base.value.function_
  {
    if via.None? && to.None? then Ok(None)
    else if via.None? && base.None? then Err(NoBase)
    else
      var parts :=
        if via.Some? then ParseVia(via.value)
        else Ok((base.value.connector, base.value.account, Some(base.value.function_)));
      if parts.Err? then Err(parts.error)
      else
        var (connector, account, fun) := parts.value;
        var same := SameAccount(base, connector, account);
        if fun.None? && !same then Err(NameTheFunction)
        else if to.None? && !same then Err(NameTheRecipient)
        else
          var f := if fun.Some? then fun.value else base.value.function_;
          Ok(Some(Target(connector, account, f, if to.Some? then to.value else base.value.to)))
  }

  predicate IsLowerOrDigit(c: char) {
    'a' <= c <= 'z' || '0' <= c <= '9'
  }

  /** At most 64 of [a-z0-9] and, after the first, `also`. */
  predicate IsName(s: string, also: char) {
    && s != "" && |s| <= 64 && IsLowerOrDigit(s[0])
    && forall i :: 0 <= i < |s| ==> IsLowerOrDigit(s[i]) || s[i] == also
  }

  const MAX_TO_LEN: nat := 256

  predicate ValidTarget(t: Target, credential: string -> bool) {
    && IsName(t.connector, '-') && IsName(t.account, '-') && IsName(t.function_, '_')
    && Trim(t.to) == t.to && t.to != "" && |t.to| <= MAX_TO_LEN && !credential(t.to)
  }

  function Validated(req: Request, credential: string -> bool): (r: Result<Request>)
    ensures r.Ok? ==> r.value == req
  {
    match req
    case Off => Ok(req)
    case On(target, on, finished) =>
      if target.Some? && !ValidTarget(target.value, credential) then Err(BadTarget)
      else if on == Some([]) then Err(NoTransition)
      else if finished == Some([]) then Err(NoOutcome)
      else if finished.Some? && on.Some? && Finished !in on.value then Err(OutcomesWithoutFinished)
      else Ok(req)
  }

  /** The machine's target, read only when a part is left out. */
  function MachineBase(via: Option<string>, to: Option<string>, settings: Result<Option<Target>>)
    : Result<Option<Target>>
  {
    var named := via.Some? || to.Some?;
    var complete := to.Some? && via.Some? && ':' in via.value;
    if !named || complete then Ok(None) else settings
  }

  function Lift<T>(list: seq<string>, parse: string -> Option<T>): Result<Option<seq<T>>> {
    if list == [] then Ok(None)
    else
      var r := ParseAll(NamesOf(list), parse);
      if r.Err? then Err(r.error) else Ok(Some(r.value))
  }

  /** Only a valid request comes out. */
  function RequestOf(flags: Flags, settings: Result<Option<Target>>, credential: string -> bool)
    : (r: Result<Option<Request>>)
    ensures r.Ok? && r.value.Some? ==> Validated(r.value.value, credential).Ok?
  {
    if flags.noNotify then Ok(Some(Off))
    else if !flags.notify && flags.on == [] && flags.finished == [] && flags.via.None? && flags.to.None? then Ok(None)
    else
      var machine := MachineBase(flags.via, flags.to, settings);
      if machine.Err? then Err(machine.error)
      else
        var on := Lift(flags.on, TransitionOf);
        if on.Err? then Err(on.error)
        else
          var finished := Lift(flags.finished, OutcomeOf);
          if finished.Err? then Err(finished.error)
          else
            var target := TargetOf(flags.via, flags.to, machine.value);
            if target.Err? then Err(target.error)
            else
              var req := Validated(On(target.value, on.value, finished.value), credential);
              if req.Err? then Err(req.error) else Ok(Some(req.value))
  }

  /** What the child makes of its arguments. */
  function Received(args: seq<string>, settings: Result<Option<Target>>, credential: string -> bool)
    : Result<Option<Request>>
  {
    var flags := ParseArgs(args, NO_FLAGS);
    if flags.Err? then Err(flags.error) else RequestOf(flags.value, settings, credential)
  }

  // -------------------------------------------------------------- the round trip

  function OnText(on: seq<Transition>): string {
    Join(NamesFor(on, TransitionName), ',')
  }

  function FinishedText(finished: seq<Outcome>): string {
    Join(NamesFor(finished, OutcomeName), ',')
  }

  function ViaText(t: Target): string {
    t.connector + "/" + t.account + ":" + t.function_
  }

  function OnArgs(on: Option<seq<Transition>>): seq<string> {
    if on.Some? then [Joined(NotifyOn, OnText(on.value))] else []
  }

  function FinishedArgs(finished: Option<seq<Outcome>>): seq<string> {
    if finished.Some? then [Joined(NotifyFinished, FinishedText(finished.value))] else []
  }

  function TargetArgs(target: Option<Target>): seq<string> {
    if target.Some? then [Joined(NotifyVia, ViaText(target.value)), Joined(NotifyTo, target.value.to)] else []
  }

  /** The flags that pass a request on to a detached child. */
  function ArgsOf(req: Request): seq<string> {
    match req
    case Off => [FlagText(NoNotify)]
    case On(target, on, finished) =>
      [FlagText(Notify)] + OnArgs(on) + FinishedArgs(finished) + TargetArgs(target)
  }

  /** What those flags stand for. */
  function FlagsOf(req: Request): Flags {
    match req
    case Off => NO_FLAGS.(noNotify := true)
    case On(target, on, finished) =>
      Flags(true, false,
            if on.Some? then Split(OnText(on.value), ',') else [],
            if finished.Some? then Split(FinishedText(finished.value), ',') else [],
            if target.Some? then Some(ViaText(target.value)) else None,
            if target.Some? then Some(target.value.to) else None)
  }

  lemma ParseTargetArgs(target: Option<Target>, flags: Flags)
    requires flags.via.None? && flags.to.None? && !flags.noNotify
    ensures ParseArgs(TargetArgs(target), flags) ==
            Ok(if target.None? then flags else flags.(via := Some(ViaText(target.value)), to := Some(target.value.to)))
  {
    if target.Some? {
      var via, to := ViaText(target.value), target.value.to;
      ParseTwoJoined(NotifyVia, via, NotifyTo, to, flags);
    }
  }

  lemma ParseArgsOf(req: Request)
    ensures ParseArgs(ArgsOf(req), NO_FLAGS) == Ok(FlagsOf(req))
  {
    match req
    case Off =>
      ParseSwitch(NoNotify, [], NO_FLAGS);
      assert [FlagText(NoNotify)] + [] == ArgsOf(req);
    case On(target, on, finished) =>
      var rest2 := TargetArgs(target);
      var rest1 := FinishedArgs(finished) + rest2;
      var rest0 := OnArgs(on) + rest1;
      assert ArgsOf(req) == [FlagText(Notify)] + rest0;
      var f0 := NO_FLAGS.(notify := true);
      ParseSwitch(Notify, rest0, NO_FLAGS);
      var f1 := if on.Some? then f0.(on := Split(OnText(on.value), ',')) else f0;
      if on.Some? {
        ParseJoined(NotifyOn, OnText(on.value), rest1, f0);
        assert f0.on + Split(OnText(on.value), ',') == f1.on;
      } else {
        assert rest0 == rest1;
      }
      var f2 := if finished.Some? then f1.(finished := Split(FinishedText(finished.value), ',')) else f1;
      if finished.Some? {
        ParseJoined(NotifyFinished, FinishedText(finished.value), rest2, f1);
        assert f1.finished + Split(FinishedText(finished.value), ',') == f2.finished;
      } else {
        assert rest1 == rest2;
      }
      ParseTargetArgs(target, f2);
  }

  lemma NamesAreTrimmed(s: string, also: char)
    requires IsName(s, also) && also in {'-', '_'}
    ensures Trim(s) == s && ':' !in s && '/' !in s
  {
    assert !IsSpace(s[0]) && !IsSpace(s[|s| - 1]);
    TrimLeavesEnds(s);
  }

  /** Trimmed names, a connector without `/` or `:` and an account without `:` are
      given back by the `via` that is printed for them. */
  lemma ViaReadsBack(t: Target)
    requires Trim(t.connector) == t.connector && Trim(t.account) == t.account && Trim(t.function_) == t.function_
    requires '/' !in t.connector && ':' !in t.connector && ':' !in t.account
    ensures ParseVia(ViaText(t)) == Ok((t.connector, t.account, Some(t.function_)))
    ensures ':' in ViaText(t)
  {
    var pair := t.connector + ['/'] + t.account;
    var via := ViaText(t);
    assert via == pair + [':'] + t.function_;
    assert ':' !in pair;
    FindIsTheSeparator(pair, ':', t.function_);
    FindIsTheSeparator(t.connector, '/', t.account);
    assert via[|pair|] == ':';
  }

  lemma CompleteTargetNeedsNoBase(via: string, t: Target)
    requires ParseVia(via) == Ok((t.connector, t.account, Some(t.function_)))
    ensures TargetOf(Some(via), Some(t.to), None) == Ok(Some(t))
  {
  }

  lemma TargetReadsBack(t: Target, credential: string -> bool)
    requires ValidTarget(t, credential)
    ensures ':' in ViaText(t)
    ensures TargetOf(Some(ViaText(t)), Some(t.to), None) == Ok(Some(t))
  {
    NamesAreTrimmed(t.connector, '-');
    NamesAreTrimmed(t.account, '-');
    NamesAreTrimmed(t.function_, '_');
    ViaReadsBack(t);
    CompleteTargetNeedsNoBase(ViaText(t), t);
  }

  lemma ListsReadBack(on: seq<Transition>, finished: seq<Outcome>)
    ensures on != [] ==> Lift(Split(OnText(on), ','), TransitionOf) == Ok(Some(on))
    ensures finished != [] ==> Lift(Split(FinishedText(finished), ','), OutcomeOf) == Ok(Some(finished))
  {
    forall t: Transition ensures NameReads(TransitionName, TransitionOf, t) {
      TransitionNameReads(t);
    }
    forall o: Outcome ensures NameReads(OutcomeName, OutcomeOf, o) {
      OutcomeNameReads(o);
    }
    if on != [] {
      ListReadsBack(on, TransitionName, TransitionOf);
    }
    if finished != [] {
      ListReadsBack(finished, OutcomeName, OutcomeOf);
    }
  }

  /** The flags of a request give the request back exactly when it is valid, whatever
      the machine's settings are, readable or not. */
  lemma RequestSurvivesTheFlags(req: Request, settings: Result<Option<Target>>, credential: string -> bool)
    ensures Received(ArgsOf(req), settings, credential) == Ok(Some(req)) <==> Validated(req, credential).Ok?
  {
    ParseArgsOf(req);
    if Validated(req, credential).Ok? {
      ValidSurvives(req, settings, credential);
    }
  }

  lemma ValidSurvives(req: Request, settings: Result<Option<Target>>, credential: string -> bool)
    requires Validated(req, credential).Ok?
    ensures RequestOf(FlagsOf(req), settings, credential) == Ok(Some(req))
  {
    if req.On? {
      ListsReadBack(if req.on.Some? then req.on.value else [], if req.finished.Some? then req.finished.value else []);
      if req.target.Some? {
        TargetReadsBack(req.target.value, credential);
      }
    }
  }

  // ------------------------------------------------------- what a request may be

  /** One to 64 characters: lower-case letters, digits, and after the first `also`. */
  ghost predicate NameOf(s: string, also: char) {
    && 1 <= |s| <= 64 && s[0] != also
    && forall c :: c in s ==> 'a' <= c <= 'z' || '0' <= c <= '9' || c == also
  }

  /** One to 256 characters without white space around them, and no credential. */
  ghost predicate RecipientOf(to: string, credential: string -> bool) {
    && 1 <= |to| <= 256 && !IsSpace(to[0]) && !IsSpace(to[|to| - 1])
    && !credential(to)
  }

  /** What an `On` request may hold. */
  ghost predicate MayBeOn(target: Option<Target>, on: Option<seq<Transition>>, finished: Option<seq<Outcome>>,
                          credential: string -> bool) {
    && (forall t :: target == Some(t) ==>
          && NameOf(t.connector, '-') && NameOf(t.account, '-') && NameOf(t.function_, '_')
          && RecipientOf(t.to, credential))
    && (forall list :: on == Some(list) ==> list != [])
    && (forall list :: finished == Some(list) ==> list != [] && (on.Some? ==> Finished in on.value))
  }

  lemma NameIsNameOf(s: string, also: char)
    requires also in {'-', '_'}
    ensures IsName(s, also) <==> NameOf(s, also)
  {
    if s != "" {
      assert s[0] in s;
    }
    forall i | 0 <= i < |s| ensures s[i] in s {
    }
  }

  lemma TargetMayBe(t: Target, credential: string -> bool)
    ensures ValidTarget(t, credential) <==>
            && NameOf(t.connector, '-') && NameOf(t.account, '-') && NameOf(t.function_, '_')
            && RecipientOf(t.to, credential)
  {
    NameIsNameOf(t.connector, '-');
    NameIsNameOf(t.account, '-');
    NameIsNameOf(t.function_, '_');
    TrimLeavesEnds(t.to);
  }

  /** A request is valid exactly when it is off, or its names, its recipient and its lists
      are as they may be; a recipient that looks like a credential is never accepted. */
  lemma ValidMeans(req: Request, credential: string -> bool)
    ensures Validated(req, credential).Ok? <==>
            req.Off? || MayBeOn(req.target, req.on, req.finished, credential)
    ensures req.On? && req.target.Some? && credential(req.target.value.to) ==>
            Validated(req, credential) == Err(BadTarget)
  {
    if req.On? && req.target.Some? {
      TargetMayBe(req.target.value, credential);
    }
  }

  /** A connector and an account as they are written for `--notify-via`. */
  function PairText(connector: string, account: string): string {
    connector + "/" + account
  }

  lemma PairReadsBack(connector: string, account: string)
    requires Trim(connector) == connector && Trim(account) == account
    requires '/' !in connector && ':' !in connector && ':' !in account
    ensures ':' !in PairText(connector, account)
    ensures ParseVia(PairText(connector, account)) == Ok((connector, account, None))
  {
    var via := PairText(connector, account);
    assert via == connector + ['/'] + account && via[..|via|] == via;
    FindIsTheSeparator(connector, '/', account);
  }

  /** What becomes of a part that is left out, `b` being the base if there is one: with the
      same account in the base it is the base's, and else it has to be named. */
  lemma PartsComeFromTheBase(connector: string, account: string, fun: string, to: Option<string>, base: Option<Target>)
    requires Trim(connector) == connector && Trim(account) == account && Trim(fun) == fun
    requires '/' !in connector && ':' !in connector && ':' !in account
    ensures var same := exists f, r :: base == Some(Target(connector, account, f, r));
            TargetOf(Some(PairText(connector, account)), to, base) ==
            if !same then Err(NameTheFunction)
            else Ok(Some(Target(connector, account, base.value.function_,
                                if to.Some? then to.value else base.value.to)))
    ensures var same := exists f, r :: base == Some(Target(connector, account, f, r));
            TargetOf(Some(PairText(connector, account) + ":" + fun), to, base) ==
            if to.None? && !same then Err(NameTheRecipient)
            else Ok(Some(Target(connector, account, fun, if to.Some? then to.value else base.value.to)))
    ensures to.Some? ==>
            TargetOf(None, to, base) ==
            if base.None? then Err(NoBase)
            else Ok(Some(Target(base.value.connector, base.value.account, base.value.function_, to.value)))
    ensures TargetOf(None, None, base) == Ok(None)
  {
    PairReadsBack(connector, account);
    var t := Target(connector, account, fun, "");
    ViaReadsBack(t);
    assert ViaText(t) == PairText(connector, account) + ":" + fun;
    assert base.Some? && SameAccount(base, connector, account) ==>
           base == Some(Target(connector, account, base.value.function_, base.value.to));
  }

  /** The machine's settings matter just when a target is named in part: then a file that
      does not read is an error, and else it is none. */
  lemma SettingsAreReadForAPart(flags: Flags, settings: Result<Option<Target>>, credential: string -> bool)
    requires !flags.noNotify
    ensures var part := (flags.via.Some? || flags.to.Some?) &&
                        (flags.to.None? || flags.via.None? || ':' !in flags.via.value);
            && (part && settings.Err? ==> RequestOf(flags, settings, credential) == Err(settings.error))
            && (!part ==> RequestOf(flags, settings, credential) == RequestOf(flags, Ok(None), credential))
  {
  }

  // ---------------------------------------------------------- what is documented

  /** The words of the command line, as they are read. */
  lemma WordsAreRead()
    ensures TransitionOf("review") == Some(Review) && TransitionOf("question") == Some(Question)
    ensures TransitionOf("paused") == Some(Paused) && TransitionOf("finished") == Some(Finished)
    ensures TransitionOf("host_task") == Some(HostTask) && TransitionOf("supervisor") == Some(Supervisor)
    ensures TransitionOf("stalled") == Some(Stalled)
    ensures OutcomeOf("succeeded") == Some(Succeeded) && OutcomeOf("needs_look") == Some(NeedsLook)
    ensures OutcomeOf("failed") == Some(Failed) && OutcomeOf("aborted") == Some(Aborted)
  {
    forall t: Transition ensures NameReads(TransitionName, TransitionOf, t) {
      TransitionNameReads(t);
    }
    forall o: Outcome ensures NameReads(OutcomeName, OutcomeOf, o) {
      OutcomeNameReads(o);
    }
    assert NameReads(TransitionName, TransitionOf, Review) && NameReads(TransitionName, TransitionOf, Question);
    assert NameReads(TransitionName, TransitionOf, Paused) && NameReads(TransitionName, TransitionOf, Finished);
    assert NameReads(TransitionName, TransitionOf, HostTask) && NameReads(TransitionName, TransitionOf, Supervisor);
    assert NameReads(TransitionName, TransitionOf, Stalled);
    assert NameReads(OutcomeName, OutcomeOf, Succeeded) && NameReads(OutcomeName, OutcomeOf, NeedsLook);
    assert NameReads(OutcomeName, OutcomeOf, Failed) && NameReads(OutcomeName, OutcomeOf, Aborted);
  }

  lemma FlagsAreRead()
    ensures FlagOf("--notify") == Some(Notify) && FlagOf("--no-notify") == Some(NoNotify)
    ensures FlagOf("--notify-on") == Some(NotifyOn) && FlagOf("--notify-finished") == Some(NotifyFinished)
    ensures FlagOf("--notify-via") == Some(NotifyVia) && FlagOf("--notify-to") == Some(NotifyTo)
  {
    FlagTextReads(Notify);
    FlagTextReads(NoNotify);
    FlagTextReads(NotifyOn);
    FlagTextReads(NotifyFinished);
    FlagTextReads(NotifyVia);
    FlagTextReads(NotifyTo);
  }

  /** Empty names are dropped, and all others are taken without the white space around them. */
  lemma {:induction false} NamesOfAre(list: seq<string>, n: string)
    ensures n in NamesOf(list) <==> n != "" && exists l :: l in list && Trim(l) == n
  {
    if list != [] {
      NamesOfAre(list[1..], n);
      assert list == [list[0]] + list[1..];
    }
  }

  /** After a space a value may begin with a dash only for the recipient, or when it is
      nothing else. */
  lemma DashIsNoValue(f: Flag, value: string, rest: seq<string>, flags: Flags)
    requires TakesValue(f) && Noted(f, value, flags).Ok?
    ensures var args := [FlagText(f), value] + rest;
            if f != NotifyTo && |value| >= 2 && value[0] == '-' then ParseArgs(args, flags) == Err(ValueMissing)
            else ParseArgs(args, flags) == ParseArgs(rest, Noted(f, value, flags).value)
  {
    FlagTextReads(f);
    var args := [FlagText(f), value] + rest;
    assert args[2..] == rest && args[0][..|args[0]|] == args[0];
  }

  /** A switch or a single value given twice is refused; lists go on. */
  lemma GivenTwice(f: Flag, value: string, again: string, flags: Flags)
    requires Noted(f, value, flags).Ok?
    ensures var once := Noted(f, value, flags).value;
            if f in {NotifyOn, NotifyFinished} then Noted(f, again, once).Ok?
            else Noted(f, again, once) == Err(FlagRepeated)
    ensures var once := Noted(f, value, flags).value;
            f in {NotifyOn, NotifyFinished} ==>
              var twice := Noted(f, again, once).value;
              if f == NotifyOn then twice.on == flags.on + Split(value, ',') + Split(again, ',')
              else twice.finished == flags.finished + Split(value, ',') + Split(again, ',')
  {
  }

  /** No request is made exactly when no flag is given: any other flag alone asks for one. */
  lemma AnyFlagAsks(flags: Flags, settings: Result<Option<Target>>, credential: string -> bool)
    ensures RequestOf(flags, settings, credential) == Ok(None) <==> flags == NO_FLAGS
    ensures flags.noNotify ==> RequestOf(flags, settings, credential) == Ok(Some(Off))
  {
  }
}
