/** The global-flag pre-pass over the command line and its environment overrides (src/runtime.rs). */
module GlobalFlags {
  import opened Basics
  import opened Text

  datatype OutputMode = Text | Json | Quiet

  datatype ContainerSource = Local | Remote

  datatype Flags = Flags(output: OutputMode, passphraseFile: Option<string>, alias: Option<string>,
                         container: Option<ContainerSource>, yes: bool)

  const DEFAULT := Flags(Text, None, None, None, false)

  datatype Flag = JsonFlag | QuietFlag | PassphraseFileFlag | AliasFlag | LocalFlag | RemoteFlag | YesFlag

  datatype EnvVar = ZzOutput | ZzPassphraseFile | ZzAlias | ZzContainer

  datatype FlagError =
    | QuietJsonConflict
    | MissingValue(flag: Flag)
    | EmptyValue(flag: Flag)
    | ContainerConflict
    | UnknownFlag(token: string)
    | BadEnvValue(variable: EnvVar, value: string)

  function Name(f: Flag): string
  {
    match f
    case JsonFlag => "--json"
    case QuietFlag => "--quiet"
    case PassphraseFileFlag => "--passphrase-file"
    case AliasFlag => "--alias"
    case LocalFlag => "--local"
    case RemoteFlag => "--remote"
    case YesFlag => "--yes"
  }

  const FLAGS: seq<Flag> := [JsonFlag, QuietFlag, PassphraseFileFlag, AliasFlag, LocalFlag, RemoteFlag, YesFlag]

  function Named(name: string, flags: seq<Flag>): (r: Option<Flag>)
    ensures r.Some? ==> Name(r.value) == name
  {
    if flags == [] then None else if Name(flags[0]) == name then Some(flags[0]) else Named(name, flags[1..])
  }

  predicate TakesValue(f: Flag) { f.PassphraseFileFlag? || f.AliasFlag? }

  predicate IsDashed(tok: string) { |tok| >= 2 && tok[0] == '-' && tok[1] == '-' }

  predicate IsTerminator(tok: string) { |tok| == 2 && IsDashed(tok) }

  function FirstIndex(s: string, c: char): (r: Option<nat>)
    ensures r.Some? ==> r.value < |s| && s[r.value] == c && Free(s[..r.value], c)
    ensures r.None? ==> Free(s, c)
  {
    if s == "" then None
    else if s[0] == c then Some(0)
    else
      var r := FirstIndex(s[1..], c);
      assert s == [s[0]] + s[1..];
      assert r.Some? ==> s[..r.value + 1] == [s[0]] + s[1..][..r.value];
      if r.Some? then Some(r.value + 1) else None
  }

  /** `--name=value` into name and value. */
  function SplitEq(tok: string): (string, Option<string>)
  {
    match FirstIndex(tok, '=')
    case Some(i) => (tok[..i], Some(tok[i + 1..]))
    case None => (tok, None)
  }

  /** Setting a switch; the two pairs of opposites exclude each other. */
  function SetSwitch(flags: Flags, f: Flag): Result<Flags, FlagError>
  {
    match f
    case JsonFlag => if flags.output.Quiet? then Err(QuietJsonConflict) else Ok(flags.(output := Json))
    case QuietFlag => if flags.output.Json? then Err(QuietJsonConflict) else Ok(flags.(output := Quiet))
    case LocalFlag => if flags.container == Some(Remote) then Err(ContainerConflict)
                      else Ok(flags.(container := Some(Local)))
    case RemoteFlag => if flags.container == Some(Local) then Err(ContainerConflict)
                       else Ok(flags.(container := Some(Remote)))
    case YesFlag => Ok(flags.(yes := true))
    case PassphraseFileFlag => Ok(flags)
    case AliasFlag => Ok(flags)
  }

  function SetValue(flags: Flags, f: Flag, value: string): Flags
  {
    if f.PassphraseFileFlag? then flags.(passphraseFile := Some(value))
    else if f.AliasFlag? then flags.(alias := Some(value))
    else flags
  }

  /** One dashed token: the new flags, and whether the next token was taken as its value. */
  function Consume(flags: Flags, tok: string, rest: seq<string>): (r: Result<(Flags, bool), FlagError>)
    ensures r.Ok? && r.value.1 ==> rest != []
  {
    var (name, inlineValue) := SplitEq(tok);
    match Named(name, FLAGS)
    case None => Err(UnknownFlag(tok))
    case Some(f) =>
      if TakesValue(f) then
        if inlineValue.None? && rest == [] then Err(MissingValue(f))
        else
          var value := if inlineValue.Some? then inlineValue.value else rest[0];
          if value == "" then Err(EmptyValue(f)) else Ok((SetValue(flags, f, value), inlineValue.None?))
      else if inlineValue.Some? && inlineValue.value != "" then Err(UnknownFlag(tok))
      else
        match SetSwitch(flags, f)
        case Err(e) => Err(e)
        case Ok(flags') => Ok((flags', false))
  }

  /** What scanning `argv` from the state `flags` gives: the flags and the residual arguments. */
  function Scan(flags: Flags, argv: seq<string>): Result<(Flags, seq<string>), FlagError>
    decreases |argv|
  {
    if argv == [] then Ok((flags, []))
    else if IsTerminator(argv[0]) then Ok((flags, argv[1..]))
    else if !IsDashed(argv[0]) then
      match Scan(flags, argv[1..])
      case Err(e) => Err(e)
      case Ok(r) => Ok((r.0, [argv[0]] + r.1))
    else
      match Consume(flags, argv[0], argv[1..])
      case Err(e) => Err(e)
      case Ok(next) => Scan(next.0, if next.1 then argv[2..] else argv[1..])
  }

  /** `extract_flags`, as the single pass it is. */
  method ExtractFlags(argv: seq<string>) returns (r: Result<(Flags, seq<string>), FlagError>)
    ensures r == Scan(DEFAULT, argv)
  {
    var flags := DEFAULT;
    var residual: seq<string> := [];
    var i := 0;
    assert argv[0..] == argv;
    PrependNothing(Scan(flags, argv));
    while i < |argv|
      invariant 0 <= i <= |argv|
      invariant Scan(DEFAULT, argv) == Prepend(residual, Scan(flags, argv[i..]))
    {
      var tok := argv[i];
      assert argv[i..][0] == tok && argv[i..][1..] == argv[i + 1..];
      if IsTerminator(tok) {
        return Ok((flags, residual + argv[i + 1..]));
      }
      if !IsDashed(tok) {
        PrependOne(residual, tok, Scan(flags, argv[i + 1..]));
        residual := residual + [tok];
        i := i + 1;
        continue;
      }
      var next := Consume(flags, tok, argv[i + 1..]);
      if next.Err? {
        return Err(next.error);
      }
      flags := next.value.0;
      if next.value.1 {
        assert argv[i..][2..] == argv[i + 2..];
        i := i + 2;
      } else {
        i := i + 1;
      }
    }
    assert residual + [] == residual;
    return Ok((flags, residual));
  }

  function Prepend(before: seq<string>, r: Result<(Flags, seq<string>), FlagError>): Result<(Flags, seq<string>), FlagError>
  {
    match r
    case Err(e) => Err(e)
    case Ok(p) => Ok((p.0, before + p.1))
  }

  lemma PrependNothing(r: Result<(Flags, seq<string>), FlagError>)
    ensures Prepend([], r) == r
  {
    if r.Ok? {
      assert [] + r.value.1 == r.value.1;
    }
  }

  lemma PrependOne(before: seq<string>, tok: string, r: Result<(Flags, seq<string>), FlagError>)
    ensures Prepend(before, Prepend([tok], r)) == Prepend(before + [tok], r)
  {
    if r.Ok? {
      assert before + ([tok] + r.value.1) == before + [tok] + r.value.1;
    }
  }

  // ----- command lines as interleavings -----

  /** A positional, a switch (`--json` or `--json=`), or a flag with its value (`--alias v` or `--alias=v`). */
  datatype Item =
    | Positional(token: string)
    | Switch(flag: Flag, bareEquals: bool)
    | Valued(flag: Flag, value: string, inlined: bool)

  predicate WellFormed(x: Item)
  {
    match x
    case Positional(token) => !(['-', '-'] <= token)
    case Switch(flag, _) => !TakesValue(flag)
    case Valued(flag, value, _) => TakesValue(flag) && value != ""
  }

  function Tokens(x: Item): seq<string>
  {
    match x
    case Positional(token) => [token]
    case Switch(flag, bareEquals) => [if bareEquals then Name(flag) + "=" else Name(flag)]
    case Valued(flag, value, inlined) => if inlined then [Name(flag) + "=" + value] else [Name(flag), value]
  }

  function Argv(xs: seq<Item>): seq<string> { if xs == [] then [] else Tokens(xs[0]) + Argv(xs[1..]) }

  function Apply(flags: Flags, x: Item): Result<Flags, FlagError>
  {
    match x
    case Positional(_) => Ok(flags)
    case Switch(flag, _) => SetSwitch(flags, flag)
    case Valued(flag, value, _) => Ok(SetValue(flags, flag, value))
  }

  function ApplyAll(flags: Flags, xs: seq<Item>): Result<Flags, FlagError>
    decreases |xs|
  {
    if xs == [] then Ok(flags)
    else
      match Apply(flags, xs[0])
      case Err(e) => Err(e)
      case Ok(next) => ApplyAll(next, xs[1..])
  }

  function Positionals(xs: seq<Item>): seq<string>
  {
    if xs == [] then [] else (if xs[0].Positional? then [xs[0].token] else []) + Positionals(xs[1..])
  }

  function Groups(xs: seq<Item>): seq<Item>
  {
    if xs == [] then [] else (if xs[0].Positional? then [] else [xs[0]]) + Groups(xs[1..])
  }

  /** Nothing, or `--` and whatever follows it. */
  datatype Tail = NoTail | Verbatim(tokens: seq<string>)

  function TailTokens(t: Tail): seq<string> { if t.NoTail? then [] else ["--"] + t.tokens }

  function TailResidual(t: Tail): seq<string> { if t.NoTail? then [] else t.tokens }

  lemma NameShape(f: Flag)
    ensures IsDashed(Name(f)) && |Name(f)| > 2
    ensures forall i | 0 <= i < |Name(f)| :: Name(f)[i] != '='
  {
  }

  lemma NamesDiffer(a: Flag, b: Flag)
    requires a != b
    ensures Name(a) != Name(b)
  {
    assert |Name(a)| != |Name(b)| || Name(a)[2] != Name(b)[2];
  }

  lemma {:induction false} NamedByName(f: Flag, flags: seq<Flag>)
    requires f in flags
    ensures Named(Name(f), flags) == Some(f)
  {
    if flags[0] != f {
      NamesDiffer(flags[0], f);
      NamedByName(f, flags[1..]);
    }
  }

  lemma {:induction false} FirstIndexAt(name: string, tail: string)
    requires Free(name, '=')
    ensures FirstIndex(name + ['='] + tail, '=') == Some(|name|) && FirstIndex(name, '=') == None
  {
    var s := name + ['='] + tail;
    var r := FirstIndex(s, '=');
    assert s[|name|] == '=';
    assert forall i | 0 <= i < |name| :: s[i] == name[i] && name[i] in name;
    assert r.Some? && r.value <= |name| by {
      assert s[|name|] in s;
      assert r.Some? ==> forall i | 0 <= i < r.value :: s[..r.value][i] == s[i];
    }
  }

  lemma {:induction false} SplitEqOfName(name: string, tail: string)
    requires Free(name, '=')
    ensures SplitEq(name + ['='] + tail) == (name, Some(tail)) && SplitEq(name) == (name, None)
  {
    FirstIndexAt(name, tail);
    var s := name + ['='] + tail;
    assert s[..|name|] == name && s[|name| + 1..] == tail;
  }

  /** A dashed token with the name of `f` in front of an optional value. */
  lemma {:induction false} ConsumeNamed(flags: Flags, f: Flag, rest: seq<string>, value: string)
    ensures IsDashed(Name(f)) && !IsTerminator(Name(f))
    ensures IsDashed(Name(f) + "=" + value) && !IsTerminator(Name(f) + "=" + value)
    ensures SplitEq(Name(f) + "=" + value) == (Name(f), Some(value)) && SplitEq(Name(f)) == (Name(f), None)
    ensures Named(Name(f), FLAGS) == Some(f)
  {
    NameShape(f);
    SplitEqOfName(Name(f), value);
    NamedByName(f, FLAGS);
    assert Name(f) + "=" + value == Name(f) + ['='] + value;
  }

  /** One item at the front of the line is consumed whole and applied. */
  lemma {:induction false} ScanItem(flags: Flags, x: Item, rest: seq<string>)
    requires WellFormed(x)
    ensures Scan(flags, Tokens(x) + rest) ==
            match Apply(flags, x)
            case Err(e) => Err(e)
            case Ok(next) => Prepend(if x.Positional? then [x.token] else [], Scan(next, rest))
  {
    match x
    case Positional(token) => assert ([token] + rest)[1..] == rest;
    case Switch(flag, bareEquals) => ScanSwitch(flags, x, rest);
    case Valued(flag, value, inlined) => ScanValued(flags, x, rest);
  }

  lemma {:induction false} ScanSwitch(flags: Flags, x: Item, rest: seq<string>)
    requires WellFormed(x) && x.Switch?
    ensures Scan(flags, Tokens(x) + rest) ==
            match Apply(flags, x)
            case Err(e) => Err(e)
            case Ok(next) => Prepend([], Scan(next, rest))
  {
    ConsumeNamed(flags, x.flag, rest, "");
    assert Name(x.flag) + "=" + "" == Name(x.flag) + "=";
    assert (Tokens(x) + rest)[1..] == rest;
    EmptyPrepend(flags, x, rest);
  }

  lemma {:induction false} ScanValued(flags: Flags, x: Item, rest: seq<string>)
    requires WellFormed(x) && x.Valued?
    ensures Scan(flags, Tokens(x) + rest) ==
            match Apply(flags, x)
            case Err(e) => Err(e)
            case Ok(next) => Prepend([], Scan(next, rest))
  {
    var argv := Tokens(x) + rest;
    ConsumeNamed(flags, x.flag, rest, x.value);
    EmptyPrepend(flags, x, rest);
    if x.inlined {
      assert argv[1..] == rest;
    } else {
      assert argv[1..] == [x.value] + rest && argv[2..] == rest;
    }
  }

  lemma EmptyPrepend(flags: Flags, x: Item, rest: seq<string>)
    ensures Apply(flags, x).Ok? ==> Prepend([], Scan(Apply(flags, x).value, rest)) == Scan(Apply(flags, x).value, rest)
  {
    if Apply(flags, x).Ok? {
      PrependNothing(Scan(Apply(flags, x).value, rest));
    }
  }

  /**
   Any line put together from well-formed groups and positionals, with any tail after `--`: the flags are the groups
   applied in order, the residual is the positionals in order and then the tail as it stands.
   */
  lemma {:induction false} ScanOfItems(flags: Flags, xs: seq<Item>, tail: Tail)
    requires forall x | x in xs :: WellFormed(x)
    ensures Scan(flags, Argv(xs) + TailTokens(tail)) ==
            match ApplyAll(flags, xs)
            case Err(e) => Err(e)
            case Ok(f) => Ok((f, Positionals(xs) + TailResidual(tail)))
    decreases |xs|
  {
    if xs == [] {
      ScanOfTail(flags, tail);
      assert Argv(xs) + TailTokens(tail) == TailTokens(tail);
      assert Positionals(xs) + TailResidual(tail) == TailResidual(tail);
    } else {
      ArgvCons(xs, TailTokens(tail));
      assert xs[0] in xs;
      ScanItem(flags, xs[0], Argv(xs[1..]) + TailTokens(tail));
      if Apply(flags, xs[0]).Ok? {
        ScanOfItems(Apply(flags, xs[0]).value, xs[1..], tail);
        PositionalsCons(xs, TailResidual(tail));
      }
    }
  }

  lemma ScanOfTail(flags: Flags, tail: Tail)
    ensures Scan(flags, TailTokens(tail)) == Ok((flags, TailResidual(tail)))
  {
    if tail.Verbatim? {
      assert (["--"] + tail.tokens)[1..] == tail.tokens;
    }
  }

  lemma ArgvCons(xs: seq<Item>, more: seq<string>)
    requires xs != []
    ensures Argv(xs) + more == Tokens(xs[0]) + (Argv(xs[1..]) + more)
  {
    Associate(Tokens(xs[0]), Argv(xs[1..]), more);
  }

  lemma PositionalsCons(xs: seq<Item>, more: seq<string>)
    requires xs != []
    ensures Positionals(xs) + more == (if xs[0].Positional? then [xs[0].token] else []) + (Positionals(xs[1..]) + more)
  {
    Associate(if xs[0].Positional? then [xs[0].token] else [], Positionals(xs[1..]), more);
  }

  lemma Associate(a: seq<string>, b: seq<string>, c: seq<string>)
    ensures (a + b) + c == a + (b + c)
  {
  }

  lemma {:induction false} OnlyGroupsCount(flags: Flags, xs: seq<Item>)
    ensures ApplyAll(flags, Groups(xs)) == ApplyAll(flags, xs)
    decreases |xs|
  {
    if xs != [] {
      if xs[0].Positional? {
        assert Groups(xs) == Groups(xs[1..]);
        OnlyGroupsCount(flags, xs[1..]);
      } else {
        assert Groups(xs)[0] == xs[0] && Groups(xs)[1..] == Groups(xs[1..]);
        if Apply(flags, xs[0]).Ok? {
          OnlyGroupsCount(Apply(flags, xs[0]).value, xs[1..]);
        }
      }
    }
  }

  /** The shuffle theorem: how the same groups and the same positionals are interleaved makes no difference. */
  lemma {:induction false} InterleavingIsIrrelevant(xs: seq<Item>, ys: seq<Item>, tail: Tail)
    requires forall x | x in xs + ys :: WellFormed(x)
    requires Groups(xs) == Groups(ys) && Positionals(xs) == Positionals(ys)
    ensures Scan(DEFAULT, Argv(xs) + TailTokens(tail)) == Scan(DEFAULT, Argv(ys) + TailTokens(tail))
  {
    assert forall x | x in xs :: x in xs + ys;
    assert forall y | y in ys :: y in xs + ys;
    ScanOfItems(DEFAULT, xs, tail);
    ScanOfItems(DEFAULT, ys, tail);
    OnlyGroupsCount(DEFAULT, xs);
    OnlyGroupsCount(DEFAULT, ys);
  }

  predicate Sets(xs: seq<Item>, f: Flag) { exists x | x in xs :: x.Switch? && x.flag == f }

  function LastValue(xs: seq<Item>, f: Flag, start: Option<string>): Option<string>
  {
    if xs == [] then start
    else
      var x := xs[|xs| - 1];
      if x.Valued? && x.flag == f then Some(x.value) else LastValue(xs[..|xs| - 1], f, start)
  }

  predicate Conflicting(xs: seq<Item>)
  {
    (Sets(xs, JsonFlag) && Sets(xs, QuietFlag)) || (Sets(xs, LocalFlag) && Sets(xs, RemoteFlag))
  }

  function Outcome(xs: seq<Item>): Flags
  {
    Flags(if Sets(xs, JsonFlag) then Json else if Sets(xs, QuietFlag) then Quiet else Text,
          LastValue(xs, PassphraseFileFlag, None), LastValue(xs, AliasFlag, None),
          if Sets(xs, LocalFlag) then Some(Local) else if Sets(xs, RemoteFlag) then Some(Remote) else None,
          Sets(xs, YesFlag))
  }

  lemma {:induction false} ApplyLast(flags: Flags, xs: seq<Item>)
    requires xs != []
    ensures ApplyAll(flags, xs) ==
            match ApplyAll(flags, xs[..|xs| - 1])
            case Err(e) => Err(e)
            case Ok(f) => Apply(f, xs[|xs| - 1])
    decreases |xs|
  {
    if |xs| > 1 && Apply(flags, xs[0]).Ok? {
      ApplyLast(Apply(flags, xs[0]).value, xs[1..]);
      assert xs[1..][..|xs| - 2] == xs[..|xs| - 1][1..];
    }
  }

  lemma {:induction false} SetsLast(xs: seq<Item>, f: Flag)
    requires xs != []
    ensures Sets(xs, f) <==> Sets(xs[..|xs| - 1], f) || (xs[|xs| - 1].Switch? && xs[|xs| - 1].flag == f)
  {
    var n := |xs| - 1;
    assert xs == xs[..n] + [xs[n]];
  }

  /** The flags succeed exactly when no two opposites are given; then every switch counts, and the last value wins. */
  lemma {:induction false} ConflictFreeOutcome(xs: seq<Item>)
    requires forall x | x in xs :: WellFormed(x)
    ensures ApplyAll(DEFAULT, xs) == Ok(Outcome(xs)) <==> !Conflicting(xs)
    ensures ApplyAll(DEFAULT, xs).Err? <==> Conflicting(xs)
    decreases |xs|
  {
    if xs != [] {
      var n := |xs| - 1;
      var before, x := xs[..n], xs[n];
      assert WellFormed(x);
      assert forall y | y in before :: y in xs;
      ConflictFreeOutcome(before);
      ApplyLast(DEFAULT, xs);
      SetsLast(xs, JsonFlag);
      SetsLast(xs, QuietFlag);
      SetsLast(xs, LocalFlag);
      SetsLast(xs, RemoteFlag);
      SetsLast(xs, YesFlag);
    }
  }

  /** Conversely, every line that is accepted is put together from well-formed items and a tail. */
  lemma {:induction false} AcceptedLineIsItems(flags: Flags, argv: seq<string>) returns (xs: seq<Item>, tail: Tail)
    requires Scan(flags, argv).Ok?
    ensures argv == Argv(xs) + TailTokens(tail) && forall x | x in xs :: WellFormed(x)
    decreases |argv|
  {
    if argv == [] {
      xs, tail := [], NoTail;
    } else if IsTerminator(argv[0]) {
      xs, tail := [], Verbatim(argv[1..]);
      assert argv[0] == "--";
      assert argv == ["--"] + argv[1..];
    } else if !IsDashed(argv[0]) {
      xs, tail := AcceptedLineIsItems(flags, argv[1..]);
      xs := ItemBefore(Positional(argv[0]), argv, 1, xs, tail);
    } else {
      var x := ConsumedItem(flags, argv);
      var next := Consume(flags, argv[0], argv[1..]).value;
      var n := if next.1 then 2 else 1;
      xs, tail := AcceptedLineIsItems(next.0, argv[n..]);
      xs := ItemBefore(x, argv, n, xs, tail);
    }
  }

  /** The item a dashed token stands for. */
  lemma {:induction false} ConsumedItem(flags: Flags, argv: seq<string>) returns (x: Item)
    requires argv != [] && Consume(flags, argv[0], argv[1..]).Ok?
    ensures WellFormed(x)
    ensures argv[..if Consume(flags, argv[0], argv[1..]).value.1 then 2 else 1] == Tokens(x)
    ensures Apply(flags, x) == Ok(Consume(flags, argv[0], argv[1..]).value.0)
  {
    var (name, inlineValue) := SplitEq(argv[0]);
    var f := Named(name, FLAGS).value;
    JoinEq(argv[0]);
    if !TakesValue(f) {
      x := Switch(f, inlineValue.Some?);
      assert inlineValue.Some? ==> Name(f) + "=" + "" == Name(f) + "=";
    } else if inlineValue.Some? {
      x := Valued(f, inlineValue.value, true);
    } else {
      x := Valued(f, argv[1], false);
    }
  }

  lemma JoinEq(tok: string)
    ensures var (name, value) := SplitEq(tok);
            tok == if value.Some? then name + "=" + value.value else name
  {
    var i := FirstIndex(tok, '=');
    if i.Some? {
      assert tok == tok[..i.value] + [tok[i.value]] + tok[i.value + 1..];
    }
  }

  lemma {:induction false} ItemBefore(x: Item, argv: seq<string>, n: nat, xs: seq<Item>, tail: Tail)
    returns (ys: seq<Item>)
    requires n <= |argv| && argv[..n] == Tokens(x) && WellFormed(x)
    requires argv[n..] == Argv(xs) + TailTokens(tail) && forall y | y in xs :: WellFormed(y)
    ensures argv == Argv(ys) + TailTokens(tail) && forall y | y in ys :: WellFormed(y)
  {
    ys := [x] + xs;
    assert ys[0] == x && ys[1..] == xs;
    ArgvCons(ys, TailTokens(tail));
    assert argv == argv[..n] + argv[n..];
  }

  lemma {:induction false} SwitchStep(flags: Flags, f: Flag, rest: seq<string>)
    requires !TakesValue(f)
    ensures Scan(flags, [Name(f)] + rest) ==
            match SetSwitch(flags, f)
            case Err(e) => Err(e)
            case Ok(next) => Scan(next, rest)
  {
    var x := Switch(f, false);
    ScanSwitch(flags, x, rest);
    EmptyPrepend(flags, x, rest);
  }

  /** What `--json` and `--quiet` do to the line behind them. */
  lemma {:induction false} OutputIsSpelled(flags: Flags, tok: string, rest: seq<string>)
    requires tok == "--json" || tok == "--quiet"
    ensures Scan(flags, [tok] + rest) ==
            if flags.output == (if tok == "--json" then Quiet else Json) then Err(QuietJsonConflict)
            else Scan(flags.(output := if tok == "--json" then Json else Quiet), rest)
  {
    SwitchStep(flags, if tok == "--json" then JsonFlag else QuietFlag, rest);
  }

  /** What `--local` and `--remote` do. */
  lemma {:induction false} ContainerIsSpelled(flags: Flags, tok: string, rest: seq<string>)
    requires tok == "--local" || tok == "--remote"
    ensures Scan(flags, [tok] + rest) ==
            if flags.container == Some(if tok == "--local" then Remote else Local) then Err(ContainerConflict)
            else Scan(flags.(container := Some(if tok == "--local" then Local else Remote)), rest)
  {
    SwitchStep(flags, if tok == "--local" then LocalFlag else RemoteFlag, rest);
  }

  /** What `--yes` does. */
  lemma {:induction false} YesIsSpelled(flags: Flags, tok: string, rest: seq<string>)
    requires tok == "--yes"
    ensures Scan(flags, [tok] + rest) == Scan(flags.(yes := true), rest)
  {
    SwitchStep(flags, YesFlag, rest);
  }

  lemma {:induction false} ValueStep(flags: Flags, f: Flag, value: string, rest: seq<string>)
    requires TakesValue(f) && value != ""
    ensures Scan(flags, [Name(f), value] + rest) == Scan(SetValue(flags, f, value), rest)
  {
    var x := Valued(f, value, false);
    ScanValued(flags, x, rest);
    EmptyPrepend(flags, x, rest);
  }

  /** What `--alias` and `--passphrase-file` do with the value behind them. */
  lemma {:induction false} ValuesAreSpelled(flags: Flags, tok: string, value: string, rest: seq<string>)
    requires (tok == "--alias" || tok == "--passphrase-file") && value != ""
    ensures Scan(flags, [tok, value] + rest) ==
            Scan(if tok == "--alias" then flags.(alias := Some(value)) else flags.(passphraseFile := Some(value)), rest)
  {
    ValueStep(flags, if tok == "--alias" then AliasFlag else PassphraseFileFlag, value, rest);
  }

  // ----- the lines that are refused -----

  /** Items in front of anything else are consumed first. */
  lemma {:induction false} ScanBehindItems(flags: Flags, xs: seq<Item>, rest: seq<string>)
    requires forall x | x in xs :: WellFormed(x)
    ensures Scan(flags, Argv(xs) + rest) ==
            match ApplyAll(flags, xs)
            case Err(e) => Err(e)
            case Ok(next) => Prepend(Positionals(xs), Scan(next, rest))
    decreases |xs|
  {
    if xs == [] {
      assert Argv(xs) + rest == rest;
      PrependNothing(Scan(flags, rest));
    } else {
      ArgvCons(xs, rest);
      assert xs[0] in xs;
      ScanItem(flags, xs[0], Argv(xs[1..]) + rest);
      if Apply(flags, xs[0]).Ok? {
        var next := Apply(flags, xs[0]).value;
        ScanBehindItems(next, xs[1..], rest);
        if ApplyAll(next, xs[1..]).Ok? {
          PrependTwice(if xs[0].Positional? then [xs[0].token] else [], Positionals(xs[1..]),
                       Scan(ApplyAll(next, xs[1..]).value, rest));
        }
      }
    }
  }

  lemma PrependTwice(a: seq<string>, b: seq<string>, r: Result<(Flags, seq<string>), FlagError>)
    ensures Prepend(a, Prepend(b, r)) == Prepend(a + b, r)
  {
    if r.Ok? {
      Associate(a, b, r.value.1);
    }
  }

  /** The token is the flag, alone or with a value behind an equals sign. */
  predicate Spells(tok: string, f: Flag) { tok == Name(f) || Name(f) + "=" <= tok }

  /** A token that cannot be consumed, and why: no such flag, a switch with a value, a value missing or empty. */
  ghost predicate Offends(tok: string, rest: seq<string>, e: FlagError)
  {
    && IsDashed(tok) && !IsTerminator(tok)
    && match e
       case UnknownFlag(t) =>
         t == tok && forall f :: Spells(tok, f) ==> !TakesValue(f) && tok != Name(f) && tok != Name(f) + "="
       case MissingValue(f) => TakesValue(f) && tok == Name(f) && rest == []
       case EmptyValue(f) =>
         TakesValue(f) && (tok == Name(f) + "=" || (tok == Name(f) && rest != [] && rest[0] == ""))
       case _ => false
  }

  lemma {:induction false} SpelledIsNamed(tok: string, f: Flag)
    ensures Spells(tok, f) <==> Named(SplitEq(tok).0, FLAGS) == Some(f)
    ensures tok == Name(f) ==> SplitEq(tok).1 == None
    ensures Name(f) + "=" <= tok ==> SplitEq(tok).1 == Some(tok[|Name(f)| + 1..])
  {
    JoinEq(tok);
    if Name(f) + "=" <= tok {
      var value := tok[|Name(f)| + 1..];
      assert tok == Name(f) + "=" + value;
      ConsumeNamed(DEFAULT, f, [], value);
    } else if tok == Name(f) {
      ConsumeNamed(DEFAULT, f, [], "");
    }
  }

  /** The token is a switch whose opposite is set. */
  predicate IsOpposed(flags: Flags, tok: string, f: Flag, e: FlagError)
  {
    !TakesValue(f) && (tok == Name(f) || tok == Name(f) + "=") && SetSwitch(flags, f) == Err(e)
  }

  /** Consuming fails for such a token, or for a switch whose opposite is set. */
  ghost predicate FailsWith(flags: Flags, tok: string, rest: seq<string>, e: FlagError)
  {
    Offends(tok, rest, e) || exists f :: IsOpposed(flags, tok, f, e)
  }

  lemma {:induction false} OnlyFlag(tok: string, f: Flag)
    requires Named(SplitEq(tok).0, FLAGS) == Some(f)
    ensures Spells(tok, f) && forall g :: Spells(tok, g) || tok == Name(g) || tok == Name(g) + "=" ==> g == f
    ensures SplitEq(tok).1 == None <==> tok == Name(f)
    ensures SplitEq(tok).1 == Some("") <==> tok == Name(f) + "="
  {
    forall g ensures Spells(tok, g) || tok == Name(g) || tok == Name(g) + "=" ==> g == f {
      SpelledIsNamed(tok, g);
    }
    SpelledIsNamed(tok, f);
    JoinEq(tok);
  }

  lemma {:induction false} UnknownFails(flags: Flags, tok: string, rest: seq<string>, e: FlagError)
    requires IsDashed(tok) && !IsTerminator(tok) && Named(SplitEq(tok).0, FLAGS) == None
    ensures FailsWith(flags, tok, rest, e) <==> e == UnknownFlag(tok)
  {
    forall f ensures !Spells(tok, f) && tok != Name(f) && tok != Name(f) + "=" {
      SpelledIsNamed(tok, f);
    }
  }

  lemma {:induction false} ValueFails(flags: Flags, tok: string, rest: seq<string>, f: Flag, e: FlagError)
    requires IsDashed(tok) && !IsTerminator(tok) && Named(SplitEq(tok).0, FLAGS) == Some(f) && TakesValue(f)
    ensures FailsWith(flags, tok, rest, e) <==>
            || (e == MissingValue(f) && tok == Name(f) && rest == [])
            || (e == EmptyValue(f) && (tok == Name(f) + "=" || (tok == Name(f) && rest != [] && rest[0] == "")))
  {
    OnlyFlag(tok, f);
  }

  lemma {:induction false} SwitchOffends(tok: string, rest: seq<string>, f: Flag, e: FlagError)
    requires IsDashed(tok) && !IsTerminator(tok) && Named(SplitEq(tok).0, FLAGS) == Some(f) && !TakesValue(f)
    ensures Offends(tok, rest, e) <==> e == UnknownFlag(tok) && tok != Name(f) && tok != Name(f) + "="
  {
    OnlyFlag(tok, f);
  }

  lemma {:induction false} SwitchOpposed(flags: Flags, tok: string, f: Flag, e: FlagError)
    requires Named(SplitEq(tok).0, FLAGS) == Some(f) && !TakesValue(f)
    ensures (exists g :: IsOpposed(flags, tok, g, e)) <==>
            (tok == Name(f) || tok == Name(f) + "=") && SetSwitch(flags, f) == Err(e)
  {
    OnlyFlag(tok, f);
    assert IsOpposed(flags, tok, f, e) <==> (tok == Name(f) || tok == Name(f) + "=") && SetSwitch(flags, f) == Err(e);
  }

  lemma {:induction false} SwitchFails(flags: Flags, tok: string, rest: seq<string>, f: Flag, e: FlagError)
    requires IsDashed(tok) && !IsTerminator(tok) && Named(SplitEq(tok).0, FLAGS) == Some(f) && !TakesValue(f)
    ensures FailsWith(flags, tok, rest, e) <==>
            if tok == Name(f) || tok == Name(f) + "=" then SetSwitch(flags, f) == Err(e) else e == UnknownFlag(tok)
  {
    SwitchOffends(tok, rest, f, e);
    SwitchOpposed(flags, tok, f, e);
  }

  lemma {:induction false} ConsumeFails(flags: Flags, tok: string, rest: seq<string>, e: FlagError)
    requires IsDashed(tok) && !IsTerminator(tok)
    ensures Consume(flags, tok, rest) == Err(e) <==> FailsWith(flags, tok, rest, e)
  {
    match Named(SplitEq(tok).0, FLAGS)
    case None => UnknownFails(flags, tok, rest, e);
    case Some(f) =>
      OnlyFlag(tok, f);
      if TakesValue(f) {
        ValueFails(flags, tok, rest, f, e);
      } else {
        SwitchFails(flags, tok, rest, f, e);
      }
  }

  /** The items in front are fine, and the token behind them is not. */
  ghost predicate StopsAt(flags: Flags, xs: seq<Item>, more: seq<string>, e: FlagError)
  {
    || ApplyAll(flags, xs) == Err(e)
    || (ApplyAll(flags, xs).Ok? && more != [] && Offends(more[0], more[1..], e))
  }

  lemma {:induction false} StopIsRefused(flags: Flags, xs: seq<Item>, more: seq<string>, e: FlagError)
    requires (forall x | x in xs :: WellFormed(x)) && StopsAt(flags, xs, more, e)
    ensures Scan(flags, Argv(xs) + more) == Err(e)
  {
    ScanBehindItems(flags, xs, more);
    if ApplyAll(flags, xs).Ok? {
      ConsumeFails(ApplyAll(flags, xs).value, more[0], more[1..], e);
    }
  }
  /** Where a refused line stops. */
  lemma {:induction false} RefusedLineStops(flags: Flags, argv: seq<string>) returns (xs: seq<Item>, more: seq<string>)
    requires Scan(flags, argv).Err?
    ensures argv == Argv(xs) + more && forall x | x in xs :: WellFormed(x)
    ensures StopsAt(flags, xs, more, Scan(flags, argv).error)
    decreases |argv|
  {
    if !IsDashed(argv[0]) {
      xs, more := RefusedLineStops(flags, argv[1..]);
      xs := ItemAhead(flags, Positional(argv[0]), argv, 1, xs, more, Scan(flags, argv).error);
    } else {
      var next := Consume(flags, argv[0], argv[1..]);
      if next.Err? {
        xs, more := StopsHere(flags, argv, next.error);
      } else {
        var x := ConsumedItem(flags, argv);
        var n := if next.value.1 then 2 else 1;
        xs, more := RefusedLineStops(next.value.0, argv[n..]);
        xs := ItemAhead(flags, x, argv, n, xs, more, Scan(flags, argv).error);
      }
    }
  }

  lemma {:induction false} StopsHere(flags: Flags, argv: seq<string>, e: FlagError)
    returns (xs: seq<Item>, more: seq<string>)
    requires argv != [] && IsDashed(argv[0]) && !IsTerminator(argv[0]) && Consume(flags, argv[0], argv[1..]) == Err(e)
    ensures argv == Argv(xs) + more && (forall x | x in xs :: WellFormed(x)) && StopsAt(flags, xs, more, e)
  {
    ConsumeFails(flags, argv[0], argv[1..], e);
    if Offends(argv[0], argv[1..], e) {
      xs, more := [], argv;
    } else {
      var f :| IsOpposed(flags, argv[0], f, e);
      var x := Switch(f, argv[0] == Name(f) + "=");
      xs, more := [x], argv[1..];
      assert Tokens(x) == [argv[0]] && [x][1..] == [];
    }
  }

  lemma {:induction false} ItemAhead(flags: Flags, x: Item, argv: seq<string>, n: nat, xs: seq<Item>, more: seq<string>,
                                     e: FlagError) returns (ys: seq<Item>)
    requires n <= |argv| && argv[..n] == Tokens(x) && WellFormed(x) && Apply(flags, x).Ok?
    requires argv[n..] == Argv(xs) + more && (forall y | y in xs :: WellFormed(y))
    requires StopsAt(Apply(flags, x).value, xs, more, e)
    ensures argv == Argv(ys) + more && (forall y | y in ys :: WellFormed(y)) && StopsAt(flags, ys, more, e)
  {
    ys := [x] + xs;
    assert ys[0] == x && ys[1..] == xs;
    ArgvCons(ys, more);
    assert argv == argv[..n] + argv[n..];
  }

  ghost predicate StopsWithin(flags: Flags, argv: seq<string>, xs: seq<Item>, more: seq<string>, e: FlagError)
  {
    argv == Argv(xs) + more && (forall x | x in xs :: WellFormed(x)) && StopsAt(flags, xs, more, e)
  }

  /** A line is refused, and for this, exactly when it stops so behind well-formed items. */
  lemma {:induction false} RefusedIffStopped(argv: seq<string>, e: FlagError)
    ensures Scan(DEFAULT, argv) == Err(e) <==> exists xs, more :: StopsWithin(DEFAULT, argv, xs, more, e)
  {
    if Scan(DEFAULT, argv) == Err(e) {
      var xs, more := RefusedLineStops(DEFAULT, argv);
      assert StopsWithin(DEFAULT, argv, xs, more, e);
    }
    if xs, more :| StopsWithin(DEFAULT, argv, xs, more, e) {
      StopIsRefused(DEFAULT, xs, more, e);
    }
  }

  // ----- the environment -----

  function ContainerNamed(s: string): Option<ContainerSource>
  {
    if s == "local" then Some(Local) else if s == "remote" then Some(Remote) else None
  }

  predicate BadOutput(lookup: EnvVar -> Option<string>)
  {
    lookup(ZzOutput).Some? && lookup(ZzOutput).value !in {"text", "json"}
  }

  predicate BadContainer(lookup: EnvVar -> Option<string>)
  {
    lookup(ZzContainer).Some? && lookup(ZzContainer).value !in {"local", "remote"}
  }

  /** `merge_env`: only what no flag has set is looked up; `quiet` cannot come from the environment. */
  method MergeEnv(flags: Flags, explicitOutput: bool, explicitPassphrase: bool, explicitAlias: bool,
                  explicitContainer: bool, lookup: EnvVar -> Option<string>) returns (r: Result<Flags, FlagError>)
    ensures r.Ok? ==>
              && r.value.output == (if explicitOutput || lookup(ZzOutput).None? then flags.output
                                    else if lookup(ZzOutput).value == "json" then Json else Text)
              && r.value.passphraseFile ==
                 (if explicitPassphrase || lookup(ZzPassphraseFile).None? || lookup(ZzPassphraseFile).value == ""
                  then flags.passphraseFile else lookup(ZzPassphraseFile))
              && r.value.alias == (if explicitAlias || lookup(ZzAlias).None? || lookup(ZzAlias).value == ""
                                   then flags.alias else lookup(ZzAlias))
              && r.value.container == (if explicitContainer || lookup(ZzContainer).None? then flags.container
                                       else ContainerNamed(lookup(ZzContainer).value))
              && r.value.yes == flags.yes
    ensures r.Err? <==> (!explicitOutput && BadOutput(lookup)) || (!explicitContainer && BadContainer(lookup))
    ensures r.Err? ==>
              r.error == if !explicitOutput && BadOutput(lookup) then BadEnvValue(ZzOutput, lookup(ZzOutput).value)
                         else BadEnvValue(ZzContainer, lookup(ZzContainer).value)
  {
    var merged := flags;
    if !explicitOutput {
      var s := lookup(ZzOutput);
      if s.Some? {
        if s.value == "text" {
          merged := merged.(output := Text);
        } else if s.value == "json" {
          merged := merged.(output := Json);
        } else {
          return Err(BadEnvValue(ZzOutput, s.value));
        }
      }
    }
    if !explicitPassphrase {
      var s := lookup(ZzPassphraseFile);
      if s.Some? && s.value != "" {
        merged := merged.(passphraseFile := s);
      }
    }
    if !explicitAlias {
      var s := lookup(ZzAlias);
      if s.Some? && s.value != "" {
        merged := merged.(alias := s);
      }
    }
    if !explicitContainer {
      var s := lookup(ZzContainer);
      if s.Some? {
        var source := ContainerNamed(s.value);
        if source.None? {
          return Err(BadEnvValue(ZzContainer, s.value));
        }
        merged := merged.(container := source);
      }
    }
    return Ok(merged);
  }

  /** Each setting is what the flags say, else what the environment says, else its default. */
  predicate FlagsBeforeEnv(out: Flags, flags: Flags, lookup: EnvVar -> Option<string>)
  {
    && out.output == (if flags.output != Text then flags.output
                      else if lookup(ZzOutput) == Some("json") then Json else Text)
    && out.passphraseFile ==
       (if flags.passphraseFile.Some? then flags.passphraseFile
        else if lookup(ZzPassphraseFile) == Some("") then None else lookup(ZzPassphraseFile))
    && out.alias == (if flags.alias.Some? then flags.alias
                     else if lookup(ZzAlias) == Some("") then None else lookup(ZzAlias))
    && out.container == (if flags.container.Some? then flags.container
                         else if lookup(ZzContainer) == Some("local") then Some(Local)
                         else if lookup(ZzContainer) == Some("remote") then Some(Remote) else None)
    && out.yes == flags.yes
  }

  /**
   `parse_global`: the flags go before the environment, the environment before the defaults, and the residual is that of
   the pre-pass. Only a setting that no flag made can be refused for its variable: a container flag silences
   `ZZ_CONTAINER` altogether, although the error text speaks of a conflict with it.
   */
  method ParseGlobal(argv: seq<string>, lookup: EnvVar -> Option<string>)
    returns (r: Result<(Flags, seq<string>), FlagError>)
    ensures Scan(DEFAULT, argv).Err? ==> r == Err(Scan(DEFAULT, argv).error)
    ensures Scan(DEFAULT, argv).Ok? ==>
              var (flags, residual) := Scan(DEFAULT, argv).value;
              var badOutput := flags.output == Text && BadOutput(lookup);
              var badContainer := flags.container == None && BadContainer(lookup);
              if badOutput then r == Err(BadEnvValue(ZzOutput, lookup(ZzOutput).value))
              else if badContainer then r == Err(BadEnvValue(ZzContainer, lookup(ZzContainer).value))
              else r.Ok? && r.value.1 == residual && FlagsBeforeEnv(r.value.0, flags, lookup)
  {
    var scanned := ExtractFlags(argv);
    if scanned.Err? {
      return Err(scanned.error);
    }
    var (flags, residual) := scanned.value;
    var merged := MergeEnv(flags, !flags.output.Text?, flags.passphraseFile.Some?, flags.alias.Some?,
                           flags.container.Some?, lookup);
    if merged.Err? {
      return Err(merged.error);
    }
    return Ok((merged.value, residual));
  }
}
