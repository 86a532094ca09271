/** The command grammar: from the residual arguments to a command (src/cli/parser.rs, src/cli/mod.rs). */
module Grammar {
  import opened Basics
  import opened Text
  import GlobalFlags

  datatype RemoteSelector = Email(address: string) | Alias(name: string)

  datatype Command =
    | Upload(files: seq<string>, compress: bool, destRemote: Option<string>)
    | SaveAll(compress: bool, dir: string, destRemote: Option<string>)
    | SaveAllRecursive(compress: bool, dir: string, destRemote: Option<string>)
    | Download(names: seq<string>, decompress: bool, destLocal: Option<string>)
    | DownloadAll(decompress: bool, destLocal: Option<string>, srcRemote: Option<string>)
    | DownloadAllRecursive(decompress: bool, destLocal: Option<string>, srcRemote: Option<string>)
    | ContainerUnlock(which: Option<GlobalFlags.ContainerSource>)
    | RemoteUnlock(selector: RemoteSelector)
    | Lock
    | Wipe
    | OpenTui
    | Doctor

  datatype ParseError =
    | NoArgs
    | MissingArgument(command: string)
    | UnexpectedArgument(command: string)
    | UnknownModifier(command: string, modifier: char)
    | EncryptNotInV1(command: string)
    | DuplicateModifier(command: string, modifier: char)

  // ----- modifiers -----

  datatype Modifiers = Modifiers(a: bool, r: bool, x: bool)

  predicate IsModifier(c: char) { c == 'a' || c == 'r' || c == 'x' }

  function AddModifier(command: string, m: Modifiers, c: char): Result<Modifiers, ParseError>
  {
    if c == 'e' then Err(EncryptNotInV1(command))
    else if c == 'a' && !m.a then Ok(m.(a := true))
    else if c == 'r' && !m.r then Ok(m.(r := true))
    else if c == 'x' && !m.x then Ok(m.(x := true))
    else if IsModifier(c) then Err(DuplicateModifier(command, c))
    else Err(UnknownModifier(command, c))
  }

  function ModifiersOf(command: string, tail: string): Result<Modifiers, ParseError>
  {
    if tail == "" then Ok(Modifiers(false, false, false))
    else
      match ModifiersOf(command, tail[..|tail| - 1])
      case Err(e) => Err(e)
      case Ok(m) => AddModifier(command, m, tail[|tail| - 1])
  }

  /** `parse_modifiers`. */
  method ParseModifiers(verb: char, tail: string) returns (r: Result<Modifiers, ParseError>)
    ensures r == ModifiersOf([verb] + tail, tail)
  {
    var m := Modifiers(false, false, false);
    for i := 0 to |tail|
      invariant ModifiersOf([verb] + tail, tail[..i]) == Ok(m)
    {
      assert tail[..i + 1][..i] == tail[..i];
      var next := AddModifier([verb] + tail, m, tail[i]);
      if next.Err? {
        FirstFailureStays([verb] + tail, tail, i + 1);
        return Err(next.error);
      }
      m := next.value;
    }
    assert tail[..|tail|] == tail;
    return Ok(m);
  }

  lemma {:induction false} FirstFailureStays(command: string, tail: string, n: nat)
    requires n <= |tail| && ModifiersOf(command, tail[..n]).Err?
    ensures ModifiersOf(command, tail) == ModifiersOf(command, tail[..n])
    decreases |tail|
  {
    if n < |tail| {
      var most := tail[..|tail| - 1];
      assert most[..n] == tail[..n];
      FirstFailureStays(command, most, n);
    } else {
      assert tail[..n] == tail;
    }
  }

  /** A set of letters out of `a`, `r`, `x`, each written once. */
  ghost predicate IsModifierSet(tail: string)
  {
    forall c | c in tail :: IsModifier(c) && multiset(tail)[c] == 1
  }

  predicate IsFor(m: Modifiers, tail: string) { m == Modifiers('a' in tail, 'r' in tail, 'x' in tail) }

  /** What is wrong with the `k`-th letter of a suffix, the letters before it being fine. */
  function ErrorAt(command: string, tail: string, k: nat): ParseError
    requires k < |tail|
  {
    if tail[k] == 'e' then EncryptNotInV1(command)
    else if IsModifier(tail[k]) then DuplicateModifier(command, tail[k])
    else UnknownModifier(command, tail[k])
  }

  ghost predicate FirstWrongAt(tail: string, k: nat)
  {
    && k < |tail| && IsModifierSet(tail[..k])
    && (IsModifier(tail[k]) ==> tail[k] in tail[..k])
  }

  /** A suffix is accepted exactly when it is a set; the error is about the first letter that breaks it. */
  lemma {:induction false} ModifiersAreASet(command: string, tail: string)
    ensures ModifiersOf(command, tail).Ok? <==> IsModifierSet(tail)
    ensures ModifiersOf(command, tail).Ok? ==> IsFor(ModifiersOf(command, tail).value, tail)
    ensures ModifiersOf(command, tail).Err? ==>
              exists k: nat | FirstWrongAt(tail, k) :: ModifiersOf(command, tail).error == ErrorAt(command, tail, k)
    decreases |tail|
  {
    if tail != "" {
      var n := |tail| - 1;
      var most, c := tail[..n], tail[n];
      assert tail == most + [c];
      ModifiersAreASet(command, most);
      if ModifiersOf(command, most).Err? {
        var k: nat :| FirstWrongAt(most, k) && ModifiersOf(command, most).error == ErrorAt(command, most, k);
        assert most[..k] == tail[..k];
        assert FirstWrongAt(tail, k);
        BrokenStaysBroken(most, c);
      } else {
        OneMoreLetter(most, c);
        assert (IsModifier(c) && c !in most) || FirstWrongAt(tail, n);
      }
    }
  }

  lemma OneMoreLetter(most: string, c: char)
    requires IsModifierSet(most)
    ensures IsModifierSet(most + [c]) <==> IsModifier(c) && c !in most
  {
    var tail := most + [c];
    assert c in tail && (c in most <==> multiset(most)[c] > 0);
    assert forall d | d in tail :: d == c || d in most;
    assert forall d | d in most :: d in tail;
    assert forall d :: multiset(tail)[d] == multiset(most)[d] + if d == c then 1 else 0;
  }

  lemma BrokenStaysBroken(most: string, c: char)
    requires !IsModifierSet(most)
    ensures !IsModifierSet(most + [c])
  {
    var d :| d in most && !(IsModifier(d) && multiset(most)[d] == 1);
    assert d in most + [c];
    assert multiset(most + [c])[d] >= multiset(most)[d] >= 1;
  }

  // ----- reserved tokens -----

  const ATOM_RESERVED: seq<string> := ["q", "w", "kalvasflam", "z", "c", "f"]

  predicate IsAtom(token: string) { token in ATOM_RESERVED }

  /** `s` or `d` and any letters out of `a`, `r`, `x`, `e`. */
  predicate IsComposite(token: string)
  {
    token != "" && (token[0] == 's' || token[0] == 'd') && forall c | c in token[1..] :: IsModifier(c) || c == 'e'
  }

  predicate IsReserved(token: string) { IsAtom(token) || IsComposite(token) }

  lemma AtomsAreNotComposite(token: string)
    requires IsAtom(token)
    ensures token != "" && token[0] != 's' && token[0] != 'd'
  {
  }

  // ----- positionals -----

  function StripTrailingSlash(s: string): string { if EndsWithChar(s, '/') then s[..|s| - 1] else s }

  function NormaliseLocal(s: string): string { StripTrailingSlash(s) }

  function NormaliseRemotePrefix(s: string): string { Trim(s, '/') }

  /** `split_trailing_dir_dest`: a last argument ending in `/` is the destination of the others. */
  function SplitTrailingDirDest(command: string, tail: seq<string>): Result<(seq<string>, Option<string>), ParseError>
  {
    if tail == [] then Err(MissingArgument(command))
    else
      var last := tail[|tail| - 1];
      if !EndsWithChar(last, '/') then Ok((tail, None))
      else if |tail| == 1 then Err(MissingArgument(command))
      else Ok((tail[..|tail| - 1], Some(StripTrailingSlash(last))))
  }

  /** `require_local_then_optional_remote`. */
  function LocalThenRemote(command: string, tail: seq<string>): Result<(string, Option<string>), ParseError>
  {
    if |tail| == 0 then Err(MissingArgument(command))
    else if |tail| == 1 then Ok((NormaliseLocal(tail[0]), None))
    else if |tail| == 2 then Ok((NormaliseLocal(tail[0]), Some(NormaliseRemotePrefix(tail[1]))))
    else Err(UnexpectedArgument(command))
  }

  /** `parse_optional_local_remote`. */
  function OptionalLocalRemote(command: string, tail: seq<string>)
    : Result<(Option<string>, Option<string>), ParseError>
  {
    if |tail| == 0 then Ok((None, None))
    else if |tail| == 1 then Ok((Some(NormaliseLocal(tail[0])), None))
    else if |tail| == 2 then Ok((Some(NormaliseLocal(tail[0])), Some(NormaliseRemotePrefix(tail[1]))))
    else Err(UnexpectedArgument(command))
  }

  // ----- commands -----

  function SaveCommand(head: string, m: Modifiers, tail: seq<string>): Result<Command, ParseError>
  {
    if m.a then
      match LocalThenRemote(if m.r then "sar" else "sa", tail)
      case Err(e) => Err(e)
      case Ok((dir, dest)) => Ok(if m.r then SaveAllRecursive(m.x, dir, dest) else SaveAll(m.x, dir, dest))
    else if m.r then Err(UnknownModifier(head, 'r'))
    else if tail == [] then Err(MissingArgument("s"))
    else
      match SplitTrailingDirDest("s", tail)
      case Err(e) => Err(e)
      case Ok((sources, dest)) => Ok(Upload(sources, m.x, dest))
  }

  function DownloadCommand(head: string, m: Modifiers, tail: seq<string>): Result<Command, ParseError>
  {
    if m.a then
      match OptionalLocalRemote(if m.r then "dar" else "da", tail)
      case Err(e) => Err(e)
      case Ok((dest, src)) => Ok(if m.r then DownloadAllRecursive(m.x, dest, src) else DownloadAll(m.x, dest, src))
    else if m.r then Err(UnknownModifier(head, 'r'))
    else if tail == [] then Err(MissingArgument("d"))
    else
      match SplitTrailingDirDest("d", tail)
      case Err(e) => Err(e)
      case Ok((names, dest)) => Ok(Download(names, m.x, dest))
  }

  function Alone(token: string, tail: seq<string>, c: Command): Result<Command, ParseError>
  {
    if tail == [] then Ok(c) else Err(UnexpectedArgument(token))
  }

  /** `zz z [local|remote|<email>|<alias>]`. */
  function UnlockCommand(tail: seq<string>): Result<Command, ParseError>
  {
    if |tail| == 0 then Ok(ContainerUnlock(None))
    else if |tail| > 1 then Err(UnexpectedArgument("z"))
    else
      match GlobalFlags.ContainerNamed(tail[0])
      case Some(source) => Ok(ContainerUnlock(Some(source)))
      case None =>
        if '@' in tail[0] then Ok(RemoteUnlock(Email(tail[0])))
        else if tail[0] != "" then Ok(RemoteUnlock(Alias(tail[0])))
        else Err(UnexpectedArgument("z"))
  }

  /** The last dispatch: every reserved token that is not composite has its arm. */
  function AtomCommand(head: string, tail: seq<string>): Result<Command, ParseError>
    requires IsAtom(head)
  {
    if head == "q" then Alone("q", tail, Lock)
    else if head == "w" then Alone("w", tail, Wipe)
    else if head == "kalvasflam" then Alone("kalvasflam", tail, Wipe)
    else if head == "z" then UnlockCommand(tail)
    else if head == "c" then Alone("c", tail, OpenTui)
    else if head == "f" then Alone("f", tail, Doctor)
    else assert false; Err(NoArgs)
  }

  /** `parse_args`. */
  function Parse(args: seq<string>): Result<Command, ParseError>
  {
    if args == [] then Err(NoArgs)
    else
      var head, tail := args[0], args[1..];
      if !IsReserved(head) then Ok(Upload(args, false, None))
      else if head != "" && head[0] == 's' then
        match ModifiersOf(head, head[1..])
        case Err(e) => Err(e)
        case Ok(m) => SaveCommand(head, m, tail)
      else if head != "" && head[0] == 'd' then
        match ModifiersOf(head, head[1..])
        case Err(e) => Err(e)
        case Ok(m) => DownloadCommand(head, m, tail)
      else AtomCommand(head, tail)
  }

  // ----- modifier order -----

  lemma SameLettersSameSet(t: string, u: string)
    requires multiset(t) == multiset(u)
    ensures forall c :: c in t <==> c in u
    ensures IsModifierSet(t) <==> IsModifierSet(u)
  {
    forall c ensures c in t <==> c in u {
      assert c in t <==> c in multiset(t);
      assert c in u <==> c in multiset(u);
    }
  }

  lemma HeadAndSuffix(verb: char, suffix: string, args: seq<string>)
    requires verb == 's' || verb == 'd'
    ensures ([[verb] + suffix] + args)[0] == [verb] + suffix && ([[verb] + suffix] + args)[1..] == args
    ensures ([verb] + suffix)[0] == verb && ([verb] + suffix)[1..] == suffix
    ensures !IsAtom([verb] + suffix)
  {
    if IsAtom([verb] + suffix) {
      AtomsAreNotComposite([verb] + suffix);
    }
  }

  /** The order of the letters behind `s` or `d` does not matter, whatever the letters. */
  lemma {:induction false} ModifierOrderIsIrrelevant(verb: char, t: string, u: string, args: seq<string>)
    requires verb == 's' || verb == 'd'
    requires multiset(t) == multiset(u)
    ensures Parse([[verb] + t] + args).Ok? <==> Parse([[verb] + u] + args).Ok?
    ensures IsComposite([verb] + t) && Parse([[verb] + t] + args).Ok? ==>
              Parse([[verb] + t] + args) == Parse([[verb] + u] + args)
  {
    SameLettersSameSet(t, u);
    HeadAndSuffix(verb, t, args);
    HeadAndSuffix(verb, u, args);
    assert IsComposite([verb] + t) <==> IsComposite([verb] + u);
    ModifiersAreASet([verb] + t, t);
    ModifiersAreASet([verb] + u, u);
  }

  // ----- the range of the grammar -----

  predicate BareEnds(s: string) { !StartsWithChar(s, '/') && !EndsWithChar(s, '/') }

  /** Exactly the commands that can be typed. */
  predicate Typable(c: Command)
  {
    match c
    case Upload(files, compress, dest) =>
      && files != []
      && (dest.None? ==> !EndsWithChar(files[|files| - 1], '/') || (!compress && !IsReserved(files[0])))
    case SaveAll(_, _, dest) => dest.Some? ==> BareEnds(dest.value)
    case SaveAllRecursive(_, _, dest) => dest.Some? ==> BareEnds(dest.value)
    case Download(names, _, dest) => names != [] && (dest.None? ==> !EndsWithChar(names[|names| - 1], '/'))
    case DownloadAll(_, dest, src) => src.Some? ==> dest.Some? && BareEnds(src.value)
    case DownloadAllRecursive(_, dest, src) => src.Some? ==> dest.Some? && BareEnds(src.value)
    case ContainerUnlock(_) => true
    case RemoteUnlock(Email(address)) => '@' in address
    case RemoteUnlock(Alias(name)) => name != "" && '@' !in name && GlobalFlags.ContainerNamed(name).None?
    case Lock => true
    case Wipe => true
    case OpenTui => true
    case Doctor => true
  }

  function Suffix(a: bool, r: bool, x: bool): string
  {
    (if a then "a" else "") + (if r then "r" else "") + (if x then "x" else "")
  }

  function Slashed(dest: Option<string>): seq<string> { if dest.Some? then [dest.value + "/"] else [] }

  function Plain(prefix: Option<string>): seq<string> { if prefix.Some? then [prefix.value] else [] }

  /** One command line for each command. */
  function Unparse(c: Command): seq<string>
  {
    match c
    case Upload(files, compress, dest) =>
      if dest.None? && (files == [] || EndsWithChar(files[|files| - 1], '/')) then files
      else [['s'] + Suffix(false, false, compress)] + (files + Slashed(dest))
    case SaveAll(compress, dir, dest) => [['s'] + Suffix(true, false, compress)] + ([dir + "/"] + Plain(dest))
    case SaveAllRecursive(compress, dir, dest) => [['s'] + Suffix(true, true, compress)] + ([dir + "/"] + Plain(dest))
    case Download(names, decompress, dest) => [['d'] + Suffix(false, false, decompress)] + (names + Slashed(dest))
    case DownloadAll(decompress, dest, src) => [['d'] + Suffix(true, false, decompress)] + (Slashed(dest) + Plain(src))
    case DownloadAllRecursive(decompress, dest, src) =>
      [['d'] + Suffix(true, true, decompress)] + (Slashed(dest) + Plain(src))
    case ContainerUnlock(None) => ["z"]
    case ContainerUnlock(Some(source)) => ["z", if source.Local? then "local" else "remote"]
    case RemoteUnlock(Email(address)) => ["z", address]
    case RemoteUnlock(Alias(name)) => ["z", name]
    case Lock => ["q"]
    case Wipe => ["w"]
    case OpenTui => ["c"]
    case Doctor => ["f"]
  }

  lemma {:induction false} SuffixIsAccepted(command: string, a: bool, r: bool, x: bool)
    ensures ModifiersOf(command, Suffix(a, r, x)) == Ok(Modifiers(a, r, x))
    ensures forall c | c in Suffix(a, r, x) :: IsModifier(c)
  {
    var none := Modifiers(false, false, false);
    OneModifier(command, "", none, 'a', a);
    OneModifier(command, if a then "a" else "", none.(a := a), 'r', r);
    OneModifier(command, (if a then "a" else "") + (if r then "r" else ""), none.(a := a, r := r), 'x', x);
    assert "" + (if a then "a" else "") == if a then "a" else "";
  }

  lemma OneModifier(command: string, before: string, m: Modifiers, c: char, present: bool)
    requires ModifiersOf(command, before) == Ok(m)
    ensures ModifiersOf(command, before + if present then [c] else "") ==
            if present then AddModifier(command, m, c) else Ok(m)
  {
    if present {
      assert (before + [c])[..|before|] == before;
    } else {
      assert before + "" == before;
    }
  }

  lemma CompositeParse(verb: char, a: bool, r: bool, x: bool, tail: seq<string>)
    requires verb == 's' || verb == 'd'
    ensures var head := [verb] + Suffix(a, r, x);
            Parse([head] + tail) == if verb == 's' then SaveCommand(head, Modifiers(a, r, x), tail)
                                    else DownloadCommand(head, Modifiers(a, r, x), tail)
  {
    var head := [verb] + Suffix(a, r, x);
    HeadAndSuffix(verb, Suffix(a, r, x), tail);
    SuffixIsAccepted(head, a, r, x);
  }

  lemma SlashStrips(s: string)
    ensures EndsWithChar(s + "/", '/') && StripTrailingSlash(s + "/") == s
  {
  }

  lemma SourcesAndDest(command: string, sources: seq<string>, dest: Option<string>)
    requires sources != [] && (dest.None? ==> !EndsWithChar(sources[|sources| - 1], '/'))
    ensures SplitTrailingDirDest(command, sources + Slashed(dest)) == Ok((sources, dest))
  {
    if dest.Some? {
      SlashStrips(dest.value);
      assert (sources + Slashed(dest))[..|sources|] == sources;
    } else {
      assert sources + Slashed(dest) == sources;
    }
  }

  lemma LocalAndRemote(command: string, dir: string, prefix: Option<string>)
    requires prefix.Some? ==> BareEnds(prefix.value)
    ensures LocalThenRemote(command, [dir + "/"] + Plain(prefix)) == Ok((dir, prefix))
  {
    SlashStrips(dir);
    if prefix.Some? {
      TrimmedEnds(prefix.value, '/');
    }
  }

  lemma OptionalLocalAndRemote(command: string, dest: Option<string>, prefix: Option<string>)
    requires prefix.Some? ==> dest.Some? && BareEnds(prefix.value)
    ensures OptionalLocalRemote(command, Slashed(dest) + Plain(prefix)) == Ok((dest, prefix))
  {
    if dest.Some? {
      SlashStrips(dest.value);
    }
    if prefix.Some? {
      TrimmedEnds(prefix.value, '/');
    }
  }

  lemma {:induction false} ParseUnparse(c: Command)
    requires Typable(c)
    ensures Parse(Unparse(c)) == Ok(c)
  {
    match c
    case Upload(files, compress, dest) =>
      if !(dest.None? && EndsWithChar(files[|files| - 1], '/')) {
        CompositeParse('s', false, false, compress, files + Slashed(dest));
        SourcesAndDest("s", files, dest);
      }
    case SaveAll(compress, dir, dest) =>
      CompositeParse('s', true, false, compress, [dir + "/"] + Plain(dest));
      LocalAndRemote("sa", dir, dest);
    case SaveAllRecursive(compress, dir, dest) =>
      CompositeParse('s', true, true, compress, [dir + "/"] + Plain(dest));
      LocalAndRemote("sar", dir, dest);
    case Download(names, decompress, dest) =>
      CompositeParse('d', false, false, decompress, names + Slashed(dest));
      SourcesAndDest("d", names, dest);
    case DownloadAll(decompress, dest, src) =>
      CompositeParse('d', true, false, decompress, Slashed(dest) + Plain(src));
      OptionalLocalAndRemote("da", dest, src);
    case DownloadAllRecursive(decompress, dest, src) =>
      CompositeParse('d', true, true, decompress, Slashed(dest) + Plain(src));
      OptionalLocalAndRemote("dar", dest, src);
    case _ => ParseUnparseAtom(c);
  }

  lemma {:induction false} ParseUnparseAtom(c: Command)
    requires Typable(c)
    requires c.ContainerUnlock? || c.RemoteUnlock? || c.Lock? || c.Wipe? || c.OpenTui? || c.Doctor?
    ensures Parse(Unparse(c)) == Ok(c)
  {
    match c
    case ContainerUnlock(which) => AtomLine("z", if which.None? then [] else [Unparse(c)[1]]);
    case RemoteUnlock(Email(address)) =>
      AtomLine("z", [address]);
      assert address != "local" && address != "remote";
    case RemoteUnlock(Alias(name)) => AtomLine("z", [name]);
    case Lock => AtomLine("q", []);
    case Wipe => AtomLine("w", []);
    case OpenTui => AtomLine("c", []);
    case Doctor => AtomLine("f", []);
  }

  lemma AtomLine(token: string, tail: seq<string>)
    requires IsAtom(token)
    ensures Parse([token] + tail) == AtomCommand(token, tail)
  {
    AtomsAreNotComposite(token);
    assert ([token] + tail)[1..] == tail;
  }

  lemma {:induction false} ParsedIsTypable(args: seq<string>)
    requires Parse(args).Ok?
    ensures Typable(Parse(args).value)
  {
    var head, tail := args[0], args[1..];
    if IsReserved(head) {
      if head[0] == 's' || head[0] == 'd' {
        PrefixHasBareEnds(tail);
        SourcesAreThere("s", tail);
        SourcesAreThere("d", tail);
      }
    }
  }

  lemma SourcesAreThere(command: string, tail: seq<string>)
    ensures var r := SplitTrailingDirDest(command, tail);
            r.Ok? ==> r.value.0 != [] && (r.value.1.None? ==> !EndsWithChar(r.value.0[|r.value.0| - 1], '/'))
  {
  }

  lemma PrefixHasBareEnds(tail: seq<string>)
    ensures |tail| == 2 ==> BareEnds(NormaliseRemotePrefix(tail[1]))
  {
    if |tail| == 2 {
      TrimmedEnds(tail[1], '/');
    }
  }

  /**
   The range of the grammar: the typable commands and no others can be returned, and each has an argument list that
   gives it back.
   */
  lemma {:induction false} RangeOfGrammar(c: Command)
    ensures (exists args :: Parse(args) == Ok(c)) <==> Typable(c)
    ensures Typable(c) ==> Parse(Unparse(c)) == Ok(c)
  {
    if Typable(c) {
      ParseUnparse(c);
    }
    forall args | Parse(args) == Ok(c) ensures Typable(c) {
      ParsedIsTypable(args);
    }
  }
}
