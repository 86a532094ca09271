/**
 What each command line says (src/cli/parser.rs): the lines that spell a command, in terms of their tokens, and that the
 parser reads exactly those as that command.
 */
module CommandLines {
  import opened Basics
  import opened Text
  import opened Grammar

  /** A token that stands for something else than a file in the first position. */
  predicate Reserved(t: string)
  {
    || t in {"q", "w", "kalvasflam", "z", "c", "f"}
    || (t != "" && t[0] in {'s', 'd'} && forall i | 1 <= i < |t| :: t[i] in {'a', 'r', 'x', 'e'})
  }

  function Letters(m: Modifiers): multiset<char>
  {
    (if m.a then multiset{'a'} else multiset{}) + (if m.r then multiset{'r'} else multiset{}) +
    (if m.x then multiset{'x'} else multiset{})
  }

  /** A line whose first token is the verb with each of the letters once, in any order. */
  predicate VerbLine(args: seq<string>, verb: char, m: Modifiers)
  {
    args != [] && args[0] != "" && args[0][0] == verb && multiset(args[0][1..]) == Letters(m)
  }

  /** Files and, with a slash at its end, a destination behind them; the last of files alone has no slash at its end. */
  predicate Sources(tail: seq<string>, files: seq<string>, dest: Option<string>)
  {
    && files != []
    && match dest
       case Some(dir) => tail == files + [dir + "/"]
       case None => tail == files && !EndsWithChar(files[|files| - 1], '/')
  }

  /** A directory with or without a slash at its end. */
  predicate Names(arg: string, dir: string)
  {
    arg == dir + "/" || (arg == dir && !EndsWithChar(dir, '/'))
  }

  predicate AllSlashes(s: string) { forall c | c in s :: c == '/' }

  /** A remote prefix, which has no slash at either end, among any number of slashes. */
  ghost predicate Framed(arg: string, prefix: string)
  {
    && !StartsWithChar(prefix, '/') && !EndsWithChar(prefix, '/')
    && exists left, right :: AllSlashes(left) && AllSlashes(right) && arg == left + prefix + right
  }

  ghost predicate MaybePrefix(tail: seq<string>, prefix: Option<string>)
  {
    match prefix
    case Some(p) => |tail| == 1 && Framed(tail[0], p)
    case None => tail == []
  }

  ghost predicate Saves(args: seq<string>, m: Modifiers, dir: string, dest: Option<string>)
  {
    VerbLine(args, 's', m) && |args| >= 2 && Names(args[1], dir) && MaybePrefix(args[2..], dest)
  }

  ghost predicate Fetches(args: seq<string>, m: Modifiers, dest: Option<string>, src: Option<string>)
  {
    && VerbLine(args, 'd', m)
    && match dest
       case Some(dir) => |args| >= 2 && Names(args[1], dir) && MaybePrefix(args[2..], src)
       case None => |args| == 1 && src == None
  }

  /** The line spells the command. */
  ghost predicate Spells(args: seq<string>, c: Command)
  {
    match c
    case Upload(files, compress, dest) =>
      || (args == files && files != [] && !Reserved(files[0]) && !compress && dest == None)
      || (VerbLine(args, 's', Modifiers(false, false, compress)) && Sources(args[1..], files, dest))
    case SaveAll(compress, dir, dest) => Saves(args, Modifiers(true, false, compress), dir, dest)
    case SaveAllRecursive(compress, dir, dest) => Saves(args, Modifiers(true, true, compress), dir, dest)
    case Download(names, decompress, dest) =>
      VerbLine(args, 'd', Modifiers(false, false, decompress)) && Sources(args[1..], names, dest)
    case DownloadAll(decompress, dest, src) => Fetches(args, Modifiers(true, false, decompress), dest, src)
    case DownloadAllRecursive(decompress, dest, src) => Fetches(args, Modifiers(true, true, decompress), dest, src)
    case ContainerUnlock(None) => args == ["z"]
    case ContainerUnlock(Some(source)) => args == ["z", if source.Local? then "local" else "remote"]
    case RemoteUnlock(Email(address)) => args == ["z", address] && '@' in address
    case RemoteUnlock(Alias(name)) => args == ["z", name] && '@' !in name && name !in {"", "local", "remote"}
    case Lock => args == ["q"]
    case Wipe => args == ["w"] || args == ["kalvasflam"]
    case OpenTui => args == ["c"]
    case Doctor => args == ["f"]
  }

  // ----- first tokens -----

  lemma CompositeAgrees(t: string)
    requires t != ""
    ensures IsComposite(t) <==> t[0] in {'s', 'd'} && forall i | 1 <= i < |t| :: t[i] in {'a', 'r', 'x', 'e'}
  {
    var tail := t[1..];
    assert forall i | 1 <= i < |t| :: t[i] == tail[i - 1] && tail[i - 1] in tail;
    if forall i | 1 <= i < |t| :: t[i] in {'a', 'r', 'x', 'e'} {
      forall c | c in tail ensures IsModifier(c) || c == 'e' {
        var k :| 0 <= k < |tail| && tail[k] == c;
        assert t[k + 1] == c;
      }
    }
  }

  lemma ReservedAgrees(t: string)
    ensures Reserved(t) <==> IsReserved(t)
  {
    if t != "" {
      CompositeAgrees(t);
    }
  }

  /** The letters of a suffix, and which of them it has. */
  lemma LettersAgree(tail: string, m: Modifiers)
    ensures multiset(tail) == Letters(m) <==> IsModifierSet(tail) && IsFor(m, tail)
  {
    assert forall c :: c in tail <==> multiset(tail)[c] > 0;
    if IsModifierSet(tail) && IsFor(m, tail) {
      assert forall c :: multiset(tail)[c] == Letters(m)[c];
    }
  }

  lemma {:induction false} VerbRead(args: seq<string>, verb: char, m: Modifiers)
    requires verb == 's' || verb == 'd'
    requires args != [] && args[0] != "" && args[0][0] == verb
    ensures VerbLine(args, verb, m) <==> ModifiersOf(args[0], args[0][1..]) == Ok(m)
    ensures VerbLine(args, verb, m) ==> IsComposite(args[0])
  {
    ModifiersAreASet(args[0], args[0][1..]);
    LettersAgree(args[0][1..], m);
  }

  // ----- arguments -----

  lemma SourcesRead(command: string, tail: seq<string>, files: seq<string>, dest: Option<string>)
    ensures SplitTrailingDirDest(command, tail) == Ok((files, dest)) <==> Sources(tail, files, dest)
  {
    if Sources(tail, files, dest) {
      SourcesAndDest(command, files, dest);
      assert tail == files + Slashed(dest);
    }
    if SplitTrailingDirDest(command, tail) == Ok((files, dest)) && dest.Some? {
      var last := tail[|tail| - 1];
      assert last == dest.value + "/";
      assert tail == files + [last];
    }
  }

  lemma NamesRead(arg: string, dir: string)
    ensures NormaliseLocal(arg) == dir <==> Names(arg, dir)
  {
    if EndsWithChar(arg, '/') {
      assert arg == arg[..|arg| - 1] + "/";
    }
    SlashStrips(dir);
  }

  lemma {:induction false} LeftTrimmed(s: string) returns (left: string)
    ensures AllSlashes(left) && s == left + TrimStart(s, '/')
  {
    if StartsWithChar(s, '/') {
      var rest := LeftTrimmed(s[1..]);
      left := "/" + rest;
      assert s == "/" + s[1..];
    } else {
      left := "";
    }
  }

  lemma {:induction false} RightTrimmed(s: string) returns (right: string)
    ensures AllSlashes(right) && s == TrimEnd(s, '/') + right
    decreases |s|
  {
    if EndsWithChar(s, '/') {
      var n := |s| - 1;
      var rest := RightTrimmed(s[..n]);
      right := rest + "/";
      assert s == s[..n] + "/";
    } else {
      right := "";
    }
  }

  lemma {:induction false} LeftSlashesGo(left: string, s: string)
    requires AllSlashes(left)
    ensures TrimStart(left + s, '/') == TrimStart(s, '/')
  {
    if left == "" {
      assert left + s == s;
    } else {
      assert left[0] in left && (left + s)[1..] == left[1..] + s && forall c | c in left[1..] :: c in left;
      LeftSlashesGo(left[1..], s);
    }
  }

  lemma {:induction false} RightSlashesGo(s: string, right: string)
    requires AllSlashes(right)
    ensures TrimEnd(s + right, '/') == TrimEnd(s, '/')
    decreases |right|
  {
    if right == "" {
      assert s + right == s;
    } else {
      var n := |right| - 1;
      assert right[n] in right && (s + right)[..|s| + n] == s + right[..n] && forall c | c in right[..n] :: c in right;
      RightSlashesGo(s, right[..n]);
    }
  }

  lemma {:induction false} SlashesTrimToNothing(s: string)
    requires AllSlashes(s)
    ensures TrimStart(s, '/') == ""
  {
    LeftSlashesGo(s, "");
    assert s + "" == s;
  }

  lemma {:induction false} FramedRead(arg: string, prefix: string)
    ensures NormaliseRemotePrefix(arg) == prefix <==> Framed(arg, prefix)
  {
    TrimmedEnds(arg, '/');
    if NormaliseRemotePrefix(arg) == prefix {
      var left := LeftTrimmed(arg);
      var right := RightTrimmed(TrimStart(arg, '/'));
      assert arg == left + prefix + right;
    }
    if Framed(arg, prefix) {
      var left, right :| AllSlashes(left) && AllSlashes(right) && arg == left + prefix + right;
      assert arg == left + (prefix + right);
      LeftSlashesGo(left, prefix + right);
      if prefix == "" {
        assert prefix + right == right;
        SlashesTrimToNothing(right);
      } else {
        assert (prefix + right)[0] == prefix[0];
        RightSlashesGo(prefix, right);
      }
    }
  }

  lemma {:induction false} PrefixRead(tail: seq<string>, prefix: Option<string>)
    requires |tail| <= 1
    ensures (if tail == [] then None else Some(NormaliseRemotePrefix(tail[0]))) == prefix <==> MaybePrefix(tail, prefix)
  {
    if |tail| == 1 && prefix.Some? {
      FramedRead(tail[0], prefix.value);
    }
  }

  lemma {:induction false} DirAndPrefixRead(command: string, tail: seq<string>, dir: string, prefix: Option<string>)
    ensures LocalThenRemote(command, tail) == Ok((dir, prefix)) <==>
            |tail| >= 1 && Names(tail[0], dir) && MaybePrefix(tail[1..], prefix)
    ensures |tail| >= 1 ==>
              (OptionalLocalRemote(command, tail) == Ok((Some(dir), prefix)) <==>
                 Names(tail[0], dir) && MaybePrefix(tail[1..], prefix))
  {
    if tail != [] {
      NamesRead(tail[0], dir);
    }
    if 1 <= |tail| <= 2 {
      PrefixRead(tail[1..], prefix);
    }
  }

  // ----- the parser reads exactly the spellings -----

  lemma {:induction false} SourcesLineRead(args: seq<string>, verb: char, m: Modifiers, files: seq<string>,
                                           dest: Option<string>)
    requires (verb == 's' || verb == 'd') && VerbLine(args, verb, m)
    ensures verb == 's' ==>
              forall x :: SaveCommand(args[0], m, args[1..]) == Ok(Upload(files, x, dest)) <==>
                          m == Modifiers(false, false, x) && Sources(args[1..], files, dest)
    ensures verb == 'd' ==>
              forall x :: DownloadCommand(args[0], m, args[1..]) == Ok(Download(files, x, dest)) <==>
                          m == Modifiers(false, false, x) && Sources(args[1..], files, dest)
  {
    SourcesRead("s", args[1..], files, dest);
    SourcesRead("d", args[1..], files, dest);
  }

  /** A verb spells none of the other verb's commands and none of the words'. */
  lemma {:induction false} OnlyItsCommands(args: seq<string>, verb: char, m: Modifiers, c: Command)
    requires (verb == 's' || verb == 'd') && VerbLine(args, verb, m)
    requires if verb == 's' then !c.Upload? && !c.SaveAll? && !c.SaveAllRecursive?
             else !c.Download? && !c.DownloadAll? && !c.DownloadAllRecursive?
    ensures !Spells(args, c)
  {
    OneSet(args, verb, m);
    ReservedVerb(args, verb, m);
  }

  lemma {:induction false} SavesRead(args: seq<string>, m: Modifiers, c: Command)
    requires VerbLine(args, 's', m)
    ensures SaveCommand(args[0], m, args[1..]) == Ok(c) <==> Spells(args, c)
  {
    OneSet(args, 's', m);
    ReservedVerb(args, 's', m);
    match c
    case Upload(files, compress, dest) => SourcesLineRead(args, 's', m, files, dest);
    case SaveAll(x, dir, dest) => DirLineRead(args, m, dir, dest);
    case SaveAllRecursive(x, dir, dest) => DirLineRead(args, m, dir, dest);
    case _ => OnlyItsCommands(args, 's', m, c);
  }

  lemma {:induction false} DirLineRead(args: seq<string>, m: Modifiers, dir: string, dest: Option<string>)
    requires VerbLine(args, 's', m)
    ensures forall x :: SaveCommand(args[0], m, args[1..]) == Ok(SaveAll(x, dir, dest)) <==>
                        m == Modifiers(true, false, x) && Saves(args, m, dir, dest)
    ensures forall x :: SaveCommand(args[0], m, args[1..]) == Ok(SaveAllRecursive(x, dir, dest)) <==>
                        m == Modifiers(true, true, x) && Saves(args, m, dir, dest)
  {
    var tail := args[1..];
    assert |args| >= 2 ==> tail[1..] == args[2..];
    DirAndPrefixRead("sa", tail, dir, dest);
    DirAndPrefixRead("sar", tail, dir, dest);
  }

  lemma {:induction false} FetchesRead(args: seq<string>, m: Modifiers, c: Command)
    requires VerbLine(args, 'd', m)
    ensures DownloadCommand(args[0], m, args[1..]) == Ok(c) <==> Spells(args, c)
  {
    OneSet(args, 'd', m);
    ReservedVerb(args, 'd', m);
    match c
    case Download(names, x, dest) => SourcesLineRead(args, 'd', m, names, dest);
    case DownloadAll(x, dest, src) => DestLineRead(args, m, dest, src);
    case DownloadAllRecursive(x, dest, src) => DestLineRead(args, m, dest, src);
    case _ => OnlyItsCommands(args, 'd', m, c);
  }

  lemma {:induction false} DestLineRead(args: seq<string>, m: Modifiers, dest: Option<string>, src: Option<string>)
    requires VerbLine(args, 'd', m)
    ensures forall x :: DownloadCommand(args[0], m, args[1..]) == Ok(DownloadAll(x, dest, src)) <==>
                        m == Modifiers(true, false, x) && Fetches(args, m, dest, src)
    ensures forall x :: DownloadCommand(args[0], m, args[1..]) == Ok(DownloadAllRecursive(x, dest, src)) <==>
                        m == Modifiers(true, true, x) && Fetches(args, m, dest, src)
  {
    var tail := args[1..];
    assert |args| >= 2 ==> tail[1..] == args[2..];
    if dest.Some? {
      DirAndPrefixRead("da", tail, dest.value, src);
      DirAndPrefixRead("dar", tail, dest.value, src);
    }
  }

  /** A line has one set of letters. */
  lemma {:induction false} OneSet(args: seq<string>, verb: char, m: Modifiers)
    requires VerbLine(args, verb, m) && (verb == 's' || verb == 'd')
    ensures forall v, n :: VerbLine(args, v, n) ==> v == verb && n == m
  {
    forall v, n | VerbLine(args, v, n) ensures v == verb && n == m {
      VerbRead(args, verb, m);
      VerbRead(args, v, n);
    }
  }

  lemma {:induction false} ReservedVerb(args: seq<string>, verb: char, m: Modifiers)
    requires VerbLine(args, verb, m) && (verb == 's' || verb == 'd')
    ensures Reserved(args[0]) && args[0] !in {"q", "w", "kalvasflam", "z", "c", "f"}
  {
    VerbRead(args, verb, m);
    ReservedAgrees(args[0]);
  }

  lemma {:induction false} WordsRead(args: seq<string>, c: Command)
    requires args != [] && IsAtom(args[0])
    ensures AtomCommand(args[0], args[1..]) == Ok(c) <==> Spells(args, c)
  {
    ReservedAgrees(args[0]);
    AtomsAreNotComposite(args[0]);
    assert args == [args[0]] + args[1..];
  }

  lemma {:induction false} BareRead(args: seq<string>, c: Command)
    requires args != [] && !Reserved(args[0])
    ensures c == Upload(args, false, None) <==> Spells(args, c)
  {
    NoVerb(args);
  }

  lemma {:induction false} NoVerb(args: seq<string>)
    requires args != [] && !Reserved(args[0])
    ensures forall v, n | v == 's' || v == 'd' :: !VerbLine(args, v, n)
  {
    forall v, n | (v == 's' || v == 'd') && VerbLine(args, v, n) ensures false {
      ReservedVerb(args, v, n);
    }
  }

  /** A verb whose letters are no set is read as nothing. */
  lemma {:induction false} BrokenVerb(args: seq<string>, verb: char, c: Command)
    requires (verb == 's' || verb == 'd') && args != [] && IsComposite(args[0]) && args[0][0] == verb
    requires ModifiersOf(args[0], args[0][1..]).Err?
    ensures !Spells(args, c)
  {
    ReservedAgrees(args[0]);
    forall v, n ensures !VerbLine(args, v, n) {
      if VerbLine(args, v, n) {
        VerbRead(args, verb, n);
      }
    }
    if IsAtom(args[0]) {
      AtomsAreNotComposite(args[0]);
    }
  }

  lemma {:induction false} VerbLineRead(args: seq<string>, verb: char, c: Command)
    requires (verb == 's' || verb == 'd') && args != [] && IsComposite(args[0]) && args[0][0] == verb
    ensures Parse(args) == Ok(c) <==> Spells(args, c)
  {
    var read := ModifiersOf(args[0], args[0][1..]);
    if read.Err? {
      BrokenVerb(args, verb, c);
    } else {
      VerbRead(args, verb, read.value);
      if verb == 's' {
        SavesRead(args, read.value, c);
      } else {
        FetchesRead(args, read.value, c);
      }
    }
  }

  /** The parser gives a command exactly for the lines that spell it. */
  lemma {:induction false} ParserReadsSpellings(args: seq<string>, c: Command)
    ensures Parse(args) == Ok(c) <==> Spells(args, c)
  {
    if args != [] {
      ReservedAgrees(args[0]);
      if !IsReserved(args[0]) {
        BareRead(args, c);
      } else if IsAtom(args[0]) {
        AtomsAreNotComposite(args[0]);
        WordsRead(args, c);
      } else {
        VerbLineRead(args, args[0][0], c);
      }
    }
  }

  /** Files alone mean the same with `s` in front iff the last has no slash at its end. */
  lemma {:induction false} BareLineIsSLine(files: seq<string>)
    requires files != [] && !Reserved(files[0])
    ensures Parse(files) == Parse(["s"] + files) <==> !EndsWithChar(files[|files| - 1], '/')
  {
    var line := ["s"] + files;
    var m := Modifiers(false, false, false);
    var c := Upload(files, false, None);
    assert line[1..] == files && "s"[1..] == "";
    assert VerbLine(line, 's', m);
    ParserReadsSpellings(files, c);
    ParserReadsSpellings(line, c);
    NoVerb(files);
    OneSet(line, 's', m);
    assert Parse(files) == Ok(c);
    assert !Reserved(line[0]) ==> false;
  }

  // ----- the lines that are refused -----

  /** The first letter of a verb that repeats one before it, or is the `e` that is not there yet. */
  ghost predicate BrokenAt(args: seq<string>, k: nat)
  {
    args != [] && Reserved(args[0]) && args[0][0] in {'s', 'd'} && FirstWrongAt(args[0][1..], k)
  }

  predicate NoSources(tail: seq<string>) { tail == [] || (|tail| == 1 && EndsWithChar(tail[0], '/')) }

  /** What is refused behind a verb with sound letters: `r` without `a`, too few arguments and too many. */
  predicate RefusedBehind(args: seq<string>, verb: char, m: Modifiers, e: ParseError)
  {
    && args != [] && verb in {'s', 'd'}
    && if m.a then
         var said := [verb] + if m.r then "ar" else "a";
         || (verb == 's' && |args| == 1 && e == MissingArgument(said))
         || (|args| > 3 && e == UnexpectedArgument(said))
       else if m.r then e == UnknownModifier(args[0], 'r')
       else NoSources(args[1..]) && e == MissingArgument([verb])
  }

  /** The words take no argument, but for the one of `z`. */
  predicate RefusedWord(args: seq<string>, e: ParseError)
  {
    && args != [] && e == UnexpectedArgument(args[0])
    && if args[0] == "z" then |args| > 2 || args == ["z", ""]
       else args[0] in {"q", "w", "kalvasflam", "c", "f"} && |args| > 1
  }

  /** What a line is refused for. A letter that no verb has is never the reason: such a token is a file. */
  ghost predicate Refused(args: seq<string>, e: ParseError)
  {
    || (args == [] && e == NoArgs)
    || (exists k: nat :: BrokenAt(args, k) && var c := args[0][1..][k];
          e == if c == 'e' then EncryptNotInV1(args[0]) else DuplicateModifier(args[0], c))
    || (exists verb, m :: VerbLine(args, verb, m) && RefusedBehind(args, verb, m, e))
    || RefusedWord(args, e)
  }

  lemma {:induction false} OneFirstWrong(tail: string, j: nat, k: nat)
    requires FirstWrongAt(tail, j) && FirstWrongAt(tail, k)
    ensures j == k
  {
    if j < k {
      NotASetBehind(tail, j, k);
    } else if k < j {
      NotASetBehind(tail, k, j);
    }
  }

  lemma {:induction false} NotASetBehind(tail: string, j: nat, k: nat)
    requires FirstWrongAt(tail, j) && j < k <= |tail|
    ensures !IsModifierSet(tail[..k])
    decreases k
  {
    var before := tail[..k - 1];
    assert tail[..k] == before + [tail[k - 1]];
    if j == k - 1 {
      OneMoreLetter(before, tail[j]);
    } else {
      NotASetBehind(tail, j, k - 1);
      BrokenStaysBroken(before, tail[k - 1]);
    }
  }

  /** A line with broken letters is refused for the first of them only. */
  lemma {:induction false} OnlyForItsLetter(args: seq<string>, k: nat, e: ParseError)
    requires BrokenAt(args, k) && IsComposite(args[0]) && forall v, n :: !VerbLine(args, v, n)
    ensures Refused(args, e) <==> e == ErrorAt(args[0], args[0][1..], k)
  {
    forall j: nat | BrokenAt(args, j) ensures j == k {
      OneFirstWrong(args[0][1..], j, k);
    }
    AtomsAreNoVerbs(args[0]);
    assert args[0][1..][k] in args[0][1..];
  }

  lemma {:induction false} BrokenVerbRefused(args: seq<string>, verb: char, e: ParseError)
    requires (verb == 's' || verb == 'd') && args != [] && IsComposite(args[0]) && args[0][0] == verb
    requires ModifiersOf(args[0], args[0][1..]).Err?
    ensures ModifiersOf(args[0], args[0][1..]).error == e <==> Refused(args, e)
  {
    var tail := args[0][1..];
    ModifiersAreASet(args[0], tail);
    var k: nat :| FirstWrongAt(tail, k) && ModifiersOf(args[0], tail).error == ErrorAt(args[0], tail, k);
    ReservedAgrees(args[0]);
    NoLineOfABrokenVerb(args, verb);
    OnlyForItsLetter(args, k, e);
  }

  lemma AtomsAreNoVerbs(t: string)
    requires IsComposite(t)
    ensures t !in {"q", "w", "kalvasflam", "z", "c", "f"}
  {
  }

  lemma {:induction false} NoLineOfABrokenVerb(args: seq<string>, verb: char)
    requires (verb == 's' || verb == 'd') && args != [] && args[0] != "" && args[0][0] == verb
    requires ModifiersOf(args[0], args[0][1..]).Err?
    ensures forall v, n :: !VerbLine(args, v, n)
  {
    forall v, n ensures !VerbLine(args, v, n) {
      if VerbLine(args, v, n) {
        VerbRead(args, verb, n);
      }
    }
  }

  lemma {:induction false} SoundVerbIsNotBroken(args: seq<string>, verb: char, m: Modifiers)
    requires (verb == 's' || verb == 'd') && VerbLine(args, verb, m)
    ensures forall k: nat :: !BrokenAt(args, k)
  {
    VerbRead(args, verb, m);
    ModifiersAreASet(args[0], args[0][1..]);
    forall k: nat ensures !BrokenAt(args, k) {
      if BrokenAt(args, k) {
        NotASet(args[0][1..], k);
      }
    }
  }

  lemma NotASet(tail: string, k: nat)
    requires FirstWrongAt(tail, k)
    ensures !IsModifierSet(tail)
  {
    NotASetBehind(tail, k, |tail|);
    assert tail[..|tail|] == tail;
  }

  /** A line with sound letters is refused for what is behind its verb only. */
  lemma {:induction false} OnlyForItsArguments(args: seq<string>, verb: char, m: Modifiers, e: ParseError)
    requires (verb == 's' || verb == 'd') && VerbLine(args, verb, m)
    ensures Refused(args, e) <==> RefusedBehind(args, verb, m, e)
  {
    OneSet(args, verb, m);
    ReservedVerb(args, verb, m);
    SoundVerbIsNotBroken(args, verb, m);
  }

  lemma {:induction false} SaveRefused(args: seq<string>, m: Modifiers, e: ParseError)
    requires VerbLine(args, 's', m)
    ensures SaveCommand(args[0], m, args[1..]) == Err(e) <==> RefusedBehind(args, 's', m, e)
  {
    assert ['s'] == "s" && ['s'] + "ar" == "sar" && ['s'] + "a" == "sa";
  }

  lemma {:induction false} FetchRefused(args: seq<string>, m: Modifiers, e: ParseError)
    requires VerbLine(args, 'd', m)
    ensures DownloadCommand(args[0], m, args[1..]) == Err(e) <==> RefusedBehind(args, 'd', m, e)
  {
    assert ['d'] == "d" && ['d'] + "ar" == "dar" && ['d'] + "a" == "da";
  }

  lemma {:induction false} WordRefused(args: seq<string>, e: ParseError)
    requires args != [] && IsAtom(args[0])
    ensures AtomCommand(args[0], args[1..]) == Err(e) <==> Refused(args, e)
  {
    ReservedAgrees(args[0]);
    AtomsAreNotComposite(args[0]);
    assert args == [args[0]] + args[1..];
  }

  lemma {:induction false} FileRefused(args: seq<string>, e: ParseError)
    requires args != [] && !Reserved(args[0])
    ensures !Refused(args, e)
  {
    NoVerb(args);
  }

  /** The parser refuses exactly these lines, each for its reason. */
  lemma {:induction false} ParserRefuses(args: seq<string>, e: ParseError)
    ensures Parse(args) == Err(e) <==> Refused(args, e)
  {
    if args != [] {
      ReservedAgrees(args[0]);
      if !IsReserved(args[0]) {
        FileRefused(args, e);
      } else if IsAtom(args[0]) {
        AtomsAreNotComposite(args[0]);
        WordRefused(args, e);
      } else {
        VerbRefused(args, args[0][0], e);
      }
    }
  }

  lemma {:induction false} VerbRefused(args: seq<string>, verb: char, e: ParseError)
    requires (verb == 's' || verb == 'd') && args != [] && IsComposite(args[0]) && args[0][0] == verb
    ensures Parse(args) == Err(e) <==> Refused(args, e)
  {
    var read := ModifiersOf(args[0], args[0][1..]);
    if read.Err? {
      BrokenVerbRefused(args, verb, e);
    } else {
      VerbRead(args, verb, read.value);
      OnlyForItsArguments(args, verb, read.value, e);
      if verb == 's' {
        SaveRefused(args, read.value, e);
      } else {
        FetchRefused(args, read.value, e);
      }
    }
  }
}
