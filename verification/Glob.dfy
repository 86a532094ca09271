/** Remote globs (src/commands/download.rs). */
module Glob {
  import opened Basics
  import opened Text
  import opened Utf8
  import opened Sorting
  import opened ListCaches
  import opened RemoteTrees
  import opened SaveAll

  const STAR: byte := 42
  const QUESTION: byte := 63

  predicate HasGlob(s: string) { '*' in s || '?' in s }

  /** The matcher, byte by byte. */
  predicate MatchBytes(p: seq<byte>, n: seq<byte>)
    decreases |p| + |n|
  {
    if p == [] then n == []
    else if p[0] == STAR then MatchBytes(p[1..], n) || (n != [] && MatchBytes(p, n[1..]))
    else if n == [] then false
    else if p[0] == QUESTION || p[0] == n[0] then MatchBytes(p[1..], n[1..])
    else false
  }

  predicate GlobMatch(pattern: string, name: string) { MatchBytes(Encode(pattern), Encode(name)) }

  // ----- what a pattern means -----

  /** What one symbol of a pattern may stand for: any bytes, any one byte, or itself. */
  predicate Stands(symbol: byte, piece: seq<byte>)
  {
    symbol == STAR || (if symbol == QUESTION then |piece| == 1 else piece == [symbol])
  }

  function Flatten(pieces: seq<seq<byte>>): seq<byte>
  {
    if pieces == [] then [] else pieces[0] + Flatten(pieces[1..])
  }

  /** `pieces` cut the name so that each stands under its symbol. */
  predicate Cut(p: seq<byte>, n: seq<byte>, pieces: seq<seq<byte>>)
  {
    |pieces| == |p| && Flatten(pieces) == n && forall i | 0 <= i < |p| :: Stands(p[i], pieces[i])
  }

  lemma {:induction false} CutTail(p: seq<byte>, n: seq<byte>, pieces: seq<seq<byte>>)
    requires p != [] && Cut(p, n, pieces)
    ensures n == pieces[0] + Flatten(pieces[1..]) && Cut(p[1..], Flatten(pieces[1..]), pieces[1..])
    ensures Stands(p[0], pieces[0])
  {
  }

  lemma {:induction false} MatchGivesCut(p: seq<byte>, n: seq<byte>) returns (pieces: seq<seq<byte>>)
    requires MatchBytes(p, n)
    ensures Cut(p, n, pieces)
    decreases |p| + |n|
  {
    if p == [] {
      pieces := [];
    } else if p[0] == STAR {
      if MatchBytes(p[1..], n) {
        var rest := MatchGivesCut(p[1..], n);
        pieces := [[]] + rest;
        assert pieces[1..] == rest;
        assert forall i | 1 <= i < |p| :: p[i] == p[1..][i - 1];
      } else {
        var rest := MatchGivesCut(p, n[1..]);
        CutTail(p, n[1..], rest);
        pieces := [[n[0]] + rest[0]] + rest[1..];
        assert pieces[1..] == rest[1..];
        assert n == [n[0]] + n[1..];
      }
    } else {
      var rest := MatchGivesCut(p[1..], n[1..]);
      pieces := [[n[0]]] + rest;
      assert pieces[1..] == rest && n == [n[0]] + n[1..];
      assert forall i | 1 <= i < |p| :: p[i] == p[1..][i - 1];
    }
  }

  lemma {:induction false} CutGivesMatch(p: seq<byte>, n: seq<byte>, pieces: seq<seq<byte>>)
    requires Cut(p, n, pieces)
    ensures MatchBytes(p, n)
    decreases |p| + |n|
  {
    if p != [] {
      CutTail(p, n, pieces);
      if p[0] == STAR && pieces[0] != [] {
        var shorter := [pieces[0][1..]] + pieces[1..];
        assert shorter[1..] == pieces[1..];
        assert Flatten(shorter) == n[1..];
        CutGivesMatch(p, n[1..], shorter);
      } else {
        CutGivesMatch(p[1..], Flatten(pieces[1..]), pieces[1..]);
        if p[0] == STAR {
          assert n == Flatten(pieces[1..]);
        } else {
          assert n[1..] == Flatten(pieces[1..]);
        }
      }
    }
  }

  /** The matcher accepts exactly the names that can be cut as the pattern asks. */
  lemma {:induction false} MatchMeansCut(p: seq<byte>, n: seq<byte>)
    ensures MatchBytes(p, n) <==> exists pieces :: Cut(p, n, pieces)
  {
    if MatchBytes(p, n) {
      var pieces := MatchGivesCut(p, n);
    }
    if pieces :| Cut(p, n, pieces) {
      CutGivesMatch(p, n, pieces);
    }
  }

  lemma {:induction false} FlattenAppend(a: seq<seq<byte>>, b: seq<seq<byte>>)
    ensures Flatten(a + b) == Flatten(a) + Flatten(b)
  {
    if a == [] {
      assert a + b == b;
    } else {
      assert (a + b)[1..] == a[1..] + b;
      FlattenAppend(a[1..], b);
    }
  }

  ghost predicate SplitMatch(p: seq<byte>, q: seq<byte>, n: seq<byte>, k: nat)
  {
    k <= |n| && MatchBytes(p, n[..k]) && MatchBytes(q, n[k..])
  }

  /** A concatenated pattern matches exactly the concatenations of matches. */
  lemma {:induction false} MatchOfConcatenation(p: seq<byte>, q: seq<byte>, n: seq<byte>)
    ensures MatchBytes(p + q, n) <==> exists k: nat :: SplitMatch(p, q, n, k)
  {
    if MatchBytes(p + q, n) {
      var pieces := MatchGivesCut(p + q, n);
      var a, b := pieces[..|p|], pieces[|p|..];
      assert pieces == a + b;
      FlattenAppend(a, b);
      assert forall i | 0 <= i < |p| :: (p + q)[i] == p[i];
      assert forall i | 0 <= i < |q| :: (p + q)[|p| + i] == q[i] && pieces[|p| + i] == b[i];
      CutGivesMatch(p, Flatten(a), a);
      CutGivesMatch(q, Flatten(b), b);
      var k := |Flatten(a)|;
      assert n[..k] == Flatten(a) && n[k..] == Flatten(b);
      assert SplitMatch(p, q, n, k);
    }
    if k: nat :| SplitMatch(p, q, n, k) {
      var a := MatchGivesCut(p, n[..k]);
      var b := MatchGivesCut(q, n[k..]);
      FlattenAppend(a, b);
      assert n == n[..k] + n[k..];
      CutGivesMatch(p + q, n, a + b);
    }
  }

  function Reverse(xs: seq<byte>): (r: seq<byte>)
    ensures |r| == |xs|
  {
    if xs == [] then [] else Reverse(xs[1..]) + [xs[0]]
  }

  lemma {:induction false} ReverseAppend(a: seq<byte>, b: seq<byte>)
    ensures Reverse(a + b) == Reverse(b) + Reverse(a)
  {
    if a == [] {
      assert a + b == b;
    } else {
      assert (a + b)[1..] == a[1..] + b;
      ReverseAppend(a[1..], b);
    }
  }

  lemma {:induction false} ReverseTwice(a: seq<byte>)
    ensures Reverse(Reverse(a)) == a
  {
    if a != [] {
      ReverseAppend(Reverse(a[1..]), [a[0]]);
      ReverseTwice(a[1..]);
    }
  }

  lemma {:induction false} OneSymbol(c: byte, n: seq<byte>)
    ensures MatchBytes([c], n) <==> Stands(c, n)
  {
    if MatchBytes([c], n) {
      var pieces := MatchGivesCut([c], n);
      CutTail([c], n, pieces);
      assert pieces[1..] == [];
    }
    if Stands(c, n) {
      assert [n][1..] == [] && Flatten([n]) == n;
      CutGivesMatch([c], n, [n]);
    }
  }

  lemma {:induction false} ReversedMatch(p: seq<byte>, n: seq<byte>)
    requires MatchBytes(p, n)
    ensures MatchBytes(Reverse(p), Reverse(n))
    decreases |p|
  {
    if p != [] {
      assert p == [p[0]] + p[1..];
      MatchOfConcatenation([p[0]], p[1..], n);
      var k: nat :| SplitMatch([p[0]], p[1..], n, k);
      ReversedMatch(p[1..], n[k..]);
      OneSymbol(p[0], n[..k]);
      OneSymbol(p[0], Reverse(n[..k]));
      assert |n[..k]| == 1 ==> n[..k] == [n[0]] && Reverse(n[..k]) == [n[0]];
      ReverseAppend(n[..k], n[k..]);
      assert n == n[..k] + n[k..];
      var m, j := Reverse(n), |n| - k;
      assert m[..j] == Reverse(n[k..]) && m[j..] == Reverse(n[..k]);
      MatchOfConcatenation(Reverse(p[1..]), [p[0]], m);
      assert SplitMatch(Reverse(p[1..]), [p[0]], m, j);
    }
  }

  /** Matching does not depend on the reading direction. */
  lemma {:induction false} MatchIsSymmetric(p: seq<byte>, n: seq<byte>)
    ensures MatchBytes(Reverse(p), Reverse(n)) <==> MatchBytes(p, n)
  {
    if MatchBytes(p, n) {
      ReversedMatch(p, n);
    }
    if MatchBytes(Reverse(p), Reverse(n)) {
      ReversedMatch(Reverse(p), Reverse(n));
      ReverseTwice(p);
      ReverseTwice(n);
    }
  }

  lemma {:induction false} StarsMatchAlike(n: seq<byte>)
    ensures MatchBytes([STAR], n) && MatchBytes([STAR, STAR], n)
  {
    OneSymbol(STAR, n);
    assert [STAR, STAR][1..] == [STAR];
  }

  /** Anywhere in a pattern, two stars mean what one star means. */
  lemma {:induction false} DoubleStarIsStar(p: seq<byte>, q: seq<byte>, n: seq<byte>)
    ensures MatchBytes(p + [STAR, STAR] + q, n) <==> MatchBytes(p + [STAR] + q, n)
  {
    MatchOfConcatenation(p + [STAR, STAR], q, n);
    MatchOfConcatenation(p + [STAR], q, n);
    forall k: nat ensures SplitMatch(p + [STAR, STAR], q, n, k) <==> SplitMatch(p + [STAR], q, n, k) {
      if k <= |n| {
        var m := n[..k];
        MatchOfConcatenation(p, [STAR, STAR], m);
        MatchOfConcatenation(p, [STAR], m);
        forall j: nat ensures SplitMatch(p, [STAR, STAR], m, j) <==> SplitMatch(p, [STAR], m, j) {
          if j <= |m| { StarsMatchAlike(m[j..]); }
        }
      }
    }
  }

  /** A pattern without metacharacters matches itself only. */
  lemma {:induction false} LiteralPattern(p: seq<byte>, n: seq<byte>)
    requires STAR !in p && QUESTION !in p
    ensures MatchBytes(p, n) <==> p == n
  {
    if p != [] && n != [] {
      assert p == [p[0]] + p[1..] && n == [n[0]] + n[1..];
      if p[0] == n[0] {
        LiteralPattern(p[1..], n[1..]);
      }
    }
  }

  /** Every pattern matches itself. */
  lemma {:induction false} MatchesItself(p: seq<byte>)
    ensures MatchBytes(p, p)
  {
    if p != [] {
      MatchesItself(p[1..]);
      if p[0] == STAR {
        assert MatchBytes(p, p[1..]);
      }
    }
  }

  lemma {:induction false} AsciiByteMeansChar(s: string, c: char)
    requires c as int < 0x80
    ensures (c as int) in Encode(s) <==> c in s
  {
    if s != "" {
      AsciiByteMeansChar(s[1..], c);
      assert s == [s[0]] + s[1..];
    }
  }

  /** Between two parts that stand for themselves, any text that matches the middle. */
  lemma {:induction false} MatchInTheMiddle(a: seq<byte>, p: seq<byte>, n: seq<byte>, b: seq<byte>)
    requires MatchBytes(p, n)
    ensures MatchBytes(a + p + b, a + n + b)
  {
    MatchesItself(a);
    MatchesItself(b);
    assert (a + n)[..|a|] == a && (a + n)[|a|..] == n;
    assert SplitMatch(a, p, a + n, |a|);
    MatchOfConcatenation(a, p, a + n);
    assert (a + n + b)[..|a + n|] == a + n && (a + n + b)[|a + n|..] == b;
    assert SplitMatch(a + p, b, a + n + b, |a + n|);
    MatchOfConcatenation(a + p, b, a + n + b);
  }

  lemma {:induction false} EncodeThree(a: string, b: string, c: string)
    ensures Encode(a + b + c) == Encode(a) + Encode(b) + Encode(c)
  {
    EncodeAppend(a + b, c);
    EncodeAppend(a, b);
  }

  lemma {:induction false} GlobHasAnother(s: string, i: nat) returns (n: string)
    requires i < |s| && (s[i] == '*' || s[i] == '?')
    ensures n != s && GlobMatch(s, n)
  {
    var x: string := if s[i] == '*' then "xx" else "x";
    var a, c, b := s[..i], [s[i]], s[i + 1..];
    n := a + x + b;
    assert n[i] == 'x';
    assert s == a + c + b;
    EncodeThree(a, c, b);
    EncodeThree(a, x, b);
    MetaMatches(s[i], x);
    MatchInTheMiddle(Encode(a), Encode(c), Encode(x), Encode(b));
  }

  lemma {:induction false} LiteralNameOnly(s: string, n: string)
    requires !HasGlob(s) && GlobMatch(s, n)
    ensures n == s
  {
    AsciiByteMeansChar(s, '*');
    AsciiByteMeansChar(s, '?');
    LiteralPattern(Encode(s), Encode(n));
    DecodeEncode(s);
    DecodeEncode(n);
  }

  /** A metacharacter is what makes a pattern match another name than itself. */
  lemma {:induction false} GlobsMatchOthers(s: string)
    ensures HasGlob(s) <==> exists n :: n != s && GlobMatch(s, n)
  {
    if HasGlob(s) {
      var i: nat :| i < |s| && (s[i] == '*' || s[i] == '?');
      var n := GlobHasAnother(s, i);
    } else {
      forall n | GlobMatch(s, n) ensures n == s {
        LiteralNameOnly(s, n);
      }
    }
  }

  lemma MetaMatches(c: char, x: string)
    requires (c == '*' && x == "xx") || (c == '?' && x == "x")
    ensures GlobMatch([c], x)
  {
    assert [c][1..] == "" && Encode([c]) == [c as int];
    OneSymbol(c as int, Encode(x));
    AsciiLength(x);
  }

  /**
   `?` is documented as one character and is one byte: against a name of one character it matches exactly when the
   character is ASCII.
   */
  lemma {:induction false} QuestionIsOneByte(c: char)
    ensures GlobMatch("?", [c]) <==> c as int < 0x80
  {
    assert Encode("?"[1..]) == [] && Encode([c][1..]) == [];
    assert Encode("?") == [QUESTION] && Encode([c]) == EncodeChar(c);
    OneSymbol(QUESTION, EncodeChar(c));
  }

  lemma {:induction false} AccentedLetterIsNotOneByte()
    ensures !GlobMatch("?", "\U{00E9}")
  {
    QuestionIsOneByte('\U{00E9}');
  }

  // ----- expansion -----

  function ParentOf(arg: string): string
  {
    var i := LastIndex(arg, '/');
    if i.Some? then arg[..i.value] else ""
  }

  function PatternOf(arg: string): string
  {
    var i := LastIndex(arg, '/');
    if i.Some? then arg[i.value + 1..] else arg
  }

  function FullName(parent: string, name: string): string { if parent == "" then name else parent + "/" + name }

  lemma {:induction false} FullNameInjective(parent: string, a: string, b: string)
    requires FullName(parent, a) == FullName(parent, b)
    ensures a == b
  {
    if parent != "" {
      assert a == FullName(parent, a)[|parent| + 1..] && b == FullName(parent, b)[|parent| + 1..];
    }
  }

  ghost predicate Expands(files: map<Path, Bytes>, arg: string, s: string)
  {
    exists k | k in files ::
      && |k| == |PrefixSegments(Some(ParentOf(arg)))| + 1 && PrefixSegments(Some(ParentOf(arg))) < k
      && GlobMatch(PatternOf(arg), k[|k| - 1]) && s == FullName(ParentOf(arg), k[|k| - 1])
  }

  function MatchingNames(es: seq<RawEntry>, parent: string, pattern: string): seq<string>
  {
    Map((e: RawEntry) => FullName(parent, e.name),
        Filter(e => Keeps(pattern, e), es))
  }

  /** `expand_remote_glob`: the sorted, complete, duplicate-free list of the matching files of the parent directory. */
  method ExpandRemoteGlob(remote: FakeRemoteFs, arg: string) returns (r: Result<seq<string>, RemoteError>)
    modifies remote`listCount
    ensures HasGlob(ParentOf(arg)) ==> r == Ok([arg])
    ensures !HasGlob(ParentOf(arg)) ==>
              && (r.Err? <==> PrefixSegments(Some(ParentOf(arg))) !in remote.dirs)
              && (r.Ok? ==>
                    && (forall s :: s in r.value <==> Expands(remote.files, arg, s))
                    && Sorted(r.value, StringLe) && Distinct(r.value))
  {
    var parent, pattern := ParentOf(arg), PatternOf(arg);
    if HasGlob(parent) {
      return Ok([arg]);
    }
    var src := PrefixSegments(Some(parent));
    var listing := remote.List(src);
    if listing.Err? {
      return Err(listing.error);
    }
    var names := MatchingNames(listing.value, parent, pattern);
    StringOrder();
    SortSorts(names, StringLe);
    SortPermutes(names, StringLe);
    MatchingNamesAreDistinct(listing.value, remote.Model(), src, parent, pattern);
    forall s ensures s in names <==> Expands(remote.files, arg, s) {
      MatchingNamesAreComplete(listing.value, remote.Model(), src, arg, s);
    }
    SortKeepsDistinct(names, StringLe);
    return Ok(Sort(names, StringLe));
  }

  predicate Keeps(pattern: string, e: RawEntry) { !e.isDirectory && GlobMatch(pattern, e.name) }

  lemma {:induction false} MatchingNameAt(es: seq<RawEntry>, parent: string, pattern: string, i: nat)
    requires i < |Filter(e => Keeps(pattern, e), es)|
    ensures var kept := Filter(e => Keeps(pattern, e), es);
            MatchingNames(es, parent, pattern)[i] == FullName(parent, kept[i].name)
            && kept[i] in es && Keeps(pattern, kept[i])
  {
    var kept := Filter(e => Keeps(pattern, e), es);
    FilterMembers(e => Keeps(pattern, e), es);
    assert kept[i] in kept;
    MapMembers((e: RawEntry) => FullName(parent, e.name), kept, i);
  }

  lemma {:induction false} MatchingNamesAreDistinct(es: seq<RawEntry>, r: Remote, src: Path, parent: string,
                                                    pattern: string)
    requires IsListing(es, r, src)
    ensures Distinct(MatchingNames(es, parent, pattern))
  {
    var kept, names := Filter(e => Keeps(pattern, e), es), MatchingNames(es, parent, pattern);
    FilterKeepsDistinct(e => Keeps(pattern, e), es);
    forall i, j | 0 <= i < j < |names| ensures names[i] != names[j] {
      MatchingNameAt(es, parent, pattern, i);
      MatchingNameAt(es, parent, pattern, j);
      assert kept[i] == FileEntry(kept[i].name, r.files[src + [kept[i].name]]);
      assert kept[j] == FileEntry(kept[j].name, r.files[src + [kept[j].name]]);
      if FullName(parent, kept[i].name) == FullName(parent, kept[j].name) {
        FullNameInjective(parent, kept[i].name, kept[j].name);
      }
    }
  }

  lemma {:induction false} MatchingNamesAreComplete(es: seq<RawEntry>, r: Remote, src: Path, arg: string, s: string)
    requires IsListing(es, r, src) && src == PrefixSegments(Some(ParentOf(arg)))
    ensures s in MatchingNames(es, ParentOf(arg), PatternOf(arg)) <==> Expands(r.files, arg, s)
  {
    var parent, pattern := ParentOf(arg), PatternOf(arg);
    var kept, names := Filter(e => Keeps(pattern, e), es), MatchingNames(es, parent, pattern);
    if s in names {
      var i :| 0 <= i < |names| && names[i] == s;
      MatchingNameAt(es, parent, pattern, i);
      var k := src + [kept[i].name];
      assert k in r.files && k[|k| - 1] == kept[i].name && src < k;
    }
    if Expands(r.files, arg, s) {
      var k :| k in r.files && |k| == |src| + 1 && src < k && GlobMatch(pattern, k[|k| - 1])
               && s == FullName(parent, k[|k| - 1]);
      var e := FileEntry(k[|src|], r.files[k]);
      FilterMembers(e => Keeps(pattern, e), es);
      assert e in es && Keeps(pattern, e) && e in kept;
      var i :| 0 <= i < |kept| && kept[i] == e;
      MatchingNameAt(es, parent, pattern, i);
      assert names[i] == s;
    }
  }
}
