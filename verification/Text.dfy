/** Splitting, joining and trimming of strings, as Rust's `split`, `join` and `trim_matches` do it. */
module Text {
  import opened Basics

  /** `s.split(d)`: always at least one piece; adjacent separators give empty pieces. */
  function Split(s: string, d: char): (parts: seq<string>)
    ensures |parts| >= 1
  {
    if s == "" then [""]
    else
      var rest := Split(s[1..], d);
      if s[0] == d then [""] + rest else [[s[0]] + rest[0]] + rest[1..]
  }

  /** `parts.join(d)`. */
  function Join(parts: seq<string>, d: char): string
  {
    if |parts| == 0 then ""
    else if |parts| == 1 then parts[0]
    else parts[0] + [d] + Join(parts[1..], d)
  }

  predicate Free(s: string, d: char) { d !in s }

  predicate AllFree(parts: seq<string>, d: char) { forall p | p in parts :: Free(p, d) }

  lemma {:induction false} JoinSplit(s: string, d: char)
    ensures Join(Split(s, d), d) == s
  {
    if s != "" {
      var rest := Split(s[1..], d);
      JoinSplit(s[1..], d);
      if s[0] == d {
        assert Split(s, d)[1..] == rest;
        assert s == "" + [d] + s[1..];
      } else {
        assert Split(s, d)[1..] == rest[1..];
        assert s == [s[0]] + s[1..];
        if |rest| == 1 {
        } else {
          assert Join(Split(s, d), d) == [s[0]] + rest[0] + [d] + Join(rest[1..], d);
        }
      }
    }
  }

  lemma {:induction false} SplitIsFree(s: string, d: char)
    ensures AllFree(Split(s, d), d)
  {
    if s != "" {
      SplitIsFree(s[1..], d);
      var rest := Split(s[1..], d);
      assert rest[0] in rest;
      forall p | p in Split(s, d) ensures Free(p, d) {
        if p !in rest {
          assert p == "" || p == [s[0]] + rest[0];
        }
      }
    }
  }

  /** A piece without the separator splits off whole. */
  lemma {:induction false} SplitPiece(p: string, tail: string, d: char)
    requires Free(p, d)
    ensures Split(p, d) == [p]
    ensures Split(p + [d] + tail, d) == [p] + Split(tail, d)
  {
    if p == "" {
      assert (p + [d] + tail)[1..] == tail;
    } else {
      assert Free(p[1..], d);
      SplitPiece(p[1..], tail, d);
      assert (p + [d] + tail)[1..] == p[1..] + [d] + tail;
      assert p == [p[0]] + p[1..];
    }
  }

  lemma {:induction false} SplitJoin(parts: seq<string>, d: char)
    requires |parts| >= 1 && AllFree(parts, d)
    ensures Split(Join(parts, d), d) == parts
  {
    assert Free(parts[0], d);
    if |parts| == 1 {
      SplitPiece(parts[0], "", d);
    } else {
      assert AllFree(parts[1..], d);
      SplitJoin(parts[1..], d);
      SplitPiece(parts[0], Join(parts[1..], d), d);
      assert parts == [parts[0]] + parts[1..];
    }
  }

  function TrimStart(s: string, c: char): string
  {
    if s != "" && s[0] == c then TrimStart(s[1..], c) else s
  }

  function TrimEnd(s: string, c: char): (t: string)
    ensures t <= s
    ensures t != "" ==> t[|t| - 1] != c
    ensures (s != "" && s[|s| - 1] != c) ==> t == s
  {
    if s != "" && s[|s| - 1] == c then TrimEnd(s[..|s| - 1], c) else s
  }

  /** `s.trim_matches(c)`. */
  function Trim(s: string, c: char): string { TrimEnd(TrimStart(s, c), c) }

  predicate StartsWith(s: string, prefix: string) { prefix <= s }

  predicate EndsWithChar(s: string, c: char) { s != "" && s[|s| - 1] == c }

  predicate StartsWithChar(s: string, c: char) { s != "" && s[0] == c }

  /** Trimming leaves no separator at either end. */
  lemma TrimmedEnds(s: string, c: char)
    ensures !StartsWithChar(Trim(s, c), c) && !EndsWithChar(Trim(s, c), c)
    ensures !StartsWithChar(s, c) && !EndsWithChar(s, c) ==> Trim(s, c) == s
  {
    TrimStartHead(s, c);
  }

  lemma {:induction false} TrimStartHead(s: string, c: char)
    ensures !StartsWithChar(TrimStart(s, c), c)
  {
    if s != "" && s[0] == c {
      TrimStartHead(s[1..], c);
    }
  }

  function Filter<T>(f: T -> bool, xs: seq<T>): seq<T>
  {
    if xs == [] then [] else (if f(xs[0]) then [xs[0]] else []) + Filter(f, xs[1..])
  }

  lemma {:induction false} FilterMembers<T(!new)>(f: T -> bool, xs: seq<T>)
    ensures forall y :: y in Filter(f, xs) <==> y in xs && f(y)
  {
    if xs != [] {
      FilterMembers(f, xs[1..]);
    }
  }

  lemma {:induction false} FilterAll<T>(f: T -> bool, xs: seq<T>)
    requires forall x | x in xs :: f(x)
    ensures Filter(f, xs) == xs
  {
    if xs != [] {
      FilterAll(f, xs[1..]);
    }
  }

  lemma {:induction false} FilterAppend<T>(f: T -> bool, xs: seq<T>, ys: seq<T>)
    ensures Filter(f, xs + ys) == Filter(f, xs) + Filter(f, ys)
  {
    if xs == [] {
      assert xs + ys == ys;
    } else {
      FilterAppend(f, xs[1..], ys);
      assert (xs + ys)[0] == xs[0] && (xs + ys)[1..] == xs[1..] + ys;
      var head := if f(xs[0]) then [xs[0]] else [];
      assert Filter(f, xs + ys) == head + (Filter(f, xs[1..]) + Filter(f, ys));
    }
  }

  lemma {:induction false} FilterShortens<T>(f: T -> bool, xs: seq<T>)
    ensures |Filter(f, xs)| <= |xs|
  {
    if xs != [] {
      FilterShortens(f, xs[1..]);
    }
  }

  /** Filtering keeps the length iff it keeps everything. */
  lemma {:induction false} FilterFull<T>(f: T -> bool, xs: seq<T>)
    ensures |Filter(f, xs)| == |xs| <==> forall x | x in xs :: f(x)
  {
    if xs != [] {
      FilterFull(f, xs[1..]);
      FilterShortens(f, xs[1..]);
      assert xs == [xs[0]] + xs[1..];
    }
  }

  function Map<A, B>(f: A -> B, xs: seq<A>): (ys: seq<B>)
    ensures |ys| == |xs|
  {
    if xs == [] then [] else [f(xs[0])] + Map(f, xs[1..])
  }

  /** `char::is_whitespace`: the Unicode White_Space property. */
  predicate IsWhitespace(c: char)
  {
    var n := c as int;
    || 0x09 <= n <= 0x0D || n == 0x20 || n == 0x85 || n == 0xA0 || n == 0x1680
    || 0x2000 <= n <= 0x200A || n == 0x2028 || n == 0x2029 || n == 0x202F || n == 0x205F || n == 0x3000
  }

  /** `char::is_control`: general category Cc. */
  predicate IsControl(c: char) { c as int < 0x20 || 0x7F <= c as int <= 0x9F }

  /** `s.rfind(c)`. */
  function LastIndex(s: string, c: char): (r: Option<nat>)
    ensures r.None? ==> Free(s, c)
    ensures r.Some? ==> r.value < |s| && s[r.value] == c && Free(s[r.value + 1..], c)
  {
    if s == "" then None
    else
      var n := |s| - 1;
      if s[n] == c then Some(n)
      else
        var r := LastIndex(s[..n], c);
        assert s == s[..n] + [s[n]];
        assert r.Some? ==> s[r.value + 1..] == s[..n][r.value + 1..] + [s[n]];
        r
  }

  lemma {:induction false} MapMembers<A, B>(f: A -> B, xs: seq<A>, i: nat)
    requires i < |xs|
    ensures Map(f, xs)[i] == f(xs[i])
  {
    if i > 0 {
      MapMembers(f, xs[1..], i - 1);
    }
  }

  lemma {:induction false} MapAppend<A, B>(f: A -> B, xs: seq<A>, x: A)
    ensures Map(f, xs + [x]) == Map(f, xs) + [f(x)]
  {
    if xs == [] {
      assert xs + [x] == [x];
    } else {
      MapAppend(f, xs[1..], x);
      assert (xs + [x])[1..] == xs[1..] + [x];
    }
  }

  ghost predicate Distinct<T>(xs: seq<T>) { forall i, j | 0 <= i < j < |xs| :: xs[i] != xs[j] }

  lemma {:induction false} FilterKeepsDistinct<T(!new)>(f: T -> bool, xs: seq<T>)
    requires Distinct(xs)
    ensures Distinct(Filter(f, xs))
  {
    if xs != [] {
      assert Distinct(xs[1..]);
      FilterKeepsDistinct(f, xs[1..]);
      FilterMembers(f, xs[1..]);
      assert forall x | x in xs[1..] :: x != xs[0];
      assert forall i | 0 <= i < |Filter(f, xs[1..])| :: Filter(f, xs[1..])[i] in Filter(f, xs[1..]);
    }
  }
}
