/** A stable sort by a given order, standing for the standard library's `sort_by`, and the orders it is used with. */
module Sorting {
  import opened Text

  function Insert<T>(x: T, xs: seq<T>, le: (T, T) -> bool): seq<T>
  {
    if xs == [] then [x]
    else if le(x, xs[0]) then [x] + xs
    else [xs[0]] + Insert(x, xs[1..], le)
  }

  function Sort<T>(xs: seq<T>, le: (T, T) -> bool): seq<T>
  {
    if xs == [] then [] else Insert(xs[0], Sort(xs[1..], le), le)
  }

  ghost predicate TotalPreorder<T(!new)>(le: (T, T) -> bool)
  {
    && (forall x, y :: le(x, y) || le(y, x))
    && (forall x, y, z :: le(x, y) && le(y, z) ==> le(x, z))
  }

  ghost predicate Sorted<T>(xs: seq<T>, le: (T, T) -> bool) { forall i, j | 0 <= i < j < |xs| :: le(xs[i], xs[j]) }

  lemma {:induction false} InsertPermutes<T>(x: T, xs: seq<T>, le: (T, T) -> bool)
    ensures multiset(Insert(x, xs, le)) == multiset{x} + multiset(xs)
  {
    if xs != [] && !le(x, xs[0]) {
      InsertPermutes(x, xs[1..], le);
      assert xs == [xs[0]] + xs[1..];
    }
  }

  lemma {:induction false} SortPermutes<T>(xs: seq<T>, le: (T, T) -> bool)
    ensures multiset(Sort(xs, le)) == multiset(xs)
    ensures |Sort(xs, le)| == |xs|
    ensures forall x :: x in Sort(xs, le) <==> x in xs
  {
    if xs != [] {
      SortPermutes(xs[1..], le);
      InsertPermutes(xs[0], Sort(xs[1..], le), le);
      assert xs == [xs[0]] + xs[1..];
    }
    assert |multiset(Sort(xs, le))| == |multiset(xs)|;
    forall x ensures x in Sort(xs, le) <==> x in xs {
      assert x in Sort(xs, le) <==> x in multiset(Sort(xs, le));
      assert x in xs <==> x in multiset(xs);
    }
  }

  lemma {:induction false} DistinctCounts<T>(xs: seq<T>, x: T)
    requires Distinct(xs)
    ensures multiset(xs)[x] <= 1
    decreases |xs|
  {
    if xs != [] {
      var n := |xs| - 1;
      DistinctCounts(xs[..n], x);
      assert xs == xs[..n] + [xs[n]];
      assert forall i | 0 <= i < n :: xs[..n][i] == xs[i] != xs[n];
    }
  }

  lemma {:induction false} SortKeepsDistinct<T(!new)>(xs: seq<T>, le: (T, T) -> bool)
    requires Distinct(xs)
    ensures Distinct(Sort(xs, le))
  {
    SortPermutes(xs, le);
    var s := Sort(xs, le);
    forall i, j | 0 <= i < j < |s| ensures s[i] != s[j] {
      assert s == s[..i] + [s[i]] + s[i + 1..j] + [s[j]] + s[j + 1..];
      DistinctCounts(xs, s[i]);
      assert multiset(s)[s[i]] <= 1;
    }
  }

  lemma {:induction false} InsertKeepsSorted<T(!new)>(x: T, xs: seq<T>, le: (T, T) -> bool)
    requires TotalPreorder(le) && Sorted(xs, le)
    ensures Sorted(Insert(x, xs, le), le)
  {
    if xs != [] && !le(x, xs[0]) {
      var rest := Insert(x, xs[1..], le);
      InsertKeepsSorted(x, xs[1..], le);
      InsertPermutes(x, xs[1..], le);
      assert le(xs[0], x);
      forall j | 0 <= j < |rest| ensures le(xs[0], rest[j]) {
        assert rest[j] in multiset(rest);
        assert rest[j] == x || rest[j] in xs[1..];
      }
    }
  }

  lemma {:induction false} SortSorts<T(!new)>(xs: seq<T>, le: (T, T) -> bool)
    requires TotalPreorder(le)
    ensures Sorted(Sort(xs, le), le)
  {
    if xs != [] {
      SortSorts(xs[1..], le);
      InsertKeepsSorted(xs[0], Sort(xs[1..], le), le);
    }
  }

  /** The elements that tie with `a`. */
  function Ties<T>(a: T, xs: seq<T>, le: (T, T) -> bool): seq<T> { Filter(x => le(a, x) && le(x, a), xs) }

  lemma {:induction false} TiesUnfold<T>(a: T, x: T, xs: seq<T>, le: (T, T) -> bool)
    ensures Ties(a, [x] + xs, le) == (if le(a, x) && le(x, a) then [x] else []) + Ties(a, xs, le)
  {
    assert ([x] + xs)[1..] == xs;
  }

  lemma {:induction false} InsertIsStable<T(!new)>(a: T, x: T, xs: seq<T>, le: (T, T) -> bool)
    requires TotalPreorder(le) && Sorted(xs, le)
    ensures Ties(a, Insert(x, xs, le), le) == Ties(a, [x] + xs, le)
  {
    if xs == [] {
      assert [x] + xs == [x];
    } else if !le(x, xs[0]) {
      assert Sorted(xs[1..], le);
      InsertIsStable(a, x, xs[1..], le);
      TiesUnfold(a, x, xs, le);
      TiesUnfold(a, x, xs[1..], le);
      TiesUnfold(a, xs[0], xs[1..], le);
      TiesUnfold(a, xs[0], Insert(x, xs[1..], le), le);
      assert [xs[0]] + xs[1..] == xs;
      assert Insert(x, xs, le) == [xs[0]] + Insert(x, xs[1..], le);
      assert !(le(x, a) && le(a, xs[0]));
      var rest := Ties(a, xs[1..], le);
      if le(a, x) && le(x, a) {
        assert Ties(a, Insert(x, xs, le), le) == [x] + rest == Ties(a, [x] + xs, le);
      }
    }
  }

  /** Ties keep the order they came in. */
  lemma {:induction false} SortIsStable<T(!new)>(a: T, xs: seq<T>, le: (T, T) -> bool)
    requires TotalPreorder(le)
    ensures Ties(a, Sort(xs, le), le) == Ties(a, xs, le)
  {
    if xs != [] {
      SortIsStable(a, xs[1..], le);
      SortSorts(xs[1..], le);
      InsertIsStable(a, xs[0], Sort(xs[1..], le), le);
      assert xs == [xs[0]] + xs[1..];
      assert ([xs[0]] + Sort(xs[1..], le))[1..] == Sort(xs[1..], le);
    }
  }

  /** `str` order: by code point, which is also the order of the UTF-8 bytes. */
  predicate StringLe(a: string, b: string)
  {
    a == "" || (b != "" && (a[0] < b[0] || (a[0] == b[0] && StringLe(a[1..], b[1..]))))
  }

  /** Up to position `k` the two agree, and there `a` ends or has the lower character. */
  predicate DecidedAt(a: string, b: string, k: nat)
  {
    k <= |a| && k <= |b| && a[..k] == b[..k] && (k == |a| || (k < |b| && a[k] < b[k]))
  }

  /** The order is that of the first difference; an initial part comes before the whole. */
  lemma {:induction false} StringLeIsFirstDifference(a: string, b: string)
    ensures StringLe(a, b) <==> exists k: nat :: DecidedAt(a, b, k)
  {
    if a == "" {
      assert DecidedAt(a, b, 0);
    } else if b != "" {
      StringLeIsFirstDifference(a[1..], b[1..]);
      if a[0] == b[0] {
        if k: nat :| DecidedAt(a[1..], b[1..], k) {
          assert a[..k + 1] == [a[0]] + a[1..][..k] && b[..k + 1] == [b[0]] + b[1..][..k];
          assert DecidedAt(a, b, k + 1);
        }
        if k: nat :| DecidedAt(a, b, k) {
          assert k > 0;
          assert a[1..][..k - 1] == a[..k][1..] && b[1..][..k - 1] == b[..k][1..];
          assert DecidedAt(a[1..], b[1..], k - 1);
        }
      } else {
        assert a[0] < b[0] ==> DecidedAt(a, b, 0);
        assert forall k: nat | k > 0 && DecidedAt(a, b, k) :: a[..k][0] == b[..k][0];
      }
    }
  }

  lemma {:induction false} StringLeTotal(a: string, b: string)
    ensures StringLe(a, b) || StringLe(b, a)
    ensures StringLe(a, b) && StringLe(b, a) ==> a == b
  {
    if a != "" && b != "" && a[0] == b[0] {
      StringLeTotal(a[1..], b[1..]);
      assert a == [a[0]] + a[1..] && b == [b[0]] + b[1..];
    }
  }

  lemma {:induction false} StringLeTransitive(a: string, b: string, c: string)
    requires StringLe(a, b) && StringLe(b, c)
    ensures StringLe(a, c)
  {
    if a != "" && a[0] == b[0] == c[0] {
      StringLeTransitive(a[1..], b[1..], c[1..]);
    }
  }

  lemma StringOrder()
    ensures TotalPreorder(StringLe)
  {
    forall a, b ensures StringLe(a, b) || StringLe(b, a) {
      StringLeTotal(a, b);
    }
    forall a, b, c | StringLe(a, b) && StringLe(b, c) ensures StringLe(a, c) {
      StringLeTransitive(a, b, c);
    }
  }

  /** `Vec<String>` order. */
  predicate PathLe(a: seq<string>, b: seq<string>)
  {
    a == [] || (b != [] && StringLe(a[0], b[0]) && (a[0] == b[0] ==> PathLe(a[1..], b[1..])))
  }

  /** Up to component `k` the two agree, and there `a` ends or has the lesser component. */
  predicate PathDecidedAt(a: seq<string>, b: seq<string>, k: nat)
  {
    k <= |a| && k <= |b| && a[..k] == b[..k] && (k == |a| || (k < |b| && a[k] != b[k] && StringLe(a[k], b[k])))
  }

  lemma {:induction false} PathLeIsFirstDifference(a: seq<string>, b: seq<string>)
    ensures PathLe(a, b) <==> exists k: nat :: PathDecidedAt(a, b, k)
  {
    if a == [] {
      assert PathDecidedAt(a, b, 0);
    } else if b != [] {
      PathLeIsFirstDifference(a[1..], b[1..]);
      if a[0] == b[0] {
        StringLeTotal(a[0], b[0]);
        if k: nat :| PathDecidedAt(a[1..], b[1..], k) {
          assert a[..k + 1] == [a[0]] + a[1..][..k] && b[..k + 1] == [b[0]] + b[1..][..k];
          assert PathDecidedAt(a, b, k + 1);
        }
        if k: nat :| PathDecidedAt(a, b, k) {
          assert k > 0;
          assert a[1..][..k - 1] == a[..k][1..] && b[1..][..k - 1] == b[..k][1..];
          assert PathDecidedAt(a[1..], b[1..], k - 1);
        }
      } else {
        assert StringLe(a[0], b[0]) ==> PathDecidedAt(a, b, 0);
        assert forall k: nat | k > 0 && PathDecidedAt(a, b, k) :: a[..k][0] == b[..k][0];
      }
    }
  }

  lemma {:induction false} PathLeTotal(a: seq<string>, b: seq<string>)
    ensures PathLe(a, b) || PathLe(b, a)
  {
    if a != [] && b != [] {
      StringLeTotal(a[0], b[0]);
      if a[0] == b[0] {
        PathLeTotal(a[1..], b[1..]);
      }
    }
  }

  lemma {:induction false} PathLeTransitive(a: seq<string>, b: seq<string>, c: seq<string>)
    requires PathLe(a, b) && PathLe(b, c)
    ensures PathLe(a, c)
  {
    if a != [] {
      StringLeTransitive(a[0], b[0], c[0]);
      StringLeTotal(a[0], b[0]);
      StringLeTotal(b[0], c[0]);
      if a[0] == c[0] {
        assert a[0] == b[0];
        PathLeTransitive(a[1..], b[1..], c[1..]);
      }
    }
  }
}
