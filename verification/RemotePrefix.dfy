/**
 Remote prefixes: the segments of a prefix, its canonical spelling and the chain of prefixes from it up to the root.
 */
module RemotePrefix {
  import opened Basics
  import opened Text

  predicate IsSegment(s: string) { s != "" && s != "." && s != ".." }

  /** The usable segments of a prefix: empty, `.` and `..` pieces are dropped. */
  function Segments(p: string): seq<string>
  {
    Filter(IsSegment, Split(Trim(p, '/'), '/'))
  }

  function IsUsable(): string -> bool { (piece: string) => piece != "" && piece != "." && piece != ".." }

  lemma {:induction false} SplitTrailing(s: string, d: char)
    ensures Split(s + [d], d) == Split(s, d) + [""]
  {
    if s == "" {
      assert ("" + [d])[1..] == "";
    } else {
      SplitTrailing(s[1..], d);
      assert (s + [d])[1..] == s[1..] + [d];
    }
  }

  lemma {:induction false} LeadingSlashesAddNothing(p: string)
    ensures Filter(IsUsable(), Split(TrimStart(p, '/'), '/')) == Filter(IsUsable(), Split(p, '/'))
  {
    if StartsWithChar(p, '/') {
      LeadingSlashesAddNothing(p[1..]);
    }
  }

  lemma {:induction false} TrailingSlashesAddNothing(p: string)
    ensures Filter(IsUsable(), Split(TrimEnd(p, '/'), '/')) == Filter(IsUsable(), Split(p, '/'))
    decreases |p|
  {
    if EndsWithChar(p, '/') {
      var q := p[..|p| - 1];
      TrailingSlashesAddNothing(q);
      assert p == q + ['/'];
      SplitTrailing(q, '/');
      FilterAppend(IsUsable(), Split(q, '/'), [""]);
    }
  }

  lemma {:induction false} SameFilter(pieces: seq<string>)
    ensures Filter(IsUsable(), pieces) == Filter(IsSegment, pieces)
  {
    if pieces != [] {
      SameFilter(pieces[1..]);
    }
  }

  /** The segments are the pieces between the slashes that are not empty, `.` or `..`; slashes at the ends are nothing. */
  lemma {:induction false} SegmentsArePieces(p: string)
    ensures Segments(p) == Filter((piece: string) => piece != "" && piece != "." && piece != "..", Split(p, '/'))
  {
    LeadingSlashesAddNothing(p);
    TrailingSlashesAddNothing(TrimStart(p, '/'));
    SameFilter(Split(Trim(p, '/'), '/'));
    FiltersAlike(IsUsable(), (piece: string) => piece != "" && piece != "." && piece != "..", Split(p, '/'));
  }

  lemma {:induction false} FiltersAlike(f: string -> bool, g: string -> bool, xs: seq<string>)
    requires forall x :: f(x) == g(x)
    ensures Filter(f, xs) == Filter(g, xs)
  {
    if xs != [] {
      FiltersAlike(f, g, xs[1..]);
    }
  }

  predicate Clean(segs: seq<string>) { forall s | s in segs :: IsSegment(s) && Free(s, '/') }

  /** A prefix is canonical when it is exactly the join of its own segments. */
  predicate Canonical(p: string) { p == Join(Segments(p), '/') }

  /** The chain of prefixes of a segment list: the longest first, the root last. */
  function Chain(segs: seq<string>): (chain: seq<Option<string>>)
    ensures |chain| == |segs| + 1
  {
    if segs == [] then [None] else [Some(Join(segs, '/'))] + Chain(segs[..|segs| - 1])
  }

  function ChainToRoot(target: Option<string>): seq<Option<string>>
  {
    match target
    case None => [None]
    case Some(p) => Chain(Segments(p))
  }

  /** `walk_to_root`: every usable prefix of `target`, one segment shorter at each step, then the root. */
  method WalkToRoot(target: Option<string>) returns (chain: seq<Option<string>>)
    ensures chain == ChainToRoot(target)
  {
    chain := [];
    if target.Some? {
      var segments := Segments(target.value);
      var i := |segments|;
      assert segments[..i] == segments;
      while i > 0
        invariant 0 <= i <= |segments|
        invariant chain + Chain(segments[..i]) == Chain(segments)
      {
        assert segments[..i][..i - 1] == segments[..i - 1];
        chain := chain + [Some(Join(segments[..i], '/'))];
        i := i - 1;
      }
      assert segments[..0] == [];
    }
    chain := chain + [None];
  }

  lemma {:induction false} JoinEnds(segs: seq<string>)
    requires Clean(segs) && segs != []
    ensures Join(segs, '/') != ""
    ensures !StartsWithChar(Join(segs, '/'), '/') && !EndsWithChar(Join(segs, '/'), '/')
  {
    assert segs[0] in segs;
    if |segs| > 1 {
      assert Clean(segs[1..]);
      JoinEnds(segs[1..]);
    }
  }

  /** Splitting undoes joining on clean segments. */
  lemma {:induction false} SegmentsOfJoin(segs: seq<string>)
    requires Clean(segs)
    ensures Segments(Join(segs, '/')) == segs
  {
    TrimmedEnds(Join(segs, '/'), '/');
    if segs != [] {
      JoinEnds(segs);
      assert AllFree(segs, '/');
      SplitJoin(segs, '/');
      FilterAll(IsSegment, segs);
    }
  }

  lemma {:induction false} SegmentsAreClean(p: string)
    ensures Clean(Segments(p))
  {
    var pieces := Split(Trim(p, '/'), '/');
    SplitIsFree(Trim(p, '/'), '/');
    FilterMembers(IsSegment, pieces);
  }

  function Normalise(p: string): string { Join(Segments(p), '/') }

  /** Normalising twice changes nothing more, and every normalised prefix is canonical. */
  lemma {:induction false} NormaliseIdempotent(p: string)
    ensures Segments(Normalise(p)) == Segments(p)
    ensures Normalise(Normalise(p)) == Normalise(p) && Canonical(Normalise(p))
  {
    SegmentsAreClean(p);
    SegmentsOfJoin(Segments(p));
  }

  /** Position `k` of the chain is the prefix with `k` segments removed; nothing occurs twice. */
  lemma {:induction false} ChainAt(segs: seq<string>, k: nat)
    requires k <= |segs|
    ensures Chain(segs)[k] == if k == |segs| then None else Some(Join(segs[..|segs| - k], '/'))
  {
    if segs != [] {
      var shorter := segs[..|segs| - 1];
      if k == 0 {
        assert segs[..|segs|] == segs;
      } else {
        ChainAt(shorter, k - 1);
        assert shorter[..|shorter| - (k - 1)] == segs[..|segs| - k];
      }
    }
  }

  lemma {:induction false} JoinInjective(a: seq<string>, b: seq<string>)
    requires Clean(a) && Clean(b) && Join(a, '/') == Join(b, '/')
    ensures a == b
  {
    SegmentsOfJoin(a);
    SegmentsOfJoin(b);
  }

  lemma {:induction false} ChainIsDistinct(segs: seq<string>, i: nat, j: nat)
    requires Clean(segs) && i < j <= |segs|
    ensures Chain(segs)[i] != Chain(segs)[j]
  {
    ChainAt(segs, i);
    ChainAt(segs, j);
    var longer, shorter := segs[..|segs| - i], segs[..|segs| - j];
    if Join(longer, '/') == Join(shorter, '/') {
      JoinInjective(longer, shorter);
      assert false;
    }
  }

  lemma {:induction false} ChainMembersAreAncestors(segs: seq<string>, q: string)
    requires Clean(segs) && Some(q) in Chain(segs)
    ensures q != "" && Canonical(q) && Segments(q) <= segs
  {
    var k :| 0 <= k < |Chain(segs)| && Chain(segs)[k] == Some(q);
    ChainAt(segs, k);
    var initial := segs[..|segs| - k];
    SegmentsOfJoin(initial);
    JoinEnds(initial);
  }

  lemma {:induction false} AncestorsAreChainMembers(segs: seq<string>, q: string)
    requires q != "" && Canonical(q) && Segments(q) <= segs
    ensures Some(q) in Chain(segs)
  {
    var k := |segs| - |Segments(q)|;
    ChainAt(segs, k);
    assert Segments(q) == segs[..|segs| - k];
    assert Segments(q) != [];
    assert Chain(segs)[k] == Some(q);
  }

  /**
   Exactly which prefixes an invalidation of `p` reaches: the canonical, non-empty ones whose segments are an initial
   part of `p`'s. A sibling that merely shares leading characters has other segments and is not in the chain.
   */
  lemma {:induction false} InChain(p: string, q: string)
    ensures Some(q) in ChainToRoot(Some(p)) <==> q != "" && Canonical(q) && Segments(q) <= Segments(p)
    ensures None in ChainToRoot(Some(p))
  {
    var segs := Segments(p);
    SegmentsAreClean(p);
    ChainAt(segs, |segs|);
    assert Chain(segs)[|segs|] == None;
    if Some(q) in Chain(segs) {
      ChainMembersAreAncestors(segs, q);
    } else if q != "" && Canonical(q) && Segments(q) <= segs {
      AncestorsAreChainMembers(segs, q);
    }
  }

  /** For a canonical prefix the chain starts at the prefix itself and continues with its parent's chain. */
  lemma {:induction false} ParentChainIsSuffix(p: string)
    requires Canonical(p) && p != ""
    ensures Segments(p) != []
    ensures var segs := Segments(p);
            var parent := segs[..|segs| - 1];
            && ChainToRoot(Some(p))[0] == Some(p)
            && ChainToRoot(Some(p))[1..] == ChainToRoot(if parent == [] then None else Some(Join(parent, '/')))
  {
    var segs := Segments(p);
    SegmentsAreClean(p);
    assert segs != [];
    SegmentsOfJoin(segs[..|segs| - 1]);
    assert Chain(segs) == [Some(Join(segs, '/'))] + Chain(segs[..|segs| - 1]);
  }
}
