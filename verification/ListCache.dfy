/** The agent's cache of remote listings (src/agent/list_cache.rs). */
module ListCaches {
  import opened Basics
  import opened Text
  import opened RemotePrefix
  import opened Profiles

  const CACHE_TTL_MS: nat := 60_000

  datatype KindFilter = FileOnly | DirectoryOnly | Both

  datatype CacheKey = CacheKey(prefix: Option<string>, kind: KindFilter)

  /** One entry as a provider lists it, and as the agent sends it on. */
  datatype RawEntry = RawEntry(name: string, size: Option<nat>, isDirectory: bool)
  datatype RemoteKind = File | Directory
  datatype ListEntry = ListEntry(name: string, size: Option<nat>, kind: RemoteKind)

  /** What the entry was made from: the profile the asking client was built from, and the provider's answer. */
  datatype Fetch = Fetch(profile: Profile, segments: seq<string>, raw: seq<RawEntry>, cap: nat)

  /** `source` is a history field: it is stored with the entry and never read by an operation. */
  datatype CacheEntry = CacheEntry(fetchedAt: nat, entries: seq<ListEntry>, truncated: bool, source: Fetch)

  type CacheMap = map<CacheKey, CacheEntry>

  /** Time since `since`, zero when the clock went backwards. */
  function Elapsed(since: nat, now: nat): nat { if now >= since then now - since else 0 }

  predicate Expired(e: CacheEntry, now: nat) { Elapsed(e.fetchedAt, now) > CACHE_TTL_MS }

  /** A lookup answers with a young entry and drops an old one. */
  function Lookup(m: CacheMap, key: CacheKey, now: nat): (r: (CacheMap, Option<CacheEntry>))
    ensures r.0 == if key in m && Expired(m[key], now) then m - {key} else m
    ensures r.1.Some? <==> key in m && !Expired(m[key], now)
    ensures r.1.Some? ==> r.1.value == m[key] && Elapsed(m[key].fetchedAt, now) <= CACHE_TTL_MS
  {
    if key !in m then (m, None)
    else if Expired(m[key], now) then (m - {key}, None)
    else (m, Some(m[key]))
  }

  function Without(m: CacheMap, chain: seq<Option<string>>): CacheMap
  {
    map k | k in m && k.prefix !in chain :: m[k]
  }

  /** `retain(|key, _| key.prefix != prefix)`. */
  function Retain(m: CacheMap, prefix: Option<string>): CacheMap
  {
    map k | k in m && k.prefix != prefix :: m[k]
  }

  lemma {:induction false} RetainNext(m: CacheMap, chain: seq<Option<string>>, prefix: Option<string>)
    ensures Retain(Without(m, chain), prefix) == Without(m, chain + [prefix])
  {
    var left, right := Retain(Without(m, chain), prefix), Without(m, chain + [prefix]);
    assert forall k :: k in left <==> k in right;
  }

  /**
   Invalidation reaches an entry exactly when its key is the root or a canonical ancestor-or-self of `target`, whatever
   its kind; every other entry is untouched.
   */
  lemma {:induction false} InvalidationIsExact(m: CacheMap, target: string, key: CacheKey)
    requires key in m
    ensures key in Without(m, ChainToRoot(Some(target))) <==>
            !(key.prefix.None? ||
              (key.prefix.value != "" && Canonical(key.prefix.value) && Segments(key.prefix.value) <= Segments(target)))
    ensures key in Without(m, ChainToRoot(Some(target))) ==> Without(m, ChainToRoot(Some(target)))[key] == m[key]
  {
    InChain(target, if key.prefix.Some? then key.prefix.value else "");
  }

  /** The directory an entry lists, as segments. */
  function DirectoryOf(key: CacheKey): seq<string>
  {
    if key.prefix.None? then [] else Segments(key.prefix.value)
  }

  predicate CanonicalKey(key: CacheKey) { key.prefix.Some? ==> key.prefix.value != "" && Canonical(key.prefix.value) }

  /**
   After an upload into `target` no listing of an ancestor directory may survive. That holds exactly when no cached
   key spells such a directory in a non-canonical way, because keys hold the prefix text as it was asked for.
   */
  lemma {:induction false} NoAncestorSurvives(m: CacheMap, target: string)
    ensures (forall k | k in Without(m, ChainToRoot(Some(target))) :: !(DirectoryOf(k) <= Segments(target))) <==>
            (forall k | k in m && DirectoryOf(k) <= Segments(target) :: CanonicalKey(k))
  {
    var kept := Without(m, ChainToRoot(Some(target)));
    forall k | k in m
      ensures k in kept && DirectoryOf(k) <= Segments(target) <==>
              DirectoryOf(k) <= Segments(target) && !CanonicalKey(k)
    {
      InvalidationIsExact(m, target, k);
    }
    if !(forall k | k in kept :: !(DirectoryOf(k) <= Segments(target))) {
      var k :| k in kept && DirectoryOf(k) <= Segments(target);
      assert k in m;
    }
    if !(forall k | k in m && DirectoryOf(k) <= Segments(target) :: CanonicalKey(k)) {
      var k :| k in m && DirectoryOf(k) <= Segments(target) && !CanonicalKey(k);
      assert k in kept;
    }
  }

  /** The hole is real: a listing asked for as `docs/` outlives an upload into `docs`. */
  lemma {:induction false} TrailingSlashEntrySurvives(e: CacheEntry)
    ensures var key := CacheKey(Some("docs/"), Both);
            && key in Without(map[key := e], ChainToRoot(Some("docs")))
            && DirectoryOf(key) == Segments("docs")
  {
    var key := CacheKey(Some("docs/"), Both);
    assert Clean(["docs"]) && Join(["docs"], '/') == "docs";
    SegmentsOfJoin(["docs"]);
    assert TrimStart("docs/", '/') == "docs/";
    assert "docs/"[..4] == "docs";
    assert Trim("docs/", '/') == "docs";
    TrimmedEnds("docs", '/');
    InvalidationIsExact(map[key := e], "docs", key);
  }

  class ListCache {
    var entries: CacheMap

    constructor ()
      ensures entries == map[]
    {
      entries := map[];
    }

    method Get(key: CacheKey, now: nat) returns (hit: Option<CacheEntry>)
      modifies this
      ensures (entries, hit) == Lookup(old(entries), key, now)
    {
      if key in entries {
        var entry := entries[key];
        if Elapsed(entry.fetchedAt, now) > CACHE_TTL_MS {
          entries := entries - {key};
          hit := None;
        } else {
          hit := Some(entry);
        }
      } else {
        hit := None;
      }
    }

    method Put(key: CacheKey, entry: CacheEntry)
      modifies this
      ensures entries == old(entries)[key := entry]
    {
      entries := entries[key := entry];
    }

    /** One pass over the map for every prefix of the chain, as `retain` does it. */
    method InvalidatePrefixToRoot(target: Option<string>)
      modifies this
      ensures entries == Without(old(entries), ChainToRoot(target))
    {
      var chain := WalkToRoot(target);
      var i := 0;
      assert entries == Without(entries, chain[..0]);
      while i < |chain|
        invariant 0 <= i <= |chain|
        invariant entries == Without(old(entries), chain[..i])
      {
        entries := Retain(entries, chain[i]);
        RetainNext(old(entries), chain[..i], chain[i]);
        assert chain[..i + 1] == chain[..i] + [chain[i]];
        i := i + 1;
      }
      assert chain[..|chain|] == chain;
    }

    method Clear()
      modifies this
      ensures entries == map[]
    {
      entries := map[];
    }
  }
}
