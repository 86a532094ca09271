/** What every step of the agent keeps, and what therefore holds in every run. */
module AgentSafety {
  import opened Basics
  import opened Text
  import opened Profiles
  import opened Containers
  import opened ListCaches
  import opened AgentModel

  // ----- locked means empty -----

  /** The secrets are there together or not at all, and nothing remote is remembered without an active profile. */
  ghost predicate Inv(s: Agent)
  {
    && (s.profileSet.Some? <==> s.kek.Some?)
    && (s.profileSet.Some? <==> s.unlockedAt.Some?)
    && (s.activeAlias.Some? ==> s.profileSet.Some? && s.profileSet.value.ContainsAlias(s.activeAlias.value))
    && (s.slot.Some? ==> s.activeAlias.Some?)
    && (forall k | k in s.cache :: s.activeAlias.Some?)
  }

  lemma {:induction false} ListingKeepsInv(s: Agent, key: CacheKey, max: nat, env: Env)
    requires Inv(s)
    ensures Inv(AfterListRemote(s, key, max, env).0)
  {
  }

  lemma {:induction false} UpdateKeepsInv(s: Agent, p: Profile, fault: SaveFault)
    requires Inv(s)
    ensures Inv(AfterUpdateProfile(s, p, fault).0)
  {
    if s.profileSet.Some? && s.profileSet.value.ContainsAlias(p.alias) {
      ReplaceKeepsTheRest(s.profileSet.value, p);
      if s.activeAlias.Some? && s.activeAlias.value != p.alias {
        ReplaceKeepsOthers(s.profileSet.value, p, s.activeAlias.value);
      }
    }
  }

  lemma {:induction false} StepKeepsInv(s: Agent, e: Event)
    requires Inv(s)
    ensures Inv(Step(s, e))
  {
    if e.Serve? {
      var t := Touched(s, e.env.now);
      match e.req
      case UpdateProfile(p) => UpdateKeepsInv(t, p, e.env.fault);
      case ListRemote(prefix, kind, max) => ListingKeepsInv(t, CacheKey(prefix, kind), max, e.env);
      case _ =>
    }
  }

  lemma {:induction false} RunsKeepInv(s: Agent, events: seq<Event>)
    requires Inv(s)
    ensures Inv(Run(s, events))
  {
    if events != [] {
      RunsKeepInv(s, events[..|events| - 1]);
      StepKeepsInv(Run(s, events[..|events| - 1]), events[|events| - 1]);
    }
  }

  /** In every run from start-up: a locked agent holds nothing, and answers no listing and no profile. */
  lemma {:induction false} LockedMeansEmpty(ttl: nat, disk: Disk, now: nat, events: seq<Event>, key: CacheKey, max: nat, env: Env)
    ensures var s := Run(Fresh(ttl, disk, now), events);
            && Inv(s)
            && (s.profileSet.None? ==>
                  && s.kek.None? && s.activeAlias.None? && s.unlockedAt.None? && s.cache == map[] && s.slot.None?
                  && Served(s, ListRemote(key.prefix, key.kind, max), env).1 == Failed(NotUnlocked)
                  && Served(s, GetProfile, env).1 == Failed(NotUnlocked))
  {
    RunsKeepInv(Fresh(ttl, disk, now), events);
  }

  // ----- cache coherence -----

  /** Every cached listing was fetched with the profile that is active now; so was the warm client built. */
  ghost predicate Coherent(s: Agent)
  {
    && (forall k | k in s.cache :: ActiveProfile(s) == Some(s.cache[k].source.profile))
    && (s.slot.Some? ==> ActiveProfile(s) == Some(s.slot.value.client.builtFrom))
    && (s.slot.Some? ==> s.slot.value.profileId == s.slot.value.client.builtFrom.profileId)
  }

  /** The one thing `unlock` does not do is drop the caches, so an Unlock is harmless only under this guard. */
  ghost predicate Benign(s: Agent, e: Event)
  {
    e.Serve? && e.req.Unlock? && e.req.pset.ContainsAlias(e.req.alias) ==>
      || (s.cache == map[] && s.slot.None?)
      || e.req.pset.Find(e.req.alias) == ActiveProfile(s)
  }

  lemma {:induction false} ListingKeepsCoherence(s: Agent, key: CacheKey, max: nat, env: Env)
    requires Inv(s) && Coherent(s)
    ensures Coherent(AfterListRemote(s, key, max, env).0)
    ensures ActiveProfile(AfterListRemote(s, key, max, env).0) == ActiveProfile(s)
  {
    var (cache, hit) := Lookup(s.cache, key, env.wallAtGet);
    var s2 := Renewed(s.(cache := cache), env.now);
    assert ActiveProfile(s2) == ActiveProfile(s) && Coherent(s2);
    var profile := ActiveProfile(s);
    if hit.None? && profile.Some? && SlotFor(s2.slot, profile.value, env.world).Some? {
      FilledSlotIsCoherent(s2, profile.value, env.world);
      var slot := SlotFor(s2.slot, profile.value, env.world);
      var raw := env.world.list(slot.value.client, QuerySegments(key.prefix));
      if raw.Some? {
        var entry := EntryFor(key.kind, raw.value, EffectiveCap(max), slot.value.client.builtFrom,
                              QuerySegments(key.prefix), env.wallAtPut);
        NewEntryIsCoherent(s2.(slot := slot), key, entry);
      }
    }
  }

  lemma FilledSlotIsCoherent(s: Agent, p: Profile, world: World)
    requires Coherent(s) && ActiveProfile(s) == Some(p) && SlotFor(s.slot, p, world).Some?
    ensures Coherent(s.(slot := SlotFor(s.slot, p, world)))
    ensures SlotFor(s.slot, p, world).value.client.builtFrom == p
  {
  }

  lemma NewEntryIsCoherent(s: Agent, key: CacheKey, entry: CacheEntry)
    requires Coherent(s) && ActiveProfile(s) == Some(entry.source.profile)
    ensures Coherent(s.(cache := s.cache[key := entry]))
  {
  }

  lemma {:induction false} UpdateKeepsCoherence(s: Agent, p: Profile, fault: SaveFault)
    requires Inv(s) && Coherent(s)
    ensures Coherent(AfterUpdateProfile(s, p, fault).0)
  {
    if s.profileSet.Some? && s.profileSet.value.ContainsAlias(p.alias) && s.activeAlias.Some? {
      if s.activeAlias.value != p.alias {
        ReplaceKeepsOthers(s.profileSet.value, p, s.activeAlias.value);
      }
    }
  }

  /** One step out of a coherent state: coherence is lost by an unguarded Unlock and by nothing else. */
  lemma {:induction false} CoherentStep(s: Agent, e: Event)
    requires Inv(s) && Coherent(s)
    ensures Coherent(Step(s, e)) <==> Benign(s, e)
  {
    if e.Serve? {
      var t := Touched(s, e.env.now);
      assert Coherent(t) && Inv(t);
      match e.req
      case ListRemote(prefix, kind, max) => ListingKeepsCoherence(t, CacheKey(prefix, kind), max, e.env);
      case UpdateProfile(p) => UpdateKeepsCoherence(t, p, e.env.fault);
      case Unlock(pset, kek, alias, ttl) =>
        if pset.ContainsAlias(alias) {
          assert ActiveProfile(Step(s, e)) == pset.Find(alias);
          if s.cache != map[] {
            var k :| k in s.cache;
          }
        }
      case _ =>
    }
  }

  ghost predicate CoherentUpTo(s: Agent, events: seq<Event>)
  {
    forall k | 0 <= k <= |events| :: Coherent(Run(s, events[..k]))
  }

  ghost predicate BenignUpTo(s: Agent, events: seq<Event>)
  {
    forall k | 0 <= k < |events| :: Benign(Run(s, events[..k]), events[k])
  }

  lemma CoherentUpToNext(s: Agent, events: seq<Event>)
    requires events != []
    ensures CoherentUpTo(s, events) <==> CoherentUpTo(s, events[..|events| - 1]) && Coherent(Run(s, events))
  {
    var n := |events| - 1;
    assert events[..n + 1] == events;
    if CoherentUpTo(s, events) {
      assert Coherent(Run(s, events[..n + 1]));
      forall k | 0 <= k <= n ensures Coherent(Run(s, events[..n][..k])) {
        assert events[..n][..k] == events[..k];
        assert Coherent(Run(s, events[..k]));
      }
    }
    if CoherentUpTo(s, events[..n]) && Coherent(Run(s, events)) {
      forall k | 0 <= k <= n + 1 ensures Coherent(Run(s, events[..k])) {
        if k <= n {
          assert events[..n][..k] == events[..k];
          assert Coherent(Run(s, events[..n][..k]));
        }
      }
    }
  }

  lemma BenignUpToNext(s: Agent, events: seq<Event>)
    requires events != []
    ensures var n := |events| - 1;
            BenignUpTo(s, events) <==> BenignUpTo(s, events[..n]) && Benign(Run(s, events[..n]), events[n])
  {
    var n := |events| - 1;
    if BenignUpTo(s, events) {
      forall k | 0 <= k < n ensures Benign(Run(s, events[..n][..k]), events[..n][k]) {
        assert events[..n][..k] == events[..k];
        assert Benign(Run(s, events[..k]), events[k]);
      }
    }
    if BenignUpTo(s, events[..n]) && Benign(Run(s, events[..n]), events[n]) {
      forall k | 0 <= k < n + 1 ensures Benign(Run(s, events[..k]), events[k]) {
        if k < n {
          assert events[..n][..k] == events[..k];
          assert Benign(Run(s, events[..n][..k]), events[..n][k]);
        }
      }
    }
  }

  /** Over whole runs, in both directions: the agent is coherent throughout iff every Unlock met its guard. */
  lemma {:induction false} CoherentThroughout(s: Agent, events: seq<Event>)
    requires Inv(s) && Coherent(s)
    ensures CoherentUpTo(s, events) <==> BenignUpTo(s, events)
    decreases |events|
  {
    if events == [] {
      assert events[..0] == [];
    } else {
      var before := events[..|events| - 1];
      CoherentThroughout(s, before);
      CoherentUpToNext(s, events);
      BenignUpToNext(s, events);
      if CoherentUpTo(s, before) {
        assert before[..|before|] == before;
        RunsKeepInv(s, before);
        CoherentStep(Run(s, before), events[|events| - 1]);
      }
    }
  }

  /** Unlocking while locked, or again with the same active profile, always meets the guard. */
  lemma {:induction false} UnlockWhileLockedIsBenign(s: Agent, e: Event)
    requires Inv(s)
    requires e.Serve? && e.req.Unlock?
    requires s.profileSet.None? || e.req.pset.Find(e.req.alias) == ActiveProfile(s)
    ensures Benign(s, e)
  {
  }

  /** Event `k` is no Unlock, or one that finds the agent locked or keeps its active profile. */
  ghost predicate Careful(s: Agent, e: Event)
  {
    e.Serve? && e.req.Unlock? ==> s.profileSet.None? || e.req.pset.Find(e.req.alias) == ActiveProfile(s)
  }

  /** From start-up: with careful unlocks only, listings and client are those of the active profile at every point. */
  lemma {:induction false} CarefulRunsAreCoherent(ttl: nat, disk: Disk, start: nat, events: seq<Event>)
    requires var s0 := Fresh(ttl, disk, start);
             forall k | 0 <= k < |events| :: Careful(Run(s0, events[..k]), events[k])
    ensures CoherentUpTo(Fresh(ttl, disk, start), events)
  {
    var s0 := Fresh(ttl, disk, start);
    forall k | 0 <= k < |events| ensures Benign(Run(s0, events[..k]), events[k]) {
      RunsKeepInv(s0, events[..k]);
      if events[k].Serve? && events[k].req.Unlock? {
        UnlockWhileLockedIsBenign(Run(s0, events[..k]), events[k]);
      }
    }
    CoherentThroughout(s0, events);
  }

  /** Without the guard it really breaks: unlock another profile over a warm cache and its listing is served. */
  lemma {:induction false} UnlockOverWarmCacheServesOldListing(s: Agent, key: CacheKey, pset: ProfileSet, kek: Kek, alias: string,
                                            max: nat, env: Env)
    requires Inv(s) && Coherent(s)
    requires key in s.cache && !Expired(s.cache[key], env.wallAtGet)
    requires pset.ContainsAlias(alias) && pset.Find(alias) != ActiveProfile(s)
    ensures var (s1, r1) := Served(s, Unlock(pset, kek, alias, None), env);
            var (s2, r2) := Served(s1, ListRemote(key.prefix, key.kind, max), env);
            && r1 == Unlocked
            && r2 == RemoteList(s.cache[key].entries, s.cache[key].fetchedAt / 1000, s.cache[key].truncated)
            && ActiveProfile(s2) != Some(s.cache[key].source.profile)
  {
    assert CacheKey(key.prefix, key.kind) == key;
  }

  // ----- what a listing says -----

  /** An entry is a capped, kind-filtered image of the provider's answer it was filled from. */
  ghost predicate EntrySound(key: CacheKey, e: CacheEntry)
  {
    && e.source.cap <= MAX_LIST_RESULTS
    && e.source.segments == QuerySegments(key.prefix)
    && |e.entries| <= e.source.cap
    && e.entries <= Shaped(key.kind, e.source.raw)
    && (e.truncated <==> |e.source.raw| > e.source.cap)
    && (!e.truncated ==> e.entries == Shaped(key.kind, e.source.raw))
  }

  ghost predicate CacheSound(s: Agent) { forall k | k in s.cache :: EntrySound(k, s.cache[k]) }

  lemma {:induction false} FilledEntryIsSound(key: CacheKey, raw: seq<RawEntry>, max: nat, p: Profile, wall: nat)
    ensures EntrySound(key, EntryFor(key.kind, raw, EffectiveCap(max), p, QuerySegments(key.prefix), wall))
  {
    FilterShortens(e => Admits(key.kind, e), raw);
  }

  lemma {:induction false} ListingKeepsCacheSound(s: Agent, key: CacheKey, max: nat, env: Env)
    requires CacheSound(s)
    ensures CacheSound(AfterListRemote(s, key, max, env).0)
  {
    var profile := ActiveProfile(s);
    if profile.Some? && SlotFor(s.slot, profile.value, env.world).Some? {
      var client := SlotFor(s.slot, profile.value, env.world).value.client;
      var raw := env.world.list(client, QuerySegments(key.prefix));
      if raw.Some? {
        FilledEntryIsSound(key, raw.value, max, client.builtFrom, env.wallAtPut);
      }
    }
  }

  lemma {:induction false} StepKeepsCacheSound(s: Agent, e: Event)
    requires CacheSound(s)
    ensures CacheSound(Step(s, e))
  {
    if e.Serve? {
      var t := Touched(s, e.env.now);
      match e.req
      case ListRemote(prefix, kind, max) => ListingKeepsCacheSound(t, CacheKey(prefix, kind), max, e.env);
      case _ =>
    }
  }

  lemma {:induction false} RunsKeepCacheSound(s: Agent, events: seq<Event>)
    requires CacheSound(s)
    ensures CacheSound(Run(s, events))
  {
    if events != [] {
      RunsKeepCacheSound(s, events[..|events| - 1]);
      StepKeepsCacheSound(Run(s, events[..|events| - 1]), events[|events| - 1]);
    }
  }

  /**
   Every reply to a listing in any run, hit or miss: it shows an entry that is in the cache afterwards, at most 200
   long, an initial part of the filtered provider listing and the whole of it unless flagged; a hit is within the TTL.
   */
  lemma {:induction false} EveryListingReply(ttl: nat, disk: Disk, start: nat, events: seq<Event>, key: CacheKey, max: nat, env: Env)
    ensures var s := Run(Fresh(ttl, disk, start), events);
            var (s', r) := AfterListRemote(s, key, max, env);
            r.Listed? ==>
              && key in s'.cache && s'.cache[key] == r.entry
              && EntrySound(key, r.entry) && |r.entry.entries| <= MAX_LIST_RESULTS
              && (if key in s.cache && !Expired(s.cache[key], env.wallAtGet)
                  then r.entry == s.cache[key] && Elapsed(r.entry.fetchedAt, env.wallAtGet) <= CACHE_TTL_MS
                  else r.entry.fetchedAt == env.wallAtPut && |r.entry.entries| <= max
                       && s'.slot.Some? && r.entry.source.profile == s'.slot.value.client.builtFrom
                       && env.world.list(s'.slot.value.client, r.entry.source.segments) == Some(r.entry.source.raw))
  {
    var s := Run(Fresh(ttl, disk, start), events);
    RunsKeepCacheSound(Fresh(ttl, disk, start), events);
    ListingKeepsCacheSound(s, key, max, env);
  }

  /** A hit was filled under somebody else's limit, so it can be longer than asked for: exactly when the entry is. */
  lemma {:induction false} HitIgnoresRequestedMaximum(s: Agent, key: CacheKey, max: nat, env: Env)
    ensures var r := AfterListRemote(s, key, max, env).1;
            r.Listed? ==>
              (|r.entry.entries| > max <==>
               key in s.cache && !Expired(s.cache[key], env.wallAtGet) && |s.cache[key].entries| > max)
  {
  }

  /** The flag is judged before the kind filter: it is a false alarm exactly when the filtered listing fits the cap. */
  lemma {:induction false} TruncationFalseAlarm(key: CacheKey, raw: seq<RawEntry>, max: nat, p: Profile, wall: nat)
    ensures var e := EntryFor(key.kind, raw, EffectiveCap(max), p, QuerySegments(key.prefix), wall);
            e.truncated && e.entries == Shaped(key.kind, raw) <==>
            |Shaped(key.kind, raw)| <= EffectiveCap(max) < |raw|
  {
  }

  /** A listing that fails fills nothing; the map is unchanged unless the lookup met an expired entry for the key. */
  lemma {:induction false} FailedListingIsNotCached(s: Agent, key: CacheKey, max: nat, env: Env)
    requires !AfterListRemote(s, key, max, env).1.Listed?
    ensures var s' := AfterListRemote(s, key, max, env).0;
            && s'.cache == s.cache - {key}
            && (s'.cache == s.cache <==> key !in s.cache)
            && (key in s.cache ==> Expired(s.cache[key], env.wallAtGet))
  {
    assert key !in s.cache ==> s.cache - {key} == s.cache;
  }

  /** Where a cached entry came from: some earlier listing request of the run, answered by the provider then. */
  ghost predicate FilledBy(key: CacheKey, entry: CacheEntry, e: Event)
  {
    && e.Serve? && e.req.ListRemote? && CacheKey(e.req.prefix, e.req.kind) == key
    && entry.fetchedAt == e.env.wallAtPut
    && entry.source.cap == EffectiveCap(e.req.maxResults)
    && e.env.world.list(Client(entry.source.profile), entry.source.segments) == Some(entry.source.raw)
  }

  /** One step: an entry that was not there before was filled by this very event. */
  lemma {:induction false} NewEntryWasFetched(s: Agent, e: Event, key: CacheKey)
    requires key in Step(s, e).cache
    requires key !in s.cache || s.cache[key] != Step(s, e).cache[key]
    ensures FilledBy(key, Step(s, e).cache[key], e)
  {
    if e.Serve? {
      match e.req
      case ListRemote(prefix, kind, max) =>
        NewListingEntry(Touched(s, e.env.now), CacheKey(prefix, kind), max, e.env, key);
      case UpdateProfile(p) => UpdateAddsNoEntry(Touched(s, e.env.now), p, e.env.fault, key);
      case _ =>
    }
  }

  lemma UpdateAddsNoEntry(s: Agent, p: Profile, fault: SaveFault, key: CacheKey)
    requires key in AfterUpdateProfile(s, p, fault).0.cache
    ensures key in s.cache && s.cache[key] == AfterUpdateProfile(s, p, fault).0.cache[key]
  {
  }

  lemma NewListingEntry(s: Agent, asked: CacheKey, max: nat, env: Env, key: CacheKey)
    requires key in AfterListRemote(s, asked, max, env).0.cache
    requires key !in s.cache || s.cache[key] != AfterListRemote(s, asked, max, env).0.cache[key]
    ensures key == asked
    ensures FilledBy(key, AfterListRemote(s, asked, max, env).0.cache[key], Serve(ListRemote(asked.prefix, asked.kind, max), env))
  {
  }

  /** From event `i` on the entry stood under its key, so every later listing of the key was answered with it. */
  ghost predicate StandsSince(s: Agent, events: seq<Event>, i: nat, key: CacheKey, entry: CacheEntry)
  {
    forall k | i < k <= |events| :: key in Run(s, events[..k]).cache && Run(s, events[..k]).cache[key] == entry
  }

  /** Every cached entry was filled by some listing request of the run, the latest one to fill its key. */
  lemma {:induction false} EveryEntryWasFetched(s: Agent, events: seq<Event>, key: CacheKey)
    requires s.cache == map[]
    requires key in Run(s, events).cache
    ensures exists i | 0 <= i < |events| ::
              && FilledBy(key, Run(s, events).cache[key], events[i])
              && StandsSince(s, events, i, key, Run(s, events).cache[key])
  {
    var n := |events| - 1;
    var before := events[..n];
    var s0 := Run(s, before);
    var entry := Run(s, events).cache[key];
    if key in s0.cache && s0.cache[key] == entry {
      EveryEntryWasFetched(s, before, key);
      var i :| 0 <= i < |before| && FilledBy(key, entry, before[i]) && StandsSince(s, before, i, key, entry);
      StandsNext(s, events, i, key, entry);
    } else {
      NewEntryWasFetched(s0, events[n], key);
      assert events[..n + 1] == events;
      assert StandsSince(s, events, n, key, entry);
    }
  }

  lemma StandsNext(s: Agent, events: seq<Event>, i: nat, key: CacheKey, entry: CacheEntry)
    requires events != [] && i < |events| - 1 && StandsSince(s, events[..|events| - 1], i, key, entry)
    requires key in Run(s, events).cache && Run(s, events).cache[key] == entry
    ensures StandsSince(s, events, i, key, entry)
  {
    var n := |events| - 1;
    forall k | i < k <= |events|
      ensures key in Run(s, events[..k]).cache && Run(s, events[..k]).cache[key] == entry
    {
      if k <= n {
        assert events[..n][..k] == events[..k];
      } else {
        assert events[..k] == events;
      }
    }
  }

  // ----- durable update -----

  /** `UpdateProfile` answered with Updated: RAM and disk agree, and only the named profile changed. */
  lemma {:induction false} UpdateIsDurable(s: Agent, p: Profile, fault: SaveFault)
    requires Inv(s)
    ensures var (s', error) := AfterUpdateProfile(s, p, fault);
            && (error.None? <==> s.profileSet.Some? && s.profileSet.value.ContainsAlias(p.alias) && fault.NoFault?)
            && (error.None? ==> s'.kek.Some? && Open(s'.disk.container, s'.kek.value) == s'.profileSet)
            && (error.Some? ==> s'.disk.container == s.disk.container)
            && (s'.profileSet.Some? <==> s.profileSet.Some?)
            && (s.profileSet.Some? ==>
                  && s'.profileSet.value.Aliases() == s.profileSet.value.Aliases()
                  && |s'.profileSet.value.profiles| == |s.profileSet.value.profiles|
                  && forall a: string | a != p.alias :: s'.profileSet.value.Find(a) == s.profileSet.value.Find(a))
            && (error == Some(AliasNotFound) || error == Some(NotUnlocked) ==> s' == s)
  {
    if s.profileSet.Some? && s.profileSet.value.ContainsAlias(p.alias) {
      ReplaceKeepsTheRest(s.profileSet.value, p);
      forall a: string | a != p.alias ensures s.profileSet.value.Replace(p).Find(a) == s.profileSet.value.Find(a) {
        ReplaceKeepsOthers(s.profileSet.value, p, a);
      }
    }
  }
}
