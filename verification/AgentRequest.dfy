/**
 What each request does, field by field (src/agent/state.rs, src/agent/server.rs), in every run from start-up. The
 statements name fields and replies only.
 */
module AgentRequests {
  import opened Basics
  import opened Text
  import opened RemotePrefix
  import opened Profiles
  import opened Containers
  import opened ListCaches
  import opened AgentModel
  import opened AgentSafety

  /** Everything an unlocked agent knows is gone. */
  predicate Blank(s: Agent)
  {
    && s.profileSet == None && s.kek == None && s.activeAlias == None && s.unlockedAt == None
    && s.cache == map[] && s.slot == None
  }

  /** An agent starts locked, with the time to live it was given, its activity clock at the start. */
  lemma StartsLocked(ttl: nat, disk: Disk, start: nat)
    ensures var s := Fresh(ttl, disk, start);
            Blank(s) && s.ttl == ttl && s.lastActivity == start && s.disk == disk && !s.exitRequested
  {
  }

  // ----- Lock -----

  /** After a Lock in any run nothing is left in RAM, the disk is as it was, and the Lock counts as activity. */
  lemma {:induction false} LockForgets(ttl: nat, disk: Disk, start: nat, events: seq<Event>, env: Env)
    ensures var s := Run(Fresh(ttl, disk, start), events);
            var (s', r) := Served(s, Lock, env);
            && r == Locked && Blank(s') && s'.lastActivity == env.now
            && s'.disk == s.disk && s'.ttl == s.ttl && s'.exitRequested == s.exitRequested
  {
  }

  /** A tick that finds the TTL passed leaves nothing in RAM; any other tick leaves everything. */
  lemma {:induction false} TickForgetsOrKeeps(s: Agent, at: nat)
    ensures var s' := Step(s, TtlCheck(at));
            if s.unlockedAt.Some? && s.unlockedAt.value <= at && at - s.unlockedAt.value > s.ttl
            then Blank(s') && s'.disk == s.disk && s'.lastActivity == s.lastActivity && s'.ttl == s.ttl
            else s' == s
  {
  }

  /** An Unlock that names a profile its set does not have, or no Unlock at all. */
  predicate NoUnlock(e: Event)
  {
    e.Serve? && e.req.Unlock? ==> e.req.alias !in e.req.pset.Aliases()
  }

  predicate NeedsUnlock(req: Request)
  {
    req.GetProfile? || req.ListRemote? || req.UpdateProfile? || req.UpdateProfileSet? || req.SetActiveAlias?
  }

  lemma {:induction false} LockedStep(s: Agent, e: Event)
    requires Inv(s) && s.profileSet.None? && NoUnlock(e)
    ensures Inv(Step(s, e)) && Blank(Step(s, e)) && Step(s, e).disk == s.disk
  {
    StepKeepsInv(s, e);
    if e.Serve? && e.req.Unlock? {
      FindByAlias(e.req.pset, e.req.alias);
    }
    if e.Serve? && e.req.ListRemote? {
      assert s.cache == map[];
    }
  }

  lemma {:induction false} LockedRun(s: Agent, events: seq<Event>)
    requires Inv(s) && s.profileSet.None? && forall e | e in events :: NoUnlock(e)
    ensures Inv(Run(s, events)) && Run(s, events).profileSet.None? && Run(s, events).disk == s.disk
  {
    if events != [] {
      var n := |events| - 1;
      assert events[n] in events && forall e | e in events[..n] :: e in events;
      LockedRun(s, events[..n]);
      LockedStep(Run(s, events[..n]), events[n]);
    }
  }

  lemma {:induction false} LockedAnswer(s: Agent, req: Request, env: Env)
    requires Inv(s) && s.profileSet.None? && NeedsUnlock(req)
    ensures Served(s, req, env).1 == Failed(NotUnlocked) && Served(s, req, env).0.disk == s.disk
  {
    assert s.cache == map[];
  }

  /**
   A lock locks: whatever led to it, and whatever follows except an accepted Unlock, every request that needs the
   profiles is answered with NotUnlocked and the container stays as it is.
   */
  lemma {:induction false} LockLocks(ttl: nat, disk: Disk, start: nat, events: seq<Event>, lock: Env,
                                     later: seq<Event>, req: Request, env: Env)
    requires NeedsUnlock(req) && forall e | e in later :: NoUnlock(e)
    ensures var s := Run(Fresh(ttl, disk, start), events);
            var s1 := Run(Served(s, Lock, lock).0, later);
            Served(s1, req, env).1 == Failed(NotUnlocked) && Served(s1, req, env).0.disk == s.disk
  {
    var s := Run(Fresh(ttl, disk, start), events);
    RunsKeepInv(Fresh(ttl, disk, start), events);
    StepKeepsInv(s, Serve(Lock, lock));
    LockForgets(ttl, disk, start, events, lock);
    LockedRun(Served(s, Lock, lock).0, later);
    LockedAnswer(Run(Served(s, Lock, lock).0, later), req, env);
  }

  // ----- Unlock -----

  /** An Unlock is accepted iff its set has the alias; then set, key and alias are the ones sent, and the clock starts. */
  lemma {:induction false} UnlockHolds(s: Agent, pset: ProfileSet, kek: Kek, alias: string, ttlSecs: Option<nat>, env: Env)
    ensures var (s', r) := Served(s, Unlock(pset, kek, alias, ttlSecs), env);
            && (r == Unlocked <==> alias in pset.Aliases())
            && (r != Unlocked ==> r == Failed(AliasNotFound) && s' == s.(lastActivity := env.now))
            && (r == Unlocked ==>
                  && s'.profileSet == Some(pset) && s'.kek == Some(kek) && s'.activeAlias == Some(alias)
                  && s'.unlockedAt == Some(env.now) && s'.lastActivity == env.now
                  && s'.ttl == (match ttlSecs case Some(secs) => secs * 1000 case None => s.ttl)
                  && s'.cache == s.cache && s'.slot == s.slot && s'.disk == s.disk)
  {
    FindByAlias(pset, alias);
  }

  /** Left alone after such an Unlock, the agent is still unlocked at a tick iff no more than its seconds have passed. */
  lemma {:induction false} UnlockLastsItsTtl(s: Agent, pset: ProfileSet, kek: Kek, alias: string, secs: nat, env: Env, at: nat)
    requires alias in pset.Aliases() && env.now <= at
    ensures var s' := Step(Served(s, Unlock(pset, kek, alias, Some(secs)), env).0, TtlCheck(at));
            if at - env.now <= secs * 1000 then s'.profileSet == Some(pset) && s'.activeAlias == Some(alias)
            else Blank(s')
  {
    UnlockHolds(s, pset, kek, alias, Some(secs), env);
  }

  // ----- the active profile -----

  /** `p` is the first profile of the set under `alias`. */
  ghost predicate IsFirst(pset: ProfileSet, alias: string, p: Profile)
  {
    exists i | 0 <= i < |pset.profiles| ::
      pset.profiles[i] == p && p.alias == alias && forall j | 0 <= j < i :: pset.profiles[j].alias != alias
  }

  lemma {:induction false} FindIsFirst(pset: ProfileSet, alias: string)
    ensures pset.Find(alias).Some? <==> alias in pset.Aliases()
    ensures pset.Find(alias).Some? ==> IsFirst(pset, alias, pset.Find(alias).value)
  {
    FindByAlias(pset, alias);
    FirstWithAliasIsFirst(pset.profiles, alias);
  }

  /** GetProfile answers with the first profile under the active alias, or NotUnlocked; it renews both clocks. */
  lemma {:induction false} GetProfileAnswers(s: Agent, env: Env)
    requires Inv(s)
    ensures var (s', r) := Served(s, GetProfile, env);
            && (if s.activeAlias.Some?
                then r.ProfileIs? && IsFirst(s.profileSet.value, s.activeAlias.value, r.profile)
                else r == Failed(NotUnlocked))
            && s' == s.(lastActivity := env.now, unlockedAt := if s.unlockedAt.Some? then Some(env.now) else None)
  {
    if s.activeAlias.Some? {
      FindIsFirst(s.profileSet.value, s.activeAlias.value);
    }
  }

  /**
   SetActiveAlias is accepted iff the agent is unlocked and has the alias; then GetProfile answers with that profile, the
   caches are empty, and nothing else has changed.
   */
  lemma {:induction false} SetActiveAliasHolds(s: Agent, alias: string, env: Env, later: Env)
    requires Inv(s)
    ensures var (s', r) := Served(s, SetActiveAlias(alias), env);
            && (r == Updated <==> s.profileSet.Some? && alias in s.profileSet.value.Aliases())
            && (r != Updated ==>
                  && r == Failed(if s.profileSet.None? then NotUnlocked else AliasNotFound)
                  && s' == s.(lastActivity := env.now))
            && (r == Updated ==>
                  && s' == s.(activeAlias := Some(alias), lastActivity := env.now, cache := map[], slot := None)
                  && var answer := Served(s', GetProfile, later).1;
                     answer.ProfileIs? && IsFirst(s.profileSet.value, alias, answer.profile))
  {
    if s.profileSet.Some? {
      FindIsFirst(s.profileSet.value, alias);
    }
  }

  // ----- updates -----

  /**
   UpdateProfile puts the profile in the place of the first one under its alias and nothing else; the caches go iff it is
   the active one. A failing save leaves the file, not the RAM, as it was.
   */
  lemma {:induction false} UpdateProfileHolds(s: Agent, p: Profile, env: Env)
    requires Inv(s)
    ensures var (s', r) := Served(s, UpdateProfile(p), env);
            if s.profileSet.None? then r == Failed(NotUnlocked) && s' == s.(lastActivity := env.now)
            else if p.alias !in s.profileSet.value.Aliases()
            then r == Failed(AliasNotFound) && s' == s.(lastActivity := env.now)
            else
              && r == (if env.fault.NoFault? then Updated else Failed(IoFailure))
              && s'.profileSet.Some? && s'.kek == s.kek && s'.activeAlias == s.activeAlias
              && s'.unlockedAt == s.unlockedAt && s'.lastActivity == env.now
              && IsUpdate(s.profileSet.value, s'.profileSet.value, p)
              && (if s.activeAlias == Some(p.alias) then s'.cache == map[] && s'.slot == None
                  else s'.cache == s.cache && s'.slot == s.slot)
              && s'.disk.container ==
                 (if env.fault.NoFault? then Some(Sealed(s.kek.value, s'.profileSet.value)) else s.disk.container)
  {
    if s.profileSet.Some? {
      FindByAlias(s.profileSet.value, p.alias);
      if s.profileSet.value.ContainsAlias(p.alias) {
        FirstWithAliasIsFirst(s.profileSet.value.profiles, p.alias);
      }
    }
  }

  /** `after` is `before` with `p` where the first profile of its alias was. */
  ghost predicate IsUpdate(before: ProfileSet, after: ProfileSet, p: Profile)
  {
    && after.schemaVersion == before.schemaVersion
    && exists i | 0 <= i < |before.profiles| ::
         && before.profiles[i].alias == p.alias && (forall j | 0 <= j < i :: before.profiles[j].alias != p.alias)
         && after.profiles == before.profiles[i := p]
  }

  /** UpdateProfileSet replaces the whole set; the active alias stays iff the new set has it; the caches go. */
  lemma {:induction false} UpdateProfileSetHolds(s: Agent, pset: ProfileSet, env: Env)
    requires Inv(s)
    ensures var (s', r) := Served(s, UpdateProfileSet(pset), env);
            if s.profileSet.None? then r == Failed(NotUnlocked) && s' == s.(lastActivity := env.now)
            else
              && r == (if env.fault.NoFault? then Updated else Failed(IoFailure))
              && s'.profileSet == Some(pset) && s'.kek == s.kek && s'.unlockedAt == s.unlockedAt
              && s'.activeAlias ==
                 (if s.activeAlias.Some? && s.activeAlias.value in pset.Aliases() then s.activeAlias else None)
              && s'.cache == map[] && s'.slot == None && s'.lastActivity == env.now
              && s'.disk.container ==
                 (if env.fault.NoFault? then Some(Sealed(s.kek.value, pset)) else s.disk.container)
  {
    if s.activeAlias.Some? {
      FindByAlias(pset, s.activeAlias.value);
    }
  }

  // ----- the rest -----

  /** Status tells whether a set is held and how many whole seconds the TTL has left; it changes nothing but activity. */
  lemma {:induction false} StatusReports(s: Agent, env: Env)
    requires Inv(s)
    ensures var (s', r) := Served(s, Status, env);
            && s' == s.(lastActivity := env.now)
            && r.StatusIs? && (r.unlocked <==> s.profileSet.Some?) && (r.ttlRemainingSecs.Some? <==> r.unlocked)
            && (r.unlocked && s.unlockedAt.value <= env.now ==>
                  var left := r.ttlRemainingSecs.value * 1000;
                  var passed := env.now - s.unlockedAt.value;
                  if passed <= s.ttl then left <= s.ttl - passed < left + 1000 else left == 0)
  {
  }

  /** Exit and Ping: one raises the flag, both change nothing else but activity. */
  lemma {:induction false} ExitRaisesTheFlag(s: Agent, env: Env)
    ensures Served(s, Exit, env) == (s.(lastActivity := env.now, exitRequested := true), Exited)
    ensures Served(s, Ping, env) == (s.(lastActivity := env.now), Pong)
  {
  }

  /** No other request, tick or connection raises the flag, and nothing lowers it. */
  lemma {:induction false} OnlyExitRaisesTheFlag(s: Agent, e: Event)
    ensures Step(s, e).exitRequested <==> s.exitRequested || (e.Serve? && e.req.Exit?)
  {
  }

  /** A prefix an invalidation of `target` does not reach. */
  predicate Spared(target: Option<string>, prefix: Option<string>)
  {
    && prefix.Some?
    && (prefix.value == "" || !Canonical(prefix.value)
        || !(Segments(prefix.value) <= if target.Some? then Segments(target.value) else []))
  }

  lemma {:induction false} KeptIffSpared(m: CacheMap, target: Option<string>, key: CacheKey)
    requires key in m
    ensures key in Without(m, ChainToRoot(target)) <==> Spared(target, key.prefix)
  {
    if target.Some? {
      InvalidationIsExact(m, target.value, key);
    } else if key.prefix.Some? && Segments(key.prefix.value) == [] {
      assert Join(Segments(key.prefix.value), '/') == "";
    }
  }

  /** Invalidation drops the root and every canonical prefix of the target, of every kind, and changes nothing else. */
  lemma {:induction false} InvalidateHolds(s: Agent, target: Option<string>, env: Env)
    ensures var (s', r) := Served(s, InvalidateRemote(target), env);
            && r == Updated && s' == s.(lastActivity := env.now, cache := s'.cache)
            && (forall k :: k in s'.cache <==> k in s.cache && Spared(target, k.prefix))
            && (forall k | k in s'.cache :: s'.cache[k] == s.cache[k])
  {
    forall k | k in s.cache ensures k in Without(s.cache, ChainToRoot(target)) <==> Spared(target, k.prefix) {
      KeptIffSpared(s.cache, target, k);
    }
  }

  /** Every request and connection counts as activity; a tick does not. */
  lemma {:induction false} ActivityOf(s: Agent, e: Event)
    ensures Step(s, e).lastActivity ==
            match e
            case Serve(_, env) => env.now
            case Connect(at) => at
            case TtlCheck(_) => s.lastActivity
  {
  }

  // ----- listings -----

  /** A listing is answered from the cache iff there is an entry for prefix and kind not older than a minute. */
  lemma {:induction false} AnsweredFromCache(s: Agent, prefix: Option<string>, kind: KindFilter, max: nat, env: Env)
    ensures var key := CacheKey(prefix, kind);
            var (s', r) := Served(s, ListRemote(prefix, kind, max), env);
            key in s.cache && (env.wallAtGet <= s.cache[key].fetchedAt || env.wallAtGet - s.cache[key].fetchedAt <= 60_000) ==>
              && s' == s.(lastActivity := env.now)
              && r == RemoteList(s.cache[key].entries, s.cache[key].fetchedAt / 1000, s.cache[key].truncated)
  {
  }

  /**
   Otherwise the provider of the active profile is asked: through the warm client when its profile id is the active
   profile's, through one newly built else; no active profile, a client that cannot be built and a failing call are
   errors.
   */
  lemma {:induction false} AskedOfProvider(s: Agent, prefix: Option<string>, kind: KindFilter, max: nat, env: Env)
    requires Inv(s)
    requires var key := CacheKey(prefix, kind);
             key in s.cache ==> env.wallAtGet > s.cache[key].fetchedAt + 60_000
    ensures var r := Served(s, ListRemote(prefix, kind, max), env).1;
            if s.activeAlias.None? then r == Failed(NotUnlocked)
            else
              var p := s.profileSet.value.Find(s.activeAlias.value).value;
              var warm := s.slot.Some? && s.slot.value.profileId == p.profileId;
              if !warm && (p.providers == [] || p.providers[0].kind == ProviderKind.Unknown || !env.world.canBuild(p))
              then r == Failed(IoFailure)
              else
                var client := if warm then s.slot.value.client else Client(p);
                var segs := if prefix.None? then [] else Segments(prefix.value);
                if env.world.list(client, segs).None? then r == Failed(IoFailure)
                else r.RemoteList? && r.cachedAtSecs == env.wallAtPut / 1000
  {
    if s.activeAlias.Some? {
      FindIsFirst(s.profileSet.value, s.activeAlias.value);
    }
  }

  /** An entry goes out under its own name and size, as a directory iff it is one. */
  predicate StandsFor(x: ListEntry, e: RawEntry)
  {
    x.name == e.name && x.size == e.size && (x.kind.Directory? <==> e.isDirectory) && (x.kind.File? <==> !e.isDirectory)
  }

  /** The kind asked for. */
  predicate AskedFor(kind: KindFilter, e: RawEntry)
  {
    (kind.FileOnly? ==> !e.isDirectory) && (kind.DirectoryOnly? ==> e.isDirectory)
  }

  /** Positions of `raw`, ascending, one for each sent entry, skipping none of the kind asked for before the last. */
  ghost predicate Picks(kind: KindFilter, raw: seq<RawEntry>, entries: seq<ListEntry>, at: seq<nat>)
  {
    && |at| == |entries|
    && (forall i | 0 <= i < |at| :: at[i] < |raw| && StandsFor(entries[i], raw[at[i]]) && AskedFor(kind, raw[at[i]]))
    && (forall i, j | 0 <= i < j < |at| :: at[i] < at[j])
    && (forall i, k | 0 <= i < |at| && 0 <= k < at[i] && AskedFor(kind, raw[k]) :: k in at)
  }

  ghost predicate PicksAll(kind: KindFilter, raw: seq<RawEntry>, at: seq<nat>)
  {
    forall k: nat | k < |raw| && AskedFor(kind, raw[k]) :: k in at
  }

  lemma {:induction false} ShapedPicks(kind: KindFilter, raw: seq<RawEntry>) returns (at: seq<nat>)
    ensures Picks(kind, raw, Shaped(kind, raw), at) && PicksAll(kind, raw, at)
    decreases |raw|
  {
    at := [];
    if raw != [] {
      var n := |raw| - 1;
      at := ShapedPicks(kind, raw[..n]);
      ShapedLast(kind, raw);
      if Admits(kind, raw[n]) {
        PicksOneMore(kind, raw, Shaped(kind, raw[..n]), at);
        at := at + [n];
      } else {
        PicksNoMore(kind, raw, Shaped(kind, raw[..n]), at);
      }
    }
  }

  lemma ShapedLast(kind: KindFilter, raw: seq<RawEntry>)
    requires raw != []
    ensures var n := |raw| - 1;
            Shaped(kind, raw) == if Admits(kind, raw[n]) then Shaped(kind, raw[..n]) + [Sent(raw[n])] else Shaped(kind, raw[..n])
  {
    var n := |raw| - 1;
    var wanted := e => Admits(kind, e);
    assert raw == raw[..n] + [raw[n]];
    FilterAppend(wanted, raw[..n], [raw[n]]);
    assert Filter(wanted, [raw[n]]) == if Admits(kind, raw[n]) then [raw[n]] else [];
    if Admits(kind, raw[n]) {
      MapAppend(Sent, Filter(wanted, raw[..n]), raw[n]);
    } else {
      assert Filter(wanted, raw[..n]) + [] == Filter(wanted, raw[..n]);
    }
  }

  lemma PicksNoMore(kind: KindFilter, raw: seq<RawEntry>, entries: seq<ListEntry>, at: seq<nat>)
    requires raw != [] && !Admits(kind, raw[|raw| - 1])
    requires Picks(kind, raw[..|raw| - 1], entries, at) && PicksAll(kind, raw[..|raw| - 1], at)
    ensures Picks(kind, raw, entries, at) && PicksAll(kind, raw, at)
  {
    var n := |raw| - 1;
    assert forall k | 0 <= k < n :: raw[..n][k] == raw[k];
    assert !AskedFor(kind, raw[n]);
  }

  lemma PicksOneMore(kind: KindFilter, raw: seq<RawEntry>, entries: seq<ListEntry>, at: seq<nat>)
    requires raw != [] && Admits(kind, raw[|raw| - 1])
    requires Picks(kind, raw[..|raw| - 1], entries, at) && PicksAll(kind, raw[..|raw| - 1], at)
    ensures Picks(kind, raw, entries + [Sent(raw[|raw| - 1])], at + [|raw| - 1])
    ensures PicksAll(kind, raw, at + [|raw| - 1])
  {
    var n: nat := |raw| - 1;
    var more: seq<nat> := at + [n];
    assert more[|at|] == n;
    forall k: nat | k < |raw| && AskedFor(kind, raw[k]) ensures k in more {
      if k < n {
        assert raw[..n][k] == raw[k];
        assert k in at;
      }
    }
    forall i | 0 <= i < |at| ensures at[i] < n && raw[..n][at[i]] == raw[at[i]] {
    }
  }

  lemma {:induction false} FirstPicks(kind: KindFilter, raw: seq<RawEntry>, entries: seq<ListEntry>, at: seq<nat>, n: nat)
    requires Picks(kind, raw, entries, at) && n <= |entries|
    ensures Picks(kind, raw, entries[..n], at[..n])
  {
    forall i, k | 0 <= i < n && 0 <= k < at[i] && AskedFor(kind, raw[k]) ensures k in at[..n] {
      var j :| 0 <= j < |at| && at[j] == k;
      assert j < i;
      assert at[..n][j] == k;
    }
  }

  lemma {:induction false} EntryPicks(key: CacheKey, e: CacheEntry) returns (at: seq<nat>)
    requires EntrySound(key, e)
    ensures Picks(key.kind, e.source.raw, e.entries, at)
    ensures !e.truncated ==> PicksAll(key.kind, e.source.raw, at)
  {
    var all := ShapedPicks(key.kind, e.source.raw);
    var shaped := Shaped(key.kind, e.source.raw);
    var n := |e.entries|;
    FirstPicks(key.kind, e.source.raw, shaped, all, n);
    assert e.entries == shaped[..n];
    at := all[..n];
    if !e.truncated {
      assert at == all;
    }
  }

  /** As many of the wanted entries as the maximum allows, from the front; cut short when the provider had more in all. */
  ghost predicate IsFreshReply(kind: KindFilter, r: Response, raw: seq<RawEntry>, max: nat)
  {
    && r.RemoteList? && |r.entries| <= max && (r.truncated <==> |raw| > max)
    && exists at: seq<nat> :: Picks(kind, raw, r.entries, at) && (|r.entries| < max ==> PicksAll(kind, raw, at))
  }

  lemma {:induction false} CappedPicks(kind: KindFilter, raw: seq<RawEntry>, cap: nat) returns (at: seq<nat>)
    ensures var entries := AgentModel.Capped(Shaped(kind, raw), cap);
            && |entries| <= cap && Picks(kind, raw, entries, at) && (|entries| < cap ==> PicksAll(kind, raw, at))
  {
    var all := ShapedPicks(kind, raw);
    var shaped := Shaped(kind, raw);
    var n := |AgentModel.Capped(shaped, cap)|;
    FirstPicks(kind, raw, shaped, all, n);
    assert AgentModel.Capped(shaped, cap) == shaped[..n];
    at := all[..n];
    if n < cap {
      assert at == all;
    }
  }

  /** What an unexpired entry does not answer is answered afresh, two hundred entries at the most, and kept. */
  lemma {:induction false} FreshReplies(s: Agent, prefix: Option<string>, kind: KindFilter, max: nat, env: Env)
    requires Inv(s) && s.activeAlias.Some?
    requires var key := CacheKey(prefix, kind);
             key in s.cache ==> env.wallAtGet > s.cache[key].fetchedAt + 60_000
    ensures var (s', r) := Served(s, ListRemote(prefix, kind, max), env);
            var key := CacheKey(prefix, kind);
            r.RemoteList? ==>
              && s'.slot.Some?
              && (var answer := env.world.list(s'.slot.value.client, if prefix.None? then [] else Segments(prefix.value));
                  answer.Some? && IsFreshReply(kind, r, answer.value, if max < 200 then max else 200))
              && key in s'.cache && s'.cache[key].entries == r.entries && s'.cache[key].truncated == r.truncated
              && s'.cache[key].fetchedAt == env.wallAtPut
              && (forall k | k in s.cache && k != key :: k in s'.cache && s'.cache[k] == s.cache[k])
  {
    var (s', r) := Served(s, ListRemote(prefix, kind, max), env);
    if r.RemoteList? {
      var raw := env.world.list(s'.slot.value.client, QuerySegments(prefix)).value;
      var at := CappedPicks(kind, raw, EffectiveCap(max));
    }
  }

  /** The reply to a listing, as a selection of what the provider answered when the entry was filled. */
  ghost predicate IsSelection(kind: KindFilter, r: Response, raw: seq<RawEntry>)
  {
    && r.RemoteList? && |r.entries| <= 200
    && exists at: seq<nat> :: Picks(kind, raw, r.entries, at) && (!r.truncated ==> PicksAll(kind, raw, at))
  }

  /** What the provider of profile `p` answered for the prefix at one of the listing requests of `events`. */
  ghost predicate WasAnswered(events: seq<Event>, prefix: Option<string>, kind: KindFilter, p: Profile, raw: seq<RawEntry>)
  {
    exists i | 0 <= i < |events| ::
      && events[i].Serve? && events[i].req.ListRemote? && events[i].req.prefix == prefix && events[i].req.kind == kind
      && events[i].env.world.list(Client(p), if prefix.None? then [] else Segments(prefix.value)) == Some(raw)
  }

  /**
   In every run every reply to a listing is an order-preserving selection of one answer of a provider in that run: each
   entry under its own name, size and kind, only the kind asked for, from the front without gaps, and all of that kind
   unless the reply says it is cut short.
   */
  lemma {:induction false} EveryReplyIsASelection(ttl: nat, disk: Disk, start: nat, events: seq<Event>,
                                                  prefix: Option<string>, kind: KindFilter, max: nat, env: Env)
    ensures var ask := Serve(ListRemote(prefix, kind, max), env);
            var (s', r) := Served(Run(Fresh(ttl, disk, start), events), ask.req, env);
            r.RemoteList? ==>
              exists p, raw :: WasAnswered(events + [ask], prefix, kind, p, raw) && IsSelection(kind, r, raw)
  {
    var s0 := Fresh(ttl, disk, start);
    var s := Run(s0, events);
    var key := CacheKey(prefix, kind);
    var ask := Serve(ListRemote(prefix, kind, max), env);
    var (s', r) := Served(s, ask.req, env);
    if r.RemoteList? {
      var all := events + [ask];
      assert all[..|all| - 1] == events && Run(s0, all) == Step(s, ask) == s';
      RunsKeepCacheSound(s0, all);
      ReplyIsCached(s, key, max, env);
      EveryEntryWasFetched(s0, all, key);
      var e := s'.cache[key];
      var i :| 0 <= i < |all| && FilledBy(key, e, all[i]) && StandsSince(s0, all, i, key, e);
      var at := EntryPicks(key, e);
      assert IsSelection(kind, r, e.source.raw);
      assert WasAnswered(all, prefix, kind, e.source.profile, e.source.raw);
    }
  }

  lemma {:induction false} ReplyIsCached(s: Agent, key: CacheKey, max: nat, env: Env)
    ensures var (s', r) := Served(s, ListRemote(key.prefix, key.kind, max), env);
            r.RemoteList? ==>
              && key in s'.cache && r.entries == s'.cache[key].entries && r.truncated == s'.cache[key].truncated
              && r.cachedAtSecs == s'.cache[key].fetchedAt / 1000
  {
    assert CacheKey(key.prefix, key.kind) == key;
  }
}
