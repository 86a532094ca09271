/**
 The agent's state and each of its transitions as functions on values (src/agent/state.rs, src/agent/server.rs,
 src/agent/remote_client.rs). Times are milliseconds; a request reads its monotonic clock once.
 */
module AgentModel {
  import opened Basics
  import opened Text
  import opened RemotePrefix
  import opened Profiles
  import opened Containers
  import opened ListCaches

  const MAX_LIST_RESULTS: nat := 200

  /** A provider client remembers the profile it was built from. */
  datatype Client = Client(builtFrom: Profile)

  datatype Slot = Slot(profileId: string, client: Client)

  datatype Agent = Agent(
    profileSet: Option<ProfileSet>,
    kek: Option<Kek>,
    activeAlias: Option<string>,
    unlockedAt: Option<nat>,
    ttl: nat,
    lastActivity: nat,
    exitRequested: bool,
    cache: CacheMap,
    slot: Option<Slot>,
    disk: Disk)

  /** The outside at the time of a request: which clients can be built and what a client's listing returns. */
  datatype World = World(canBuild: Profile -> bool, list: (Client, seq<string>) -> Option<seq<RawEntry>>)

  datatype Env = Env(now: nat, wallAtGet: nat, wallAtPut: nat, world: World, fault: SaveFault)

  datatype Request =
    | Ping
    | Unlock(pset: ProfileSet, kek: Kek, alias: string, ttlSecs: Option<nat>)
    | GetProfile
    | UpdateProfile(profile: Profile)
    | UpdateProfileSet(newSet: ProfileSet)
    | SetActiveAlias(newAlias: string)
    | ListRemote(prefix: Option<string>, kind: KindFilter, maxResults: nat)
    | InvalidateRemote(target: Option<string>)
    | Lock
    | Exit
    | Status

  datatype AgentError = NotUnlocked | AliasNotFound | IoFailure

  datatype Response =
    | Pong
    | Unlocked
    | ProfileIs(profile: Profile)
    | Updated
    | RemoteList(entries: seq<ListEntry>, cachedAtSecs: nat, truncated: bool)
    | Locked
    | Exited
    | StatusIs(unlocked: bool, ttlRemainingSecs: Option<nat>)
    | Failed(error: AgentError)

  function Fresh(ttl: nat, disk: Disk, now: nat): Agent
  {
    Agent(None, None, None, None, ttl, now, false, map[], None, disk)
  }

  function ActiveProfile(s: Agent): Option<Profile>
  {
    if s.activeAlias.Some? && s.profileSet.Some? then s.profileSet.value.Find(s.activeAlias.value) else None
  }

  function DropCaches(s: Agent): Agent { s.(cache := map[], slot := None) }

  function Touched(s: Agent, now: nat): Agent { s.(lastActivity := now) }

  function AfterUnlock(s: Agent, pset: ProfileSet, kek: Kek, alias: string, ttl: Option<nat>, now: nat): Agent
  {
    s.(profileSet := Some(pset), kek := Some(kek), activeAlias := Some(alias), unlockedAt := Some(now),
       ttl := if ttl.Some? then ttl.value else s.ttl, lastActivity := now)
  }

  function Emptied(s: Agent): Agent
  {
    DropCaches(s.(profileSet := None, kek := None, activeAlias := None, unlockedAt := None))
  }

  function AfterLock(s: Agent, now: nat): Agent { Touched(Emptied(s), now) }

  predicate TtlPassed(s: Agent, now: nat) { s.unlockedAt.Some? && Elapsed(s.unlockedAt.value, now) > s.ttl }

  /** The tick's TTL check. It does not count as activity. */
  function AfterTtlCheck(s: Agent, now: nat): Agent { if TtlPassed(s, now) then Emptied(s) else s }

  /** Reading the active profile renews the TTL, whether or not there is one. */
  function Renewed(s: Agent, now: nat): Agent
  {
    s.(lastActivity := now, unlockedAt := if s.unlockedAt.Some? then Some(now) else None)
  }

  function AfterSetActiveAlias(s: Agent, alias: string, now: nat): (Agent, Option<AgentError>)
  {
    if s.profileSet.None? then (s, Some(NotUnlocked))
    else if !s.profileSet.value.ContainsAlias(alias) then (s, Some(AliasNotFound))
    else (DropCaches(s.(activeAlias := Some(alias), lastActivity := now)), None)
  }

  function AfterPersist(s: Agent, pset: ProfileSet, fault: SaveFault): (Agent, Option<AgentError>)
  {
    if s.kek.None? then (s, Some(NotUnlocked))
    else
      (s.(disk := AfterSave(s.disk, pset, s.kek.value, fault)), if SaveOutcome(fault).None? then None else Some(IoFailure))
  }

  function AfterUpdateProfile(s: Agent, p: Profile, fault: SaveFault): (Agent, Option<AgentError>)
  {
    if s.profileSet.None? then (s, Some(NotUnlocked))
    else if !s.profileSet.value.ContainsAlias(p.alias) then (s, Some(AliasNotFound))
    else
      var pset := s.profileSet.value.Replace(p);
      var s1 := s.(profileSet := Some(pset));
      AfterPersist(if s.activeAlias == Some(p.alias) then DropCaches(s1) else s1, pset, fault)
  }

  function AfterUpdateProfileSet(s: Agent, pset: ProfileSet, now: nat, fault: SaveFault): (Agent, Option<AgentError>)
  {
    if s.profileSet.None? then (s, Some(NotUnlocked))
    else
      var alias := if s.activeAlias.Some? && pset.ContainsAlias(s.activeAlias.value) then s.activeAlias else None;
      AfterPersist(DropCaches(s.(activeAlias := alias, profileSet := Some(pset), lastActivity := now)), pset, fault)
  }

  /** `build_remote`: the first provider decides, an unknown one never builds. */
  predicate Buildable(p: Profile, world: World)
  {
    p.providers != [] && p.providers[0].kind != ProviderKind.Unknown && world.canBuild(p)
  }

  /** The slot a listing runs under: kept while the profile id matches, rebuilt otherwise; `None` when that fails. */
  function SlotFor(slot: Option<Slot>, p: Profile, world: World): Option<Slot>
  {
    if slot.Some? && slot.value.profileId == p.profileId then slot
    else if Buildable(p, world) then Some(Slot(p.profileId, Client(p)))
    else None
  }

  predicate Admits(kind: KindFilter, e: RawEntry)
  {
    match kind
    case FileOnly => !e.isDirectory
    case DirectoryOnly => e.isDirectory
    case Both => true
  }

  function Sent(e: RawEntry): ListEntry { ListEntry(e.name, e.size, if e.isDirectory then Directory else File) }

  /** The provider's listing with the unwanted kinds left out, in the provider's order. */
  function Shaped(kind: KindFilter, raw: seq<RawEntry>): seq<ListEntry>
  {
    Map(Sent, Filter(e => Admits(kind, e), raw))
  }

  function Capped<T>(xs: seq<T>, cap: nat): (ys: seq<T>)
    ensures ys <= xs && |ys| <= cap
  {
    if |xs| > cap then xs[..cap] else xs
  }

  function EffectiveCap(maxResults: nat): (cap: nat)
    ensures cap <= MAX_LIST_RESULTS && cap <= maxResults
  {
    if maxResults < MAX_LIST_RESULTS then maxResults else MAX_LIST_RESULTS
  }

  function QuerySegments(prefix: Option<string>): seq<string> { if prefix.None? then [] else Segments(prefix.value) }

  datatype ListReply = Listed(entry: CacheEntry) | ListLocked | ListFailed

  /** The provider's answer turned into what is cached and sent; truncation is judged before the kind filter. */
  function EntryFor(kind: KindFilter, raw: seq<RawEntry>, cap: nat, p: Profile, segs: seq<string>, wall: nat): CacheEntry
  {
    CacheEntry(wall, Capped(Shaped(kind, raw), cap), |raw| > cap, Fetch(p, segs, raw, cap))
  }

  function AfterListRemote(s: Agent, key: CacheKey, maxResults: nat, env: Env): (Agent, ListReply)
  {
    var (cache, hit) := Lookup(s.cache, key, env.wallAtGet);
    var s1 := s.(cache := cache);
    if hit.Some? then (s1, Listed(hit.value))
    else
      var s2 := Renewed(s1, env.now);
      var profile := ActiveProfile(s1);
      if profile.None? then (s2, ListLocked)
      else
        var slot := SlotFor(s2.slot, profile.value, env.world);
        if slot.None? then (s2, ListFailed)
        else
          var segs := QuerySegments(key.prefix);
          var client := slot.value.client;
          var raw := env.world.list(client, segs);
          if raw.None? then (s2.(slot := slot), ListFailed)
          else
            var entry := EntryFor(key.kind, raw.value, EffectiveCap(maxResults), client.builtFrom, segs, env.wallAtPut);
            (s2.(slot := slot, cache := s2.cache[key := entry]), Listed(entry))
  }

  function RemainingSecs(unlockedAt: Option<nat>, ttl: nat, now: nat): Option<nat>
  {
    if unlockedAt.None? then None
    else
      var elapsed := Elapsed(unlockedAt.value, now);
      Some(if elapsed >= ttl then 0 else (ttl - elapsed) / 1000)
  }

  function Answer(error: Option<AgentError>): Response { if error.None? then Updated else Failed(error.value) }

  function Dispatch(s: Agent, req: Request, env: Env): (Agent, Response)
  {
    match req
    case Ping => (s, Pong)
    case Unlock(pset, kek, alias, ttlSecs) =>
      if !pset.ContainsAlias(alias) then (s, Failed(AliasNotFound))
      else
        var ttl := if ttlSecs.Some? then Some(ttlSecs.value * 1000) else None;
        (AfterUnlock(s, pset, kek, alias, ttl, env.now), Unlocked)
    case GetProfile =>
      var p := ActiveProfile(s);
      (Renewed(s, env.now), if p.Some? then ProfileIs(p.value) else Failed(NotUnlocked))
    case UpdateProfile(p) =>
      var (s', error) := AfterUpdateProfile(s, p, env.fault);
      (s', Answer(error))
    case UpdateProfileSet(pset) =>
      var (s', error) := AfterUpdateProfileSet(s, pset, env.now, env.fault);
      (s', Answer(error))
    case SetActiveAlias(alias) =>
      var (s', error) := AfterSetActiveAlias(s, alias, env.now);
      (s', Answer(error))
    case ListRemote(prefix, kind, maxResults) =>
      var (s', reply) := AfterListRemote(s, CacheKey(prefix, kind), maxResults, env);
      (s', match reply
           case Listed(e) => RemoteList(e.entries, e.fetchedAt / 1000, e.truncated)
           case ListLocked => Failed(NotUnlocked)
           case ListFailed => Failed(IoFailure))
    case InvalidateRemote(target) => (s.(cache := Without(s.cache, ChainToRoot(target))), Updated)
    case Lock => (AfterLock(s, env.now), Locked)
    case Exit => (s, Exited)
    case Status => (s, StatusIs(s.profileSet.Some?, RemainingSecs(s.unlockedAt, s.ttl, env.now)))
  }

  /** One request of a connection: it counts as activity, is answered, and `Exit` raises the exit flag. */
  function Served(s: Agent, req: Request, env: Env): (Agent, Response)
  {
    var (s', response) := Dispatch(Touched(s, env.now), req, env);
    (if req.Exit? then s'.(exitRequested := true) else s', response)
  }

  /** Everything that can happen to a running agent. `Connect` is an authorised connection before its first request. */
  datatype Event = Serve(req: Request, env: Env) | Connect(at: nat) | TtlCheck(at: nat)

  function Step(s: Agent, e: Event): Agent
  {
    match e
    case Serve(req, env) => Served(s, req, env).0
    case Connect(at) => Touched(s, at)
    case TtlCheck(at) => AfterTtlCheck(s, at)
  }

  function Run(s: Agent, events: seq<Event>): Agent
  {
    if events == [] then s else Step(Run(s, events[..|events| - 1]), events[|events| - 1])
  }
}
