/** The agent as the objects it is built from; every method is proved against the transition of the same name. */
module AgentObjects {
  import opened Basics
  import opened RemotePrefix
  import opened Profiles
  import opened Containers
  import opened ListCaches
  import opened AgentModel

  datatype ClientCall = BuildFailed | CallFailed | Answered(client: Client, raw: seq<RawEntry>)

  /** One warm client, keyed by profile id (src/agent/remote_client.rs). */
  class RemoteClientCache {
    var slot: Option<Slot>

    constructor ()
      ensures slot == None
    {
      slot := None;
    }

    method WithClient(profile: Profile, segs: seq<string>, world: World) returns (r: ClientCall)
      modifies this
      ensures var wanted := SlotFor(old(slot), profile, world);
              if wanted.None? then r == BuildFailed && slot == old(slot)
              else
                && slot == wanted
                && r == match world.list(wanted.value.client, segs)
                        case None => CallFailed
                        case Some(raw) => Answered(wanted.value.client, raw)
    {
      var needsRebuild := slot.None? || slot.value.profileId != profile.profileId;
      if needsRebuild {
        if !Buildable(profile, world) {
          return BuildFailed;
        }
        slot := Some(Slot(profile.profileId, Client(profile)));
      }
      var answer := world.list(slot.value.client, segs);
      return match answer case None => CallFailed case Some(raw) => Answered(slot.value.client, raw);
    }

    method Clear()
      modifies this
      ensures slot == None
    {
      slot := None;
    }
  }

  class AgentState {
    var profileSet: Option<ProfileSet>
    var kek: Option<Kek>
    var activeAlias: Option<string>
    var unlockedAt: Option<nat>
    var ttl: nat
    var lastActivity: nat
    var exitRequested: bool
    const listCache: ListCache
    const clients: RemoteClientCache
    const file: ContainerFile

    constructor (ttl: nat, file: ContainerFile, now: nat)
      ensures Model() == Fresh(ttl, file.Model(), now)
      ensures this.file == file && fresh(listCache) && fresh(clients)
    {
      profileSet, kek, activeAlias, unlockedAt := None, None, None, None;
      this.ttl, lastActivity, exitRequested := ttl, now, false;
      listCache := new ListCache();
      clients := new RemoteClientCache();
      this.file := file;
    }

    ghost function Model(): Agent
      reads this, listCache, clients, file
    {
      Agent(profileSet, kek, activeAlias, unlockedAt, ttl, lastActivity, exitRequested,
            listCache.entries, clients.slot, file.Model())
    }

    method UnlockWith(pset: ProfileSet, kek: Kek, alias: string, ttlOverride: Option<nat>, now: nat)
      modifies this
      ensures Model() == AfterUnlock(old(Model()), pset, kek, alias, ttlOverride, now)
    {
      if ttlOverride.Some? {
        ttl := ttlOverride.value;
      }
      profileSet, this.kek, activeAlias := Some(pset), Some(kek), Some(alias);
      unlockedAt := Some(now);
      lastActivity := now;
    }

    method DropCompletionCaches()
      modifies listCache, clients
      ensures Model() == DropCaches(old(Model()))
    {
      listCache.Clear();
      clients.Clear();
    }

    method LockNow(now: nat)
      modifies this, listCache, clients
      ensures Model() == AfterLock(old(Model()), now)
      ensures profileSet == None && kek == None && activeAlias == None && unlockedAt == None && lastActivity == now
      ensures listCache.entries == map[] && clients.slot == None
    {
      profileSet, kek, activeAlias, unlockedAt := None, None, None, None;
      lastActivity := now;
      DropCompletionCaches();
    }

    method CheckTtlAndLock(now: nat) returns (autoLocked: bool)
      modifies this, listCache, clients
      ensures Model() == AfterTtlCheck(old(Model()), now)
      ensures autoLocked <==> TtlPassed(old(Model()), now)
    {
      autoLocked := unlockedAt.Some? && Elapsed(unlockedAt.value, now) > ttl;
      if autoLocked {
        profileSet, kek, activeAlias, unlockedAt := None, None, None, None;
        DropCompletionCaches();
      }
    }

    method Touch(now: nat)
      modifies this
      ensures Model() == Touched(old(Model()), now)
    {
      lastActivity := now;
    }

    method GetActiveProfileRenewingTtl(now: nat) returns (p: Option<Profile>)
      modifies this
      ensures Model() == Renewed(old(Model()), now) && p == ActiveProfile(old(Model()))
    {
      lastActivity := now;
      if unlockedAt.Some? {
        unlockedAt := Some(now);
      }
      if activeAlias.None? || profileSet.None? {
        return None;
      }
      return profileSet.value.Find(activeAlias.value);
    }

    method SetActiveAliasTo(alias: string, now: nat) returns (error: Option<AgentError>)
      modifies this, listCache, clients
      ensures (Model(), error) == AfterSetActiveAlias(old(Model()), alias, now)
    {
      if profileSet.None? || profileSet.value.IndexOf(alias).None? {
        return Some(if profileSet.None? then NotUnlocked else AliasNotFound);
      }
      activeAlias := Some(alias);
      lastActivity := now;
      DropCompletionCaches();
      return None;
    }

    method Persist(pset: ProfileSet, fault: SaveFault) returns (error: Option<AgentError>)
      modifies file
      ensures (Model(), error) == AfterPersist(old(Model()), pset, fault)
      ensures error.None? ==> kek.Some? && Open(file.container, kek.value) == Some(pset)
      ensures error.Some? ==> file.container == old(file.container)
      ensures old(file.trace) <= file.trace
      ensures forall i | |old(file.trace)| <= i < |file.trace| ::
                || file.trace[i].container == old(file.container)
                || (kek.Some? && file.trace[i].container == Some(Sealed(kek.value, pset)))
    {
      if kek.None? {
        return Some(NotUnlocked);
      }
      var failure := file.Save(pset, kek.value, fault);
      return if failure.None? then None else Some(IoFailure);
    }

    method UpdateOneProfile(profile: Profile, fault: SaveFault) returns (error: Option<AgentError>)
      modifies this, listCache, clients, file
      ensures (Model(), error) == AfterUpdateProfile(old(Model()), profile, fault)
    {
      if profileSet.None? {
        return Some(NotUnlocked);
      }
      var pset := profileSet.value;
      var target := pset.IndexOf(profile.alias);
      if target.None? {
        return Some(AliasNotFound);
      }
      var activeAliasWasTarget := activeAlias == Some(profile.alias);
      var snapshot := pset.(profiles := pset.profiles[target.value := profile]);
      profileSet := Some(snapshot);
      if activeAliasWasTarget {
        DropCompletionCaches();
      }
      error := Persist(snapshot, fault);
    }

    method ReplaceProfileSet(pset: ProfileSet, now: nat, fault: SaveFault) returns (error: Option<AgentError>)
      modifies this, listCache, clients, file
      ensures (Model(), error) == AfterUpdateProfileSet(old(Model()), pset, now, fault)
    {
      if profileSet.None? {
        return Some(NotUnlocked);
      }
      var stillValid := activeAlias.Some? && pset.IndexOf(activeAlias.value).Some?;
      if !stillValid {
        activeAlias := None;
      }
      profileSet := Some(pset);
      lastActivity := now;
      DropCompletionCaches();
      error := Persist(pset, fault);
    }

    method ListRemoteAt(key: CacheKey, maxResults: nat, env: Env) returns (reply: ListReply)
      modifies this, listCache, clients
      ensures (Model(), reply) == AfterListRemote(old(Model()), key, maxResults, env)
    {
      var hit := listCache.Get(key, env.wallAtGet);
      if hit.Some? {
        return Listed(hit.value);
      }
      var profile := GetActiveProfileRenewingTtl(env.now);
      if profile.None? {
        return ListLocked;
      }
      var segs := QuerySegments(key.prefix);
      var call := clients.WithClient(profile.value, segs, env.world);
      if !call.Answered? {
        return ListFailed;
      }
      var cap := EffectiveCap(maxResults);
      var truncated := |call.raw| > cap;
      var shaped := Shaped(key.kind, call.raw);
      if |shaped| > cap {
        shaped := shaped[..cap];
      }
      var entry := CacheEntry(env.wallAtPut, shaped, truncated, Fetch(call.client.builtFrom, segs, call.raw, cap));
      listCache.Put(key, entry);
      return Listed(entry);
    }

    method InvalidateRemotePrefix(target: Option<string>)
      modifies listCache
      ensures Model() == old(Model()).(cache := Without(old(listCache.entries), ChainToRoot(target)))
    {
      listCache.InvalidatePrefixToRoot(target);
    }

    /** The request arms of the server (src/agent/server.rs). */
    method DispatchRequest(req: Request, env: Env) returns (response: Response)
      modifies this, listCache, clients, file
      ensures (Model(), response) == Dispatch(old(Model()), req, env)
    {
      match req
      case Ping => response := Pong;
      case Unlock(pset, newKek, alias, ttlSecs) =>
        if pset.IndexOf(alias).None? {
          return Failed(AliasNotFound);
        }
        UnlockWith(pset, newKek, alias, if ttlSecs.Some? then Some(ttlSecs.value * 1000) else None, env.now);
        response := Unlocked;
      case GetProfile =>
        var p := GetActiveProfileRenewingTtl(env.now);
        response := if p.Some? then ProfileIs(p.value) else Failed(NotUnlocked);
      case UpdateProfile(p) =>
        var error := UpdateOneProfile(p, env.fault);
        response := Answer(error);
      case UpdateProfileSet(pset) =>
        var error := ReplaceProfileSet(pset, env.now, env.fault);
        response := Answer(error);
      case SetActiveAlias(alias) =>
        var error := SetActiveAliasTo(alias, env.now);
        response := Answer(error);
      case ListRemote(prefix, kind, maxResults) =>
        var reply := ListRemoteAt(CacheKey(prefix, kind), maxResults, env);
        match reply {
          case Listed(e) => response := RemoteList(e.entries, e.fetchedAt / 1000, e.truncated);
          case ListLocked => response := Failed(NotUnlocked);
          case ListFailed => response := Failed(IoFailure);
        }
      case InvalidateRemote(target) =>
        InvalidateRemotePrefix(target);
        response := Updated;
      case Lock =>
        LockNow(env.now);
        response := Locked;
      case Exit => response := Exited;
      case Status => response := StatusIs(profileSet.Some?, RemainingSecs(unlockedAt, ttl, env.now));
    }

    method ServeRequest(req: Request, env: Env) returns (response: Response)
      modifies this, listCache, clients, file
      ensures (Model(), response) == Served(old(Model()), req, env)
    {
      Touch(env.now);
      response := DispatchRequest(req, env);
      if req.Exit? {
        exitRequested := true;
      }
    }
  }
}
