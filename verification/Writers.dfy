/**
 The programs that change the container through the agent or beside it: CLI commands that push a refreshed provider back
 (src/commands/mod.rs), and the TUI's add and delete, which write the file first and tell the agent after
 (tui/src/cli.rs).
 */
module Writers {
  import opened Basics
  import opened Text
  import opened RemotePrefix
  import opened Profiles
  import opened Containers
  import opened ListCaches
  import opened AgentModel
  import opened AgentSafety
  import opened AgentObjects
  import Sidecars

  // ----- the CLI command -----

  const EXIT_OK := 0
  const EXIT_USAGE := 2
  const EXIT_AGENT_UNREACHABLE := 5
  const EXIT_PROVIDER_ERROR := 9
  const EXIT_AGENT_LOCKED := 10

  /** The first provider of the same kind takes the refreshed value. */
  function WithProvider(ps: seq<Provider>, p: Provider): (qs: seq<Provider>)
    ensures |qs| == |ps|
    decreases |ps|
  {
    if ps == [] then []
    else if ps[0].kind == p.kind then [p] + ps[1..]
    else [ps[0]] + WithProvider(ps[1..], p)
  }

  /** `i` is the first position of the refreshed kind. */
  ghost predicate IsFirstOfKind(ps: seq<Provider>, kind: ProviderKind, i: nat)
  {
    i < |ps| && ps[i].kind == kind && forall j | 0 <= j < i :: ps[j].kind != kind
  }

  lemma {:induction false} NoneIsReplaced(ps: seq<Provider>, p: Provider)
    requires forall i | 0 <= i < |ps| :: ps[i].kind != p.kind
    ensures WithProvider(ps, p) == ps
    decreases |ps|
  {
    if ps != [] {
      NoneIsReplaced(ps[1..], p);
    }
  }

  /** At the first position of its kind the refreshed provider stands; every other is as it was. */
  lemma {:induction false} FirstOfKindIsReplaced(ps: seq<Provider>, p: Provider, i: nat)
    requires IsFirstOfKind(ps, p.kind, i)
    ensures WithProvider(ps, p) == ps[i := p]
    decreases |ps|
  {
    if i > 0 {
      assert ps[0].kind != p.kind;
      FirstOfKindIsReplaced(ps[1..], p, i - 1);
      assert ps[i := p] == [ps[0]] + ps[1..][i - 1 := p];
    }
  }

  /** The refreshed list: `p` in the first position of its kind, all else as it was. */
  ghost predicate IsReplaced(ps: seq<Provider>, p: Provider, qs: seq<Provider>)
  {
    && ((forall i | 0 <= i < |ps| :: ps[i].kind != p.kind) ==> qs == ps)
    && (forall i: nat | IsFirstOfKind(ps, p.kind, i) :: qs == ps[i := p])
  }

  lemma {:induction false} WithProviderReplaces(ps: seq<Provider>, p: Provider)
    ensures IsReplaced(ps, p, WithProvider(ps, p))
  {
    if forall i | 0 <= i < |ps| :: ps[i].kind != p.kind {
      NoneIsReplaced(ps, p);
    }
    forall i: nat | IsFirstOfKind(ps, p.kind, i) ensures WithProvider(ps, p) == ps[i := p] {
      FirstOfKindIsReplaced(ps, p, i);
    }
  }

  /** One of the two cases applies. */
  lemma {:induction false} FirstOfKindExists(ps: seq<Provider>, kind: ProviderKind)
    ensures (exists i | 0 <= i < |ps| :: ps[i].kind == kind) ==> exists i: nat :: IsFirstOfKind(ps, kind, i)
    decreases |ps|
  {
    if ps != [] {
      var n := |ps| - 1;
      FirstOfKindExists(ps[..n], kind);
      if i: nat :| IsFirstOfKind(ps[..n], kind, i) {
        assert IsFirstOfKind(ps, kind, i);
      } else if ps[n].kind == kind {
        assert forall j | 0 <= j < n :: ps[..n][j] == ps[j];
        assert IsFirstOfKind(ps, kind, n);
      }
    }
  }

  method ReplaceProvider(ps: seq<Provider>, p: Provider) returns (qs: seq<Provider>)
    ensures qs == WithProvider(ps, p) && IsReplaced(ps, p, qs)
  {
    WithProviderReplaces(ps, p);
    qs := ps;
    var i := 0;
    while i < |qs|
      invariant 0 <= i <= |ps| && qs == ps
      invariant forall j | 0 <= j < i :: ps[j].kind != p.kind
    {
      if qs[i].kind == p.kind {
        qs := qs[i := p];
        FirstOfKindIsReplaced(ps, p, i);
        return;
      }
      i := i + 1;
    }
    NoneIsReplaced(ps, p);
  }

  /** How far a command gets before it can ask for the profile. */
  datatype Contact = NoPaths | StaleAgentStopped | NoSocket | NotAccepting | RpcLost(served: bool) | Connected

  function LockedExit(scriptable: bool): int { if scriptable then EXIT_AGENT_LOCKED else EXIT_AGENT_UNREACHABLE }

  /** Reaching the agent, fetching the active profile and building its remote. */
  function FetchEffect(s: Agent, contact: Contact, scriptable: bool, env: Env): (Agent, Result<Profile, int>)
  {
    match contact
    case NoPaths => (s, Err(EXIT_USAGE))
    case StaleAgentStopped => (s, Err(EXIT_AGENT_UNREACHABLE))
    case NoSocket => (s, Err(LockedExit(scriptable)))
    case NotAccepting => (s, Err(EXIT_AGENT_UNREACHABLE))
    case RpcLost(served) => (if served then Served(s, GetProfile, env).0 else s, Err(EXIT_AGENT_UNREACHABLE))
    case Connected =>
      var (s1, r1) := Served(s, GetProfile, env);
      (s1, if !r1.ProfileIs? then Err(LockedExit(scriptable))
           else if !Buildable(r1.profile, env.world) then Err(EXIT_PROVIDER_ERROR)
           else Ok(r1.profile))
  }

  function AfterRefresh(s: Agent, fetched: Profile, refreshed: Option<Provider>, env: Env): Agent
  {
    if refreshed.None? then s
    else
      var updated := fetched.(providers := WithProvider(fetched.providers, refreshed.value));
      Served(s, UpdateProfile(updated), env).0
  }

  function AfterInvalidation(s: Agent, target: Option<string>, env: Env): (s': Agent)
    ensures s'.cache == Without(s.cache, ChainToRoot(target))
  {
    Served(s, InvalidateRemote(target), env).0
  }

  /** What follows the operation: push what the provider refreshed, invalidate after success. */
  function FinishEffect(s: Agent, fetched: Profile, operationExit: int, refreshed: Option<Provider>,
                        invalidate: Option<Option<string>>, envs: (Env, Env)): Agent
  {
    var s1 := AfterRefresh(s, fetched, refreshed, envs.0);
    if operationExit == EXIT_OK && invalidate.Some? then AfterInvalidation(s1, invalidate.value, envs.1) else s1
  }

  /** One command around an operation that ends with `operationExit`. */
  function CommandEffect(s: Agent, contact: Contact, scriptable: bool, operationExit: int, refreshed: Option<Provider>,
                         invalidate: Option<Option<string>>, env: Env, envs: (Env, Env)): (Agent, int)
  {
    var (s1, fetched) := FetchEffect(s, contact, scriptable, env);
    match fetched
    case Err(exit) => (s1, exit)
    case Ok(profile) => (FinishEffect(s1, profile, operationExit, refreshed, invalidate, envs), operationExit)
  }

  method FetchProfile(agent: AgentState, contact: Contact, scriptable: bool, env: Env)
    returns (r: Result<Profile, int>)
    modifies agent, agent.listCache, agent.clients, agent.file
    ensures (agent.Model(), r) == FetchEffect(old(agent.Model()), contact, scriptable, env)
  {
    match contact
    case NoPaths => return Err(EXIT_USAGE);
    case StaleAgentStopped => return Err(EXIT_AGENT_UNREACHABLE);
    case NoSocket => return Err(LockedExit(scriptable));
    case NotAccepting => return Err(EXIT_AGENT_UNREACHABLE);
    case RpcLost(served) =>
      if served {
        var _ := agent.ServeRequest(GetProfile, env);
      }
      return Err(EXIT_AGENT_UNREACHABLE);
    case Connected =>
      var reply := agent.ServeRequest(GetProfile, env);
      if !reply.ProfileIs? {
        return Err(LockedExit(scriptable));
      }
      return if Buildable(reply.profile, env.world) then Ok(reply.profile) else Err(EXIT_PROVIDER_ERROR);
  }

  method FinishCommand(agent: AgentState, profile: Profile, exit: int, refreshed: Option<Provider>,
                       invalidate: Option<Option<string>>, envs: (Env, Env))
    modifies agent, agent.listCache, agent.clients, agent.file
    ensures agent.Model() == FinishEffect(old(agent.Model()), profile, exit, refreshed, invalidate, envs)
  {
    if refreshed.Some? {
      var providers := ReplaceProvider(profile.providers, refreshed.value);
      var _ := agent.ServeRequest(UpdateProfile(profile.(providers := providers)), envs.0);
    }
    if exit == EXIT_OK && invalidate.Some? {
      var _ := agent.ServeRequest(InvalidateRemote(invalidate.value), envs.1);
    }
  }

  method RunWithRemote(agent: AgentState, contact: Contact, scriptable: bool, operationExit: int,
                       refreshed: Option<Provider>, invalidate: Option<Option<string>>, env: Env, envs: (Env, Env))
    returns (exit: int)
    modifies agent, agent.listCache, agent.clients, agent.file
    ensures (agent.Model(), exit) ==
            CommandEffect(old(agent.Model()), contact, scriptable, operationExit, refreshed, invalidate, env, envs)
  {
    var fetched := FetchProfile(agent, contact, scriptable, env);
    if fetched.Err? {
      return fetched.error;
    }
    exit := operationExit;
    FinishCommand(agent, fetched.value, exit, refreshed, invalidate, envs);
  }

  /** The fetched profile with the refreshed provider in the first position of its kind. */
  ghost predicate IsRefreshed(fetched: Profile, refreshed: Provider, p: Profile)
  {
    && p.profileId == fetched.profileId && p.alias == fetched.alias && p.settings == fetched.settings
    && IsReplaced(fetched.providers, refreshed, p.providers)
  }

  /** A refresh pushed to an agent that is unlocked and has the alias is found under it, in RAM and on disk. */
  lemma {:induction false} RefreshArrives(s: Agent, fetched: Profile, refreshed: Provider, env: Env)
    requires Inv(s) && s.profileSet.Some? && fetched.alias in s.profileSet.value.Aliases() && env.fault.NoFault?
    ensures var s' := AfterRefresh(s, fetched, Some(refreshed), env);
            && s'.profileSet.Some? && s'.kek.Some? && Open(s'.disk.container, s'.kek.value) == s'.profileSet
            && s'.profileSet.value.Find(fetched.alias).Some?
            && IsRefreshed(fetched, refreshed, s'.profileSet.value.Find(fetched.alias).value)
            && forall a: string | a != fetched.alias :: s'.profileSet.value.Find(a) == s.profileSet.value.Find(a)
  {
    var p := fetched.(providers := WithProvider(fetched.providers, refreshed));
    WithProviderReplaces(fetched.providers, refreshed);
    FindByAlias(s.profileSet.value, fetched.alias);
    ReplaceKeepsTheRest(s.profileSet.value, p);
    forall a: string | a != fetched.alias ensures s.profileSet.value.Replace(p).Find(a) == s.profileSet.value.Find(a) {
      ReplaceKeepsOthers(s.profileSet.value, p, a);
    }
  }

  /** The whole command: what the operation refreshed of the active profile is in RAM and on disk when it ends. */
  lemma {:induction false} CommandKeepsTheRefresh(s: Agent, scriptable: bool, operationExit: int, refreshed: Provider,
                                                  invalidate: Option<Option<string>>, env: Env, envs: (Env, Env))
    requires Inv(s) && ActiveProfile(s).Some? && Buildable(ActiveProfile(s).value, env.world) && envs.0.fault.NoFault?
    ensures var fetched := ActiveProfile(s).value;
            var (s', exit) := CommandEffect(s, Connected, scriptable, operationExit, Some(refreshed), invalidate, env, envs);
            && exit == operationExit
            && s'.profileSet.Some? && s'.kek.Some? && Open(s'.disk.container, s'.kek.value) == s'.profileSet
            && s'.profileSet.value.Find(fetched.alias).Some?
            && IsRefreshed(fetched, refreshed, s'.profileSet.value.Find(fetched.alias).value)
  {
    var fetched := ActiveProfile(s).value;
    FindByAlias(s.profileSet.value, s.activeAlias.value);
    StepKeepsInv(s, Serve(GetProfile, env));
    RefreshArrives(Served(s, GetProfile, env).0, fetched, refreshed, envs.0);
  }

  /** The exit codes of a command that does not get to its operation. */
  lemma {:induction false} EarlyExits(s: Agent, contact: Contact, scriptable: bool, env: Env)
    requires Inv(s)
    ensures var r := FetchEffect(s, contact, scriptable, env).1;
            && (contact.NoPaths? ==> r == Err(2))
            && (contact.StaleAgentStopped? || contact.NotAccepting? || contact.RpcLost? ==> r == Err(5))
            && (contact.NoSocket? ==> r == Err(if scriptable then 10 else 5))
            && (contact.Connected? && s.activeAlias.None? ==> r == Err(if scriptable then 10 else 5))
            && (contact.Connected? && s.activeAlias.Some? ==>
                  var p := s.profileSet.value.Find(s.activeAlias.value).value;
                  r == if p.providers == [] || p.providers[0].kind == ProviderKind.Unknown || !env.world.canBuild(p)
                       then Err(9) else Ok(p))
            && FetchEffect(s, contact, scriptable, env).0 ==
               (if contact.Connected? || (contact.RpcLost? && contact.served)
                then s.(lastActivity := env.now, unlockedAt := if s.unlockedAt.Some? then Some(env.now) else None) else s)
  {
  }

  // ----- the TUI's add and delete -----

  datatype TuiError = AliasRejected | NoKek | NoSet | AliasExists | SetupIncomplete | AliasMissing | LastProfile
                    | NotSaved(cause: SaveError)

  function AddProfile(s: ProfileSet, p: Profile): ProfileSet { s.(profiles := s.profiles + [p]) }

  function DeleteAlias(s: ProfileSet, alias: string): ProfileSet
  {
    s.(profiles := Filter((p: Profile) => p.alias != alias, s.profiles))
  }

  datatype TuiApp = TuiApp(unlockedSet: Option<ProfileSet>, unlockedKek: Option<Kek>)

  function CheckAdd(app: TuiApp, alias: string, setup: Option<(seq<Provider>, string)>): Option<TuiError>
  {
    if !Sidecars.ValidateAlias(alias) then Some(AliasRejected)
    else if app.unlockedKek.None? then Some(NoKek)
    else if app.unlockedSet.None? then Some(NoSet)
    else if app.unlockedSet.value.ContainsAlias(alias) then Some(AliasExists)
    else if setup.None? then Some(SetupIncomplete)
    else None
  }

  function CheckDelete(app: TuiApp, alias: string): Option<TuiError>
  {
    if alias == "" then Some(AliasMissing)
    else if app.unlockedKek.None? then Some(NoKek)
    else if app.unlockedSet.None? then Some(NoSet)
    else
      var newSet := DeleteAlias(app.unlockedSet.value, alias);
      if |newSet.profiles| == |app.unlockedSet.value.profiles| then Some(AliasMissing)
      else if newSet.profiles == [] then Some(LastProfile)
      else None
  }

  /** An add is let through iff the alias is valid and free, the set and its key are at hand, and the setup is done. */
  lemma {:induction false} AddIsCheckedFor(app: TuiApp, alias: string, setup: Option<(seq<Provider>, string)>)
    ensures CheckAdd(app, alias, setup).None? <==>
            && Sidecars.ValidateAlias(alias) && app.unlockedKek.Some? && app.unlockedSet.Some? && setup.Some?
            && alias !in app.unlockedSet.value.Aliases()
    ensures CheckAdd(app, alias, setup) == Some(AliasExists) <==>
            && Sidecars.ValidateAlias(alias) && app.unlockedKek.Some? && app.unlockedSet.Some?
            && alias in app.unlockedSet.value.Aliases()
  {
    if app.unlockedSet.Some? {
      FindByAlias(app.unlockedSet.value, alias);
    }
  }

  /** A delete is let through iff the alias is there and another one is too: the last profile is never deleted. */
  lemma {:induction false} DeleteIsCheckedFor(app: TuiApp, alias: string)
    ensures CheckDelete(app, alias).None? <==>
            && alias != "" && app.unlockedKek.Some? && app.unlockedSet.Some?
            && (exists p | p in app.unlockedSet.value.profiles :: p.alias == alias)
            && (exists p | p in app.unlockedSet.value.profiles :: p.alias != alias)
    ensures CheckDelete(app, alias) == Some(LastProfile) <==>
            && alias != "" && app.unlockedKek.Some? && app.unlockedSet.Some? && app.unlockedSet.value.profiles != []
            && (forall p | p in app.unlockedSet.value.profiles :: p.alias == alias)
    ensures CheckDelete(app, alias).None? ==>
              DeleteAlias(app.unlockedSet.value, alias).profiles != []
  {
    if app.unlockedSet.Some? {
      var kept := (p: Profile) => p.alias != alias;
      var ps := app.unlockedSet.value.profiles;
      FilterMembers(kept, ps);
      FilterFull(kept, ps);
      if Filter(kept, ps) != [] {
        assert Filter(kept, ps)[0] in Filter(kept, ps);
      }
    }
  }

  /** What the rest of the world looks like after the file was saved and the agent, if any answers, was told. */
  function SavedAndPushed(s: Agent, pset: ProfileSet, kek: Kek, env: Env): Agent
  {
    Served(s.(disk := AfterSave(s.disk, pset, kek, NoFault)), UpdateProfileSet(pset), env).0
  }

  /** Then the file opens to the new set, an unlocked agent holds it and has no cache left, and a locked one stays so. */
  lemma {:induction false} SaveAndPushReachBoth(s: Agent, pset: ProfileSet, kek: Kek, env: Env)
    requires Inv(s)
    ensures var s' := SavedAndPushed(s, pset, kek, env);
            if s.profileSet.None? then s'.profileSet == None && Open(s'.disk.container, kek) == Some(pset)
            else
              && s'.profileSet == Some(pset) && s'.kek == s.kek && s'.cache == map[] && s'.slot == None
              && s'.activeAlias ==
                 (if s.activeAlias.Some? && s.activeAlias.value in pset.Aliases() then s.activeAlias else None)
              && Open(s'.disk.container, if env.fault.NoFault? then s.kek.value else kek) == Some(pset)
  {
    if s.activeAlias.Some? {
      FindByAlias(pset, s.activeAlias.value);
    }
  }

  method SaveAndPush(file: ContainerFile, agent: AgentState?, newSet: ProfileSet, kek: Kek, fault: SaveFault, env: Env)
    returns (r: Result<ProfileSet, TuiError>)
    requires agent != null ==> agent.file == file
    modifies file
    modifies if agent != null then {agent, agent.listCache, agent.clients} else {}
    ensures r == if fault.NoFault? then Ok(newSet) else Err(NotSaved(SaveOutcome(fault).value))
    ensures r.Err? ==> file.container == old(file.container)
    ensures r.Ok? && agent == null ==> Open(file.container, kek) == Some(newSet)
    ensures agent != null ==>
              agent.Model() == if r.Ok? then SavedAndPushed(old(agent.Model()), newSet, kek, env)
                               else old(agent.Model()).(disk := AfterSave(old(agent.Model()).disk, newSet, kek, fault))
  {
    var failure := file.Save(newSet, kek, fault);
    if failure.Some? {
      return Err(NotSaved(failure.value));
    }
    if agent != null {
      var _ := agent.ServeRequest(UpdateProfileSet(newSet), env);
    }
    return Ok(newSet);
  }

  method PerformAddInnerProfile(app: TuiApp, file: ContainerFile, agent: AgentState?, alias: string, profileId: string,
                                setup: Option<(seq<Provider>, string)>, fault: SaveFault, env: Env)
    returns (r: Result<ProfileSet, TuiError>)
    requires agent != null ==> agent.file == file
    modifies file
    modifies if agent != null then {agent, agent.listCache, agent.clients} else {}
    ensures r.Ok? <==> CheckAdd(app, alias, setup).None? && fault.NoFault?
    ensures CheckAdd(app, alias, setup).Some? ==> r == Err(CheckAdd(app, alias, setup).value)
    ensures r.Ok? ==>
              && r.value == AddProfile(app.unlockedSet.value,
                                       Profile(profileId, alias, setup.value.0, setup.value.1))
              && (agent == null ==> Open(file.container, app.unlockedKek.value) == Some(r.value))
              && (agent != null ==>
                    agent.Model() == SavedAndPushed(old(agent.Model()), r.value, app.unlockedKek.value, env))
    ensures r.Err? ==> file.container == old(file.container)
  {
    var refusal := CheckAdd(app, alias, setup);
    if refusal.Some? {
      return Err(refusal.value);
    }
    var newSet := app.unlockedSet.value;
    newSet := newSet.(profiles := newSet.profiles + [Profile(profileId, alias, setup.value.0, setup.value.1)]);
    r := SaveAndPush(file, agent, newSet, app.unlockedKek.value, fault, env);
  }

  method PerformDeleteInnerProfile(app: TuiApp, file: ContainerFile, agent: AgentState?, alias: string,
                                   fault: SaveFault, env: Env)
    returns (r: Result<ProfileSet, TuiError>)
    requires agent != null ==> agent.file == file
    modifies file
    modifies if agent != null then {agent, agent.listCache, agent.clients} else {}
    ensures r.Ok? <==> CheckDelete(app, alias).None? && fault.NoFault?
    ensures CheckDelete(app, alias).Some? ==> r == Err(CheckDelete(app, alias).value)
    ensures r.Ok? ==>
              && r.value == DeleteAlias(app.unlockedSet.value, alias)
              && (agent == null ==> Open(file.container, app.unlockedKek.value) == Some(r.value))
              && (agent != null ==>
                    agent.Model() == SavedAndPushed(old(agent.Model()), r.value, app.unlockedKek.value, env))
    ensures r.Err? ==> file.container == old(file.container)
  {
    var refusal := CheckDelete(app, alias);
    if refusal.Some? {
      return Err(refusal.value);
    }
    var newSet := DeleteAlias(app.unlockedSet.value, alias);
    r := SaveAndPush(file, agent, newSet, app.unlockedKek.value, fault, env);
  }

  /** Deleting undoes adding, exactly. */
  lemma {:induction false} DeleteUndoesAdd(s: ProfileSet, p: Profile)
    requires !s.ContainsAlias(p.alias)
    ensures DeleteAlias(AddProfile(s, p), p.alias) == s
    ensures AddProfile(s, p).Aliases() == s.Aliases() + [p.alias]
  {
    var others := (q: Profile) => q.alias != p.alias;
    FirstWithAliasIsFirst(s.profiles, p.alias);
    FilterAll(others, s.profiles);
    FilterAppend(others, s.profiles, [p]);
    assert Filter(others, [p]) == [];
  }

  /** A delete that goes through removes that alias, keeps every other profile and leaves at least one. */
  lemma {:induction false} DeleteRemovesOnlyTheAlias(s: ProfileSet, alias: string, p: Profile)
    ensures !DeleteAlias(s, alias).ContainsAlias(alias)
    ensures p in DeleteAlias(s, alias).profiles <==> p in s.profiles && p.alias != alias
  {
    var kept := DeleteAlias(s, alias).profiles;
    FilterMembers((q: Profile) => q.alias != alias, s.profiles);
    FirstWithAliasIsFirst(kept, alias);
    forall i | 0 <= i < |kept| ensures kept[i].alias != alias {
      assert kept[i] in kept;
    }
  }
}
