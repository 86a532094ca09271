/**
 All processes at once: the agent, CLI commands that push a profile fetched earlier (src/commands/mod.rs), the TUI that
 saves and then pushes a whole set (tui/src/cli.rs), and unlocks, which read the container, wait for a passphrase, may
 rewrite the container under a stronger key, and only then send what they read (src/commands/z_unlock.rs), a wipe that
 removes the container (src/commands/w_wipe.rs), and a new agent in the place of one that ended. Their steps may
 interleave in any order; one save of the file is one step here.
 */
module MultiWriters {
  import opened Basics
  import opened Text
  import opened Profiles
  import opened Containers
  import opened AgentModel
  import opened AgentSafety
  import opened Writers

  /** What an unlock holds between reading the container and sending it. */
  datatype Held = Held(pset: ProfileSet, kek: Kek)

  /** The agent with the disk, the profile each CLI command fetched, and the set each running unlock read. */
  datatype System = System(agent: Agent, fetched: map<nat, Profile>, held: map<nat, Held>)

  datatype Action =
    | CliGet(cli: nat, env: Env)
    | CliPush(cli: nat, refreshed: Provider, env: Env)
    | TuiSave(pset: ProfileSet, kek: Kek, fault: SaveFault)
    | TuiPush(pset: ProfileSet, env: Env)
    | UnlockRead(cli: nat, kek: Kek)
    | UnlockRotate(cli: nat, newKek: Kek, fault: SaveFault)
    | UnlockSend(cli: nat, alias: string, ttlSecs: Option<nat>, env: Env)
    | Wipe(removed: bool)
    | Restart(ttl: nat, now: nat)
    | Other(e: Event)

  /** A rotation saves like everybody else but removes the sibling when the rename fails. */
  function AfterRotation(d: Disk, pset: ProfileSet, kek: Kek, fault: SaveFault): Disk
  {
    if fault.RenameFails? then d.(tmp := None) else AfterSave(d, pset, kek, fault)
  }

  function Next(s: System, a: Action): System
  {
    match a
    case CliGet(cli, env) =>
      var (agent, r) := Served(s.agent, GetProfile, env);
      s.(agent := agent, fetched := if r.ProfileIs? then s.fetched[cli := r.profile] else s.fetched)
    case CliPush(cli, refreshed, env) =>
      if cli !in s.fetched then s
      else s.(agent := Served(s.agent, UpdateProfile(Refreshed(s.fetched[cli], refreshed)), env).0)
    case TuiSave(pset, kek, fault) => s.(agent := s.agent.(disk := AfterSave(s.agent.disk, pset, kek, fault)))
    case TuiPush(pset, env) => s.(agent := Served(s.agent, UpdateProfileSet(pset), env).0)
    case UnlockRead(cli, kek) =>
      var pset := Open(s.agent.disk.container, kek);
      if pset.None? then s else s.(held := s.held[cli := Held(pset.value, kek)])
    case UnlockRotate(cli, newKek, fault) =>
      if cli !in s.held then s
      else
        var pset := s.held[cli].pset;
        s.(agent := s.agent.(disk := AfterRotation(s.agent.disk, pset, newKek, fault)),
           held := if fault.NoFault? then s.held[cli := Held(pset, newKek)] else s.held)
    case UnlockSend(cli, alias, ttlSecs, env) =>
      if cli !in s.held then s
      else s.(agent := Served(s.agent, Unlock(s.held[cli].pset, s.held[cli].kek, alias, ttlSecs), env).0)
    case Wipe(removed) => if removed then s.(agent := s.agent.(disk := s.agent.disk.(container := None))) else s
    case Restart(ttl, now) => s.(agent := Fresh(ttl, s.agent.disk, now))
    case Other(e) => s.(agent := Step(s.agent, e))
  }

  function Refreshed(p: Profile, refreshed: Provider): Profile
  {
    p.(providers := WithProvider(p.providers, refreshed))
  }

  function After(s: System, actions: seq<Action>): System
  {
    if actions == [] then s else Next(After(s, actions[..|actions| - 1]), actions[|actions| - 1])
  }

  // ----- what is watched -----

  /** What is watched of a profile: its alias, alone or with its id. */
  type Tag = (string, string)

  function ByAlias(): Profile -> Tag { (p: Profile) => (p.alias, "") }

  function ById(): Profile -> Tag { (p: Profile) => (p.alias, p.profileId) }

  /** A tag shows the alias, and the provider has no part in it. */
  ghost predicate IsTag(tag: Profile -> Tag)
  {
    (forall p :: tag(p).0 == p.alias) && (forall p, q :: tag(Refreshed(p, q)) == tag(p))
  }

  function Tags(tag: Profile -> Tag, pset: ProfileSet): seq<Tag> { Map(tag, pset.profiles) }

  /** The first tag of an alias. */
  function TagAt(names: seq<Tag>, alias: string): Option<Tag>
  {
    if names == [] then None else if names[0].0 == alias then Some(names[0]) else TagAt(names[1..], alias)
  }

  lemma {:induction false} TagOfHolder(tag: Profile -> Tag, ps: seq<Profile>, alias: string)
    requires IsTag(tag)
    ensures TagAt(Map(tag, ps), alias) ==
            var i := FirstWithAlias(ps, alias);
            if i.Some? then Some(tag(ps[i.value])) else None
  {
    if ps != [] && ps[0].alias != alias {
      TagOfHolder(tag, ps[1..], alias);
      assert Map(tag, ps)[1..] == Map(tag, ps[1..]);
    }
  }

  lemma {:induction false} MapAt(tag: Profile -> Tag, ps: seq<Profile>)
    ensures forall i | 0 <= i < |ps| :: Map(tag, ps)[i] == tag(ps[i])
  {
    forall i | 0 <= i < |ps| ensures Map(tag, ps)[i] == tag(ps[i]) {
      MapMembers(tag, ps, i);
    }
  }

  /** Replacing the holder of an alias keeps the tags iff it keeps that one. */
  lemma {:induction false} ReplaceKeepsTags(tag: Profile -> Tag, pset: ProfileSet, p: Profile)
    requires pset.ContainsAlias(p.alias)
    ensures Tags(tag, pset.Replace(p)) == Tags(tag, pset) <==> tag(p) == tag(pset.Find(p.alias).value)
  {
    var i := pset.IndexOf(p.alias).value;
    MapAt(tag, pset.profiles);
    MapAt(tag, pset.Replace(p).profiles);
    assert Tags(tag, pset.Replace(p))[i] == tag(p) && Tags(tag, pset)[i] == tag(pset.profiles[i]);
  }

  /** The file holds a whole container with the tags `names`, and an unlocked agent holds the same. */
  ghost predicate InSync(s: Agent, tag: Profile -> Tag, names: seq<Tag>)
  {
    && s.disk.container.Some? && s.disk.container.value.Sealed?
    && Tags(tag, s.disk.container.value.pset) == names
    && (s.profileSet.Some? ==> Tags(tag, s.profileSet.value) == names)
  }

  /** The whole set, if any, that an action puts in the place of the one on disk or in RAM. */
  function BroughtIn(s: System, a: Action): Option<ProfileSet>
  {
    match a
    case TuiSave(pset, _, fault) => if fault.NoFault? then Some(pset) else None
    case TuiPush(pset, _) => if s.agent.profileSet.Some? then Some(pset) else None
    case UnlockRotate(cli, _, fault) => if cli in s.held && fault.NoFault? then Some(s.held[cli].pset) else None
    case UnlockSend(cli, alias, _, _) =>
      if cli in s.held && s.held[cli].pset.ContainsAlias(alias) then Some(s.held[cli].pset) else None
    case Other(Serve(Unlock(pset, _, alias, _), _)) => if pset.ContainsAlias(alias) then Some(pset) else None
    case Other(Serve(UpdateProfileSet(pset), _)) => if s.agent.profileSet.Some? then Some(pset) else None
    case _ => None
  }

  /** The one profile, if any, that an action asks the agent to update. */
  function UpdateOf(s: System, a: Action): Option<Profile>
  {
    match a
    case CliPush(cli, refreshed, _) => if cli in s.fetched then Some(Refreshed(s.fetched[cli], refreshed)) else None
    case Other(Serve(UpdateProfile(p), _)) => Some(p)
    case _ => None
  }

  /** The update takes the place of a profile with another tag under the same alias. */
  predicate Displaces(s: Agent, tag: Profile -> Tag, p: Profile)
  {
    s.profileSet.Some? && s.profileSet.value.ContainsAlias(p.alias)
    && tag(p) != tag(s.profileSet.value.Find(p.alias).value)
  }

  /** The guard: the file is not removed, a whole set brought in has the current tags, an update keeps the tag it meets. */
  predicate Harmless(s: System, a: Action, tag: Profile -> Tag, names: seq<Tag>)
  {
    && (a.Wipe? ==> !a.removed)
    && (BroughtIn(s, a).Some? ==> Tags(tag, BroughtIn(s, a).value) == names)
    && (UpdateOf(s, a).Some? ==> !Displaces(s.agent, tag, UpdateOf(s, a).value))
  }

  // ----- one step -----

  lemma {:induction false} UpdateSync(s: Agent, tag: Profile -> Tag, p: Profile, env: Env, names: seq<Tag>)
    requires Inv(s) && InSync(s, tag, names)
    ensures InSync(Served(s, UpdateProfile(p), env).0, tag, names) <==> !Displaces(s, tag, p)
  {
    if s.profileSet.Some? && s.profileSet.value.ContainsAlias(p.alias) {
      ReplaceKeepsTags(tag, s.profileSet.value, p);
    }
  }

  lemma {:induction false} SetReplacementSync(s: Agent, tag: Profile -> Tag, pset: ProfileSet, env: Env, names: seq<Tag>)
    requires Inv(s) && InSync(s, tag, names)
    ensures InSync(Served(s, UpdateProfileSet(pset), env).0, tag, names) <==>
            (s.profileSet.Some? ==> Tags(tag, pset) == names)
  {
  }

  lemma {:induction false} UnlockSync(s: Agent, tag: Profile -> Tag, pset: ProfileSet, kek: Kek, alias: string,
                                      ttl: Option<nat>, env: Env, names: seq<Tag>)
    requires InSync(s, tag, names)
    ensures InSync(Served(s, Unlock(pset, kek, alias, ttl), env).0, tag, names) <==>
            (pset.ContainsAlias(alias) ==> Tags(tag, pset) == names)
  {
  }

  lemma {:induction false} EventSync(s: System, e: Event, tag: Profile -> Tag, names: seq<Tag>)
    requires Inv(s.agent) && InSync(s.agent, tag, names)
    ensures InSync(Step(s.agent, e), tag, names) <==> Harmless(s, Other(e), tag, names)
  {
    if e.Serve? {
      match e.req
      case UpdateProfile(p) => UpdateSync(s.agent, tag, p, e.env, names);
      case UpdateProfileSet(pset) => SetReplacementSync(s.agent, tag, pset, e.env, names);
      case Unlock(pset, kek, alias, ttl) => UnlockSync(s.agent, tag, pset, kek, alias, ttl, e.env, names);
      case _ =>
    }
  }

  lemma {:induction false} NextKeepsInv(s: System, a: Action)
    requires Inv(s.agent)
    ensures Inv(Next(s, a).agent)
  {
    match a
    case CliGet(_, env) => StepKeepsInv(s.agent, Serve(GetProfile, env));
    case CliPush(cli, refreshed, env) =>
      if cli in s.fetched {
        StepKeepsInv(s.agent, Serve(UpdateProfile(Refreshed(s.fetched[cli], refreshed)), env));
      }
    case TuiPush(pset, env) => StepKeepsInv(s.agent, Serve(UpdateProfileSet(pset), env));
    case UnlockSend(cli, alias, ttl, env) =>
      if cli in s.held {
        StepKeepsInv(s.agent, Serve(Unlock(s.held[cli].pset, s.held[cli].kek, alias, ttl), env));
      }
    case Other(e) => StepKeepsInv(s.agent, e);
    case _ =>
  }

  lemma {:induction false} RunKeepsInv(s: System, actions: seq<Action>)
    requires Inv(s.agent)
    ensures Inv(After(s, actions).agent)
  {
    if actions != [] {
      RunKeepsInv(s, actions[..|actions| - 1]);
      NextKeepsInv(After(s, actions[..|actions| - 1]), actions[|actions| - 1]);
    }
  }

  /** One action out of a synchronised system: the tags stay in step iff the action met the guard. */
  lemma {:induction false} SyncStep(s: System, a: Action, tag: Profile -> Tag, names: seq<Tag>)
    requires Inv(s.agent) && InSync(s.agent, tag, names)
    ensures InSync(Next(s, a).agent, tag, names) <==> Harmless(s, a, tag, names)
  {
    match a
    case CliGet(_, env) => EventSync(s, Serve(GetProfile, env), tag, names);
    case CliPush(cli, refreshed, env) =>
      if cli in s.fetched {
        UpdateSync(s.agent, tag, Refreshed(s.fetched[cli], refreshed), env, names);
      }
    case TuiPush(pset, env) => SetReplacementSync(s.agent, tag, pset, env, names);
    case UnlockSend(cli, alias, ttl, env) =>
      if cli in s.held {
        UnlockSync(s.agent, tag, s.held[cli].pset, s.held[cli].kek, alias, ttl, env, names);
      }
    case Other(e) => EventSync(s, e, tag, names);
    case _ =>
  }

  // ----- whole runs -----

  ghost predicate InStep(s: System, actions: seq<Action>, tag: Profile -> Tag, names: seq<Tag>)
  {
    forall k | 0 <= k <= |actions| :: InSync(After(s, actions[..k]).agent, tag, names)
  }

  ghost predicate Guarded(s: System, actions: seq<Action>, tag: Profile -> Tag, names: seq<Tag>)
  {
    forall k | 0 <= k < |actions| :: Harmless(After(s, actions[..k]), actions[k], tag, names)
  }

  lemma InStepNext(s: System, actions: seq<Action>, tag: Profile -> Tag, names: seq<Tag>)
    requires actions != []
    ensures InStep(s, actions, tag, names) <==>
            InStep(s, actions[..|actions| - 1], tag, names) && InSync(After(s, actions).agent, tag, names)
  {
    var n := |actions| - 1;
    assert forall k | 0 <= k <= n :: actions[..n][..k] == actions[..k];
    assert actions[..n + 1] == actions;
    if InStep(s, actions, tag, names) {
      assert InSync(After(s, actions[..n + 1]).agent, tag, names);
      forall k | 0 <= k <= n ensures InSync(After(s, actions[..n][..k]).agent, tag, names) {
        assert InSync(After(s, actions[..k]).agent, tag, names);
      }
    }
    if InStep(s, actions[..n], tag, names) && InSync(After(s, actions).agent, tag, names) {
      forall k | 0 <= k <= n + 1 ensures InSync(After(s, actions[..k]).agent, tag, names) {
        if k <= n {
          assert InSync(After(s, actions[..n][..k]).agent, tag, names);
        }
      }
    }
  }

  lemma GuardedNext(s: System, actions: seq<Action>, tag: Profile -> Tag, names: seq<Tag>)
    requires actions != []
    ensures var n := |actions| - 1;
            Guarded(s, actions, tag, names) <==>
            Guarded(s, actions[..n], tag, names) && Harmless(After(s, actions[..n]), actions[n], tag, names)
  {
    var n := |actions| - 1;
    assert forall k | 0 <= k <= n :: actions[..n][..k] == actions[..k];
    if Guarded(s, actions, tag, names) {
      forall k | 0 <= k < n ensures Harmless(After(s, actions[..n][..k]), actions[..n][k], tag, names) {
        assert Harmless(After(s, actions[..k]), actions[k], tag, names);
      }
    }
    if Guarded(s, actions[..n], tag, names) && Harmless(After(s, actions[..n]), actions[n], tag, names) {
      forall k | 0 <= k < n + 1 ensures Harmless(After(s, actions[..k]), actions[k], tag, names) {
        if k < n {
          assert Harmless(After(s, actions[..n][..k]), actions[..n][k], tag, names);
        }
      }
    }
  }

  /** Over any run of any actions: disk and RAM stay in step throughout iff every action met the guard. */
  lemma {:induction false} InStepIffGuarded(s: System, actions: seq<Action>, tag: Profile -> Tag, names: seq<Tag>)
    requires Inv(s.agent) && InSync(s.agent, tag, names)
    ensures InStep(s, actions, tag, names) <==> Guarded(s, actions, tag, names)
    decreases |actions|
  {
    if actions == [] {
      assert actions[..0] == [];
    } else {
      var n := |actions| - 1;
      InStepIffGuarded(s, actions[..n], tag, names);
      InStepNext(s, actions, tag, names);
      GuardedNext(s, actions, tag, names);
      if InStep(s, actions[..n], tag, names) {
        assert actions[..n][..n] == actions[..n];
        RunKeepsInv(s, actions[..n]);
        SyncStep(After(s, actions[..n]), actions[n], tag, names);
      }
    }
  }

  // ----- what processes carry -----

  /** Somebody brings in a set of their own making or removes the file. */
  predicate Foreign(a: Action)
  {
    match a
    case TuiSave(_, _, _) => true
    case TuiPush(_, _) => true
    case Wipe(_) => true
    case Other(Serve(Unlock(_, _, _, _), _)) => true
    case Other(Serve(UpdateProfileSet(_), _)) => true
    case _ => false
  }

  /** An unlock that reads the container, or a command that is answered with the active profile. */
  predicate Reads(s: System, a: Action, cli: nat)
  {
    a.UnlockRead? && a.cli == cli && Open(s.agent.disk.container, a.kek).Some?
  }

  predicate Fetches(s: System, a: Action, cli: nat)
  {
    a.CliGet? && a.cli == cli && Served(s.agent, GetProfile, a.env).1.ProfileIs?
  }

  predicate ReadsAt(s: System, actions: seq<Action>, j: nat, cli: nat)
  {
    j < |actions| && Reads(After(s, actions[..j]), actions[j], cli)
  }

  predicate FetchesAt(s: System, actions: seq<Action>, j: nat, cli: nat)
  {
    j < |actions| && Fetches(After(s, actions[..j]), actions[j], cli)
  }

  ghost predicate HasRead(s: System, actions: seq<Action>, cli: nat) { exists j: nat :: ReadsAt(s, actions, j, cli) }

  ghost predicate HasFetched(s: System, actions: seq<Action>, cli: nat)
  {
    exists j: nat :: FetchesAt(s, actions, j, cli)
  }

  lemma HasReadNext(s: System, actions: seq<Action>, cli: nat)
    requires actions != []
    ensures var n := |actions| - 1;
            HasRead(s, actions, cli) <==> HasRead(s, actions[..n], cli) || Reads(After(s, actions[..n]), actions[n], cli)
  {
    var n := |actions| - 1;
    forall j: nat ensures j < n ==> (ReadsAt(s, actions[..n], j, cli) <==> ReadsAt(s, actions, j, cli)) {
      if j < n {
        assert actions[..n][..j] == actions[..j];
      }
    }
    assert ReadsAt(s, actions, n, cli) <==> Reads(After(s, actions[..n]), actions[n], cli);
  }

  lemma HasFetchedNext(s: System, actions: seq<Action>, cli: nat)
    requires actions != []
    ensures var n := |actions| - 1;
            HasFetched(s, actions, cli) <==>
            HasFetched(s, actions[..n], cli) || Fetches(After(s, actions[..n]), actions[n], cli)
  {
    var n := |actions| - 1;
    forall j: nat ensures j < n ==> (FetchesAt(s, actions[..n], j, cli) <==> FetchesAt(s, actions, j, cli)) {
      if j < n {
        assert actions[..n][..j] == actions[..j];
      }
    }
    assert FetchesAt(s, actions, n, cli) <==> Fetches(After(s, actions[..n]), actions[n], cli);
  }

  /** What an unlock holds changes by its own reading only. */
  lemma HeldNext(s: System, a: Action, cli: nat)
    ensures var t := Next(s, a);
            if Reads(s, a, cli) then cli in t.held && t.held[cli].pset == Open(s.agent.disk.container, a.kek).value
            else (cli in t.held <==> cli in s.held) && (cli in s.held ==> t.held[cli].pset == s.held[cli].pset)
  {
  }

  /** What a command carries changes by its own fetching only. */
  lemma FetchedNext(s: System, a: Action, cli: nat)
    ensures var t := Next(s, a);
            if Fetches(s, a, cli) then cli in t.fetched && Some(t.fetched[cli]) == ActiveProfile(s.agent)
            else (cli in t.fetched <==> cli in s.fetched) && (cli in s.fetched ==> t.fetched[cli] == s.fetched[cli])
  {
  }

  /** While in step, an unlock carries the current tags if it read meanwhile; otherwise what it read before. */
  lemma {:induction false} Carried(s: System, actions: seq<Action>, cli: nat, tag: Profile -> Tag, names: seq<Tag>)
    requires InStep(s, actions, tag, names)
    ensures var t := After(s, actions);
            && (HasRead(s, actions, cli) ==> cli in t.held && Tags(tag, t.held[cli].pset) == names)
            && (!HasRead(s, actions, cli) ==> (cli in t.held <==> cli in s.held))
            && (!HasRead(s, actions, cli) && cli in s.held ==> t.held[cli].pset == s.held[cli].pset)
    decreases |actions|
  {
    if actions != [] {
      var n := |actions| - 1;
      InStepNext(s, actions, tag, names);
      Carried(s, actions[..n], cli, tag, names);
      HeldNext(After(s, actions[..n]), actions[n], cli);
      HasReadNext(s, actions, cli);
      assert InSync(After(s, actions[..n][..n]).agent, tag, names) && actions[..n][..n] == actions[..n];
    }
  }

  lemma {:induction false} ActiveTag(s: Agent, tag: Profile -> Tag, names: seq<Tag>)
    requires IsTag(tag) && InSync(s, tag, names) && ActiveProfile(s).Some?
    ensures TagAt(names, ActiveProfile(s).value.alias) == Some(tag(ActiveProfile(s).value))
  {
    var pset, alias := s.profileSet.value, s.activeAlias.value;
    TagOfHolder(tag, pset.profiles, alias);
    FindByAlias(pset, alias);
  }

  /** While in step, a command carries a current tag if it fetched meanwhile; otherwise what it fetched before. */
  lemma {:induction false} CarriedProfile(s: System, actions: seq<Action>, cli: nat, tag: Profile -> Tag,
                                          names: seq<Tag>)
    requires IsTag(tag) && InStep(s, actions, tag, names)
    ensures var t := After(s, actions);
            && (HasFetched(s, actions, cli) ==>
                  cli in t.fetched && TagAt(names, t.fetched[cli].alias) == Some(tag(t.fetched[cli])))
            && (!HasFetched(s, actions, cli) ==> (cli in t.fetched <==> cli in s.fetched))
            && (!HasFetched(s, actions, cli) && cli in s.fetched ==> t.fetched[cli] == s.fetched[cli])
    decreases |actions|
  {
    if actions != [] {
      var n := |actions| - 1;
      var t := After(s, actions[..n]);
      InStepNext(s, actions, tag, names);
      CarriedProfile(s, actions[..n], cli, tag, names);
      FetchedNext(t, actions[n], cli);
      HasFetchedNext(s, actions, cli);
      assert InSync(After(s, actions[..n][..n]).agent, tag, names) && actions[..n][..n] == actions[..n];
      if Fetches(t, actions[n], cli) {
        ActiveTag(t.agent, tag, names);
      }
    }
  }

  // ----- what breaks the step -----

  /** The unlock behind an action, if it is a step of one. */
  function UnlockOf(a: Action): Option<nat>
  {
    match a
    case UnlockRotate(cli, _, _) => Some(cli)
    case UnlockSend(cli, _, _, _) => Some(cli)
    case _ => None
  }

  /** Action `k` takes effect with a set read before the run began, with other tags, and not read again. */
  ghost predicate LateUnlock(s: System, actions: seq<Action>, k: nat, tag: Profile -> Tag, names: seq<Tag>)
  {
    && k < |actions| && UnlockOf(actions[k]).Some? && BroughtIn(After(s, actions[..k]), actions[k]).Some?
    && var cli := UnlockOf(actions[k]).value;
       cli in s.held && Tags(tag, s.held[cli].pset) != names && !HasRead(s, actions[..k], cli)
  }

  /** The tags have this alias, with another tag than the profile. */
  predicate Differs(tag: Profile -> Tag, names: seq<Tag>, p: Profile)
  {
    TagAt(names, p.alias).Some? && TagAt(names, p.alias) != Some(tag(p))
  }

  /**
   Action `k` updates an unlocked agent with a profile of another tag under one of the aliases: a command with what it
   fetched before the run began and not again, or a client of its own.
   */
  ghost predicate LateUpdate(s: System, actions: seq<Action>, k: nat, tag: Profile -> Tag, names: seq<Tag>)
  {
    && k < |actions| && After(s, actions[..k]).agent.profileSet.Some?
    && match actions[k]
       case CliPush(cli, _, _) =>
         cli in s.fetched && Differs(tag, names, s.fetched[cli]) && !HasFetched(s, actions[..k], cli)
       case Other(Serve(UpdateProfile(p), _)) => Differs(tag, names, p)
       case _ => false
  }

  lemma {:induction false} DisplacesIffDiffers(s: Agent, tag: Profile -> Tag, names: seq<Tag>, p: Profile)
    requires IsTag(tag) && InSync(s, tag, names)
    ensures Displaces(s, tag, p) <==> s.profileSet.Some? && Differs(tag, names, p)
  {
    if s.profileSet.Some? {
      TagOfHolder(tag, s.profileSet.value.profiles, p.alias);
    }
  }

  lemma {:induction false} HarmlessIffNotLate(s: System, actions: seq<Action>, k: nat, tag: Profile -> Tag,
                                              names: seq<Tag>)
    requires IsTag(tag) && k < |actions| && !Foreign(actions[k]) && InStep(s, actions[..k], tag, names)
    ensures Harmless(After(s, actions[..k]), actions[k], tag, names) <==>
            !LateUnlock(s, actions, k, tag, names) && !LateUpdate(s, actions, k, tag, names)
  {
    var before, a := actions[..k], actions[k];
    assert before[..k] == before && InSync(After(s, before[..k]).agent, tag, names);
    if UnlockOf(a).Some? {
      Carried(s, before, UnlockOf(a).value, tag, names);
    }
    match a
    case CliPush(_, _, _) => PushIsHarmlessIffNotLate(s, actions, k, tag, names);
    case Other(Serve(UpdateProfile(p), _)) => DisplacesIffDiffers(After(s, before).agent, tag, names, p);
    case _ =>
  }

  lemma {:induction false} PushIsHarmlessIffNotLate(s: System, actions: seq<Action>, k: nat, tag: Profile -> Tag,
                                                    names: seq<Tag>)
    requires IsTag(tag) && k < |actions| && actions[k].CliPush? && InStep(s, actions[..k], tag, names)
    ensures Harmless(After(s, actions[..k]), actions[k], tag, names) <==> !LateUpdate(s, actions, k, tag, names)
  {
    var cli, refreshed := actions[k].cli, actions[k].refreshed;
    var t := After(s, actions[..k]);
    assert actions[..k][..k] == actions[..k] && InSync(After(s, actions[..k][..k]).agent, tag, names);
    CarriedProfile(s, actions[..k], cli, tag, names);
    if cli in t.fetched {
      assert tag(Refreshed(t.fetched[cli], refreshed)) == tag(t.fetched[cli]);
      DisplacesIffDiffers(t.agent, tag, names, Refreshed(t.fetched[cli], refreshed));
    }
  }

  ghost predicate Punctual(s: System, actions: seq<Action>, tag: Profile -> Tag, names: seq<Tag>)
  {
    forall k: nat | k < |actions| ::
      !LateUnlock(s, actions, k, tag, names) && !LateUpdate(s, actions, k, tag, names)
  }

  lemma PunctualNext(s: System, actions: seq<Action>, tag: Profile -> Tag, names: seq<Tag>)
    requires actions != []
    ensures var n := |actions| - 1;
            Punctual(s, actions, tag, names) <==>
            && Punctual(s, actions[..n], tag, names)
            && !LateUnlock(s, actions, n, tag, names) && !LateUpdate(s, actions, n, tag, names)
  {
    var n := |actions| - 1;
    forall k: nat | k < n
      ensures LateUnlock(s, actions[..n], k, tag, names) <==> LateUnlock(s, actions, k, tag, names)
      ensures LateUpdate(s, actions[..n], k, tag, names) <==> LateUpdate(s, actions, k, tag, names)
    {
      assert actions[..n][..k] == actions[..k];
    }
  }

  /**
   Without foreign sets and wipes, disk and RAM stay in step iff no unlock and no update takes effect with what it took
   in before the run, where that differs.
   */
  lemma {:induction false} OnlyLateOnesBreakStep(s: System, actions: seq<Action>, tag: Profile -> Tag, names: seq<Tag>)
    requires IsTag(tag) && Inv(s.agent) && InSync(s.agent, tag, names)
    requires forall a | a in actions :: !Foreign(a)
    ensures InStep(s, actions, tag, names) <==> Punctual(s, actions, tag, names)
    decreases |actions|
  {
    if actions == [] {
      assert actions[..0] == [];
    } else {
      var n := |actions| - 1;
      var before := actions[..n];
      OnlyLateOnesBreakStep(s, before, tag, names);
      InStepNext(s, actions, tag, names);
      PunctualNext(s, actions, tag, names);
      if InStep(s, before, tag, names) {
        assert before[..n] == before;
        RunKeepsInv(s, before);
        SyncStep(After(s, before), actions[n], tag, names);
        HarmlessIffNotLate(s, actions, n, tag, names);
      }
    }
  }

  // ----- the push -----

  /** A push is answered with Updated iff the agent is unlocked and can save; then RAM and disk hold the pushed set. */
  lemma {:induction false} PushLands(s: Agent, pset: ProfileSet, env: Env, tag: Profile -> Tag)
    requires Inv(s)
    ensures var (s', r) := Served(s, UpdateProfileSet(pset), env);
            && (r == Updated <==> s.profileSet.Some? && env.fault.NoFault?)
            && (r == Updated ==>
                  && s'.profileSet == Some(pset) && InSync(s', tag, Tags(tag, pset))
                  && s'.kek.Some? && Open(s'.disk.container, s'.kek.value) == Some(pset))
  {
  }

  /**
   Multi-writer safety. From any state let the TUI save `pset`, let anything at all happen, and let the push of `pset`
   be answered with Updated. From then on, as long as nobody brings in another set of their own or wipes, commands,
   ticks, locks, unlocks and new agents may follow in any order: on disk, and in RAM while unlocked, the tags are those
   of `pset` at every point, if and only if no unlock takes effect with other tags it had read before the push was
   answered, and no update with another tag under one of the aliases that it had fetched before.
   */
  lemma {:induction false} PushedTagsStay(s: System, pset: ProfileSet, kek: Kek, between: seq<Action>, env: Env,
                                          later: seq<Action>, tag: Profile -> Tag)
    requires IsTag(tag) && Inv(s.agent)
    requires forall a | a in later :: !Foreign(a)
    ensures var s1 := After(Next(s, TuiSave(pset, kek, NoFault)), between);
            var s2 := Next(s1, TuiPush(pset, env));
            Served(s1.agent, UpdateProfileSet(pset), env).1 == Updated ==>
              (InStep(s2, later, tag, Tags(tag, pset)) <==> Punctual(s2, later, tag, Tags(tag, pset)))
  {
    var s0 := Next(s, TuiSave(pset, kek, NoFault));
    var s1 := After(s0, between);
    RunKeepsInv(s0, between);
    PushLands(s1.agent, pset, env, tag);
    if Served(s1.agent, UpdateProfileSet(pset), env).1 == Updated {
      var s2 := Next(s1, TuiPush(pset, env));
      NextKeepsInv(s1, TuiPush(pset, env));
      OnlyLateOnesBreakStep(s2, later, tag, Tags(tag, pset));
    }
  }

  lemma TagsAreTags()
    ensures IsTag(ByAlias()) && IsTag(ById())
  {
  }

  lemma {:induction false} AliasesNeverDiffer(names: seq<Tag>, p: Profile)
    requires forall i | 0 <= i < |names| :: names[i].1 == ""
    ensures !Differs(ByAlias(), names, p)
  {
    if names != [] && names[0].0 != p.alias {
      AliasesNeverDiffer(names[1..], p);
    }
  }

  /** Profiles, by alias and id: none is lost, none comes back, none is exchanged, under the condition above. */
  lemma {:induction false} PushedProfilesStay(s: System, pset: ProfileSet, kek: Kek, between: seq<Action>, env: Env,
                                              later: seq<Action>)
    requires Inv(s.agent) && forall a | a in later :: !Foreign(a)
    ensures var s1 := After(Next(s, TuiSave(pset, kek, NoFault)), between);
            var s2 := Next(s1, TuiPush(pset, env));
            Served(s1.agent, UpdateProfileSet(pset), env).1 == Updated ==>
              (InStep(s2, later, ById(), Tags(ById(), pset)) <==> Punctual(s2, later, ById(), Tags(ById(), pset)))
  {
    TagsAreTags();
    PushedTagsStay(s, pset, kek, between, env, later, ById());
  }

  /** Aliases alone: no update does them harm, so unlocks are all that matters. */
  lemma {:induction false} PushedAliasesStay(s: System, pset: ProfileSet, kek: Kek, between: seq<Action>, env: Env,
                                             later: seq<Action>)
    requires Inv(s.agent) && forall a | a in later :: !Foreign(a)
    ensures var s1 := After(Next(s, TuiSave(pset, kek, NoFault)), between);
            var s2 := Next(s1, TuiPush(pset, env));
            var names := Tags(ByAlias(), pset);
            Served(s1.agent, UpdateProfileSet(pset), env).1 == Updated ==>
              (InStep(s2, later, ByAlias(), names) <==>
               forall k: nat | k < |later| :: !LateUnlock(s2, later, k, ByAlias(), names))
  {
    TagsAreTags();
    PushedTagsStay(s, pset, kek, between, env, later, ByAlias());
    MapAt(ByAlias(), pset.profiles);
    forall p ensures !Differs(ByAlias(), Tags(ByAlias(), pset), p) {
      AliasesNeverDiffer(Tags(ByAlias(), pset), p);
    }
  }

  /** With no unlock and no command under way, profiles stay as they are whatever is interleaved. */
  lemma {:induction false} NothingIsLostWithoutPending(s: System, tag: Profile -> Tag, names: seq<Tag>,
                                                       actions: seq<Action>)
    requires IsTag(tag) && Inv(s.agent) && InSync(s.agent, tag, names) && s.held == map[] && s.fetched == map[]
    requires forall a | a in actions :: !Foreign(a) && !(a.Other? && a.e.Serve? && a.e.req.UpdateProfile?)
    ensures InStep(s, actions, tag, names)
  {
    OnlyLateOnesBreakStep(s, actions, tag, names);
    assert forall k | 0 <= k < |actions| :: actions[k] in actions;
  }

  // ----- how it goes wrong -----

  /** An unlocked agent in step with the file, and one CLI update after an unlock that read `prior` before the push. */
  lemma {:induction false} LateUnlockUndoesThePush(s: System, cli: nat, other: nat, prior: ProfileSet, kek: Kek,
                                                   pset: ProfileSet, alias: string, refreshed: Provider, env: Env)
    requires Inv(s.agent) && s.agent.profileSet.Some? && s.agent.disk.container == Some(Sealed(kek, prior))
    requires prior.ContainsAlias(alias) && env.fault.NoFault?
    ensures var s1 := Next(s, UnlockRead(cli, kek));
            var s2 := Next(s1, TuiSave(pset, kek, NoFault));
            var s3 := Next(s2, TuiPush(pset, env));
            var s4 := Next(s3, UnlockSend(cli, alias, None, env));
            var s5 := Next(s4, CliGet(other, env));
            var s6 := Next(s5, CliPush(other, refreshed, env));
            && Served(s2.agent, UpdateProfileSet(pset), env).1 == Updated
            && DiskAliases(s3.agent.disk) == Some(pset.Aliases())
            && DiskAliases(s6.agent.disk) == Some(prior.Aliases())
  {
    var s3 := Next(Next(Next(s, UnlockRead(cli, kek)), TuiSave(pset, kek, NoFault)), TuiPush(pset, env));
    var s4 := Next(s3, UnlockSend(cli, alias, None, env));
    assert s3.held[cli] == Held(prior, kek);
    assert s4.agent.profileSet == Some(prior) && s4.agent.activeAlias == Some(alias) && s4.agent.kek == Some(kek);
    FindByAlias(prior, alias);
    var p := prior.Find(alias).value;
    var s5 := Next(s4, CliGet(other, env));
    assert s5.fetched[other] == p && s5.agent.profileSet == Some(prior);
    ReplaceKeepsTheRest(prior, Refreshed(p, refreshed));
  }

  /** A key rotation of such an unlock puts the old set on disk at once, under the agent's nose. */
  lemma {:induction false} LateRotationUndoesThePush(s: System, cli: nat, prior: ProfileSet, kek: Kek, newKek: Kek,
                                                     pset: ProfileSet, env: Env)
    requires Inv(s.agent) && s.agent.profileSet.Some? && s.agent.disk.container == Some(Sealed(kek, prior))
    requires env.fault.NoFault?
    ensures var s1 := Next(s, UnlockRead(cli, kek));
            var s2 := Next(s1, TuiPush(pset, env));
            var s3 := Next(s2, UnlockRotate(cli, newKek, NoFault));
            && DiskAliases(s2.agent.disk) == Some(pset.Aliases())
            && s3.agent.profileSet == Some(pset) && DiskAliases(s3.agent.disk) == Some(prior.Aliases())
  {
    var s2 := Next(Next(s, UnlockRead(cli, kek)), TuiPush(pset, env));
    assert s2.held[cli] == Held(prior, kek);
  }

  /** An update that fetched before its alias changed hands puts the old profile back and the new one away. */
  lemma {:induction false} LateUpdateExchangesTheProfile(s: System, cli: nat, refreshed: Provider, env: Env)
    requires Inv(s.agent) && s.agent.profileSet.Some? && cli in s.fetched && env.fault.NoFault?
    requires s.agent.profileSet.value.ContainsAlias(s.fetched[cli].alias)
    ensures var (s', back) := (Next(s, CliPush(cli, refreshed, env)), Refreshed(s.fetched[cli], refreshed));
            && s'.agent.profileSet.Some? && s'.agent.profileSet.value.Find(back.alias) == Some(back)
            && s'.agent.disk.container == Some(Sealed(s.agent.kek.value, s'.agent.profileSet.value))
  {
    ReplaceKeepsTheRest(s.agent.profileSet.value, Refreshed(s.fetched[cli], refreshed));
  }

  /**
   Why the push is needed: between the TUI's save and its push, any successful CLI update writes the agent's own set
   over the file, so what the TUI saved is on disk no more unless its aliases were the agent's already.
   */
  lemma {:induction false} UpdateBeforePushUndoesTheSave(s: Agent, pset: ProfileSet, kek: Kek, p: Profile, env: Env)
    requires Inv(s)
    ensures var saved := s.(disk := AfterSave(s.disk, pset, kek, NoFault));
            var (s', r) := Served(saved, UpdateProfile(p), env);
            && DiskAliases(saved.disk) == Some(pset.Aliases())
            && (r == Updated ==>
                  && s.profileSet.Some? && DiskAliases(s'.disk) == Some(s.profileSet.value.Aliases())
                  && (DiskAliases(s'.disk) == Some(pset.Aliases()) <==>
                      pset.Aliases() == s.profileSet.value.Aliases()))
  {
    if s.profileSet.Some? && s.profileSet.value.ContainsAlias(p.alias) {
      ReplaceKeepsTheRest(s.profileSet.value, p);
    }
  }
}
