/** Concrete runs on which the source does less than its comments or documents say. */
module Witnesses {
  import opened Basics
  import opened Text
  import opened Profiles
  import opened Containers
  import opened ListCaches
  import opened AgentModel
  import opened AgentSafety
  import opened ServerLoops
  import opened MultiWriters
  import RemoteTrees
  import LocalWalk
  import SaveAll
  import Download
  import Mirror
  import Completion

  const KEK := Kek(1, 1)

  const HOME := Profile("id-home", "home", [Provider(Nextcloud, "")], "")

  const WORK := Profile("id-work", "work", [Provider(Dropbox, "")], "")

  const HOME_ONLY := ProfileSet(1, [HOME])

  const BOTH_PROFILES := ProfileSet(1, [HOME, WORK])

  lemma HomeIsFound()
    ensures HOME_ONLY.Find("home") == Some(HOME) && HOME_ONLY.ContainsAlias("home")
    ensures BOTH_PROFILES.Find("home") == Some(HOME) && BOTH_PROFILES.ContainsAlias("home")
  {
  }

  lemma WorkIsFound()
    ensures BOTH_PROFILES.Find("work") == Some(WORK) && BOTH_PROFILES.ContainsAlias("work")
  {
    assert HOME.alias != WORK.alias by {
      assert "home"[0] != "work"[0];
    }
    assert BOTH_PROFILES.profiles[1..] == [WORK];
    assert FirstWithAlias([WORK], "work") == Some(0);
  }

  lemma AliasesDiffer()
    ensures HOME_ONLY.Aliases() == ["home"] && BOTH_PROFILES.Aliases() == ["home", "work"]
    ensures HOME_ONLY.Aliases() != BOTH_PROFILES.Aliases()
  {
  }

  // ----- listings -----

  /** Every account holds one file, one directory, and the file that bears the profile's own name. */
  function Listing(p: Profile): seq<RawEntry>
  {
    [RawEntry(p.profileId, Some(1), false), RawEntry("docs", None, true), RawEntry("notes", Some(2), false)]
  }

  function Online(): World { World(p => true, (c: Client, segs) => Some(Listing(c.builtFrom))) }

  function Offline(): World { World(p => true, (c: Client, segs) => None) }

  function At(now: nat, world: World): Env { Env(now, now, now, world, NoFault) }

  const ROOT := CacheKey(None, Both)

  /** What a listing of the root leaves and answers when nothing is cached and `p` is active. */
  lemma {:induction false} FirstListing(s: Agent, p: Profile, kind: KindFilter, max: nat, now: nat)
    requires s.cache == map[] && s.slot.None? && ActiveProfile(s) == Some(p) && Buildable(p, Online())
    ensures var (s', reply) := AfterListRemote(s, CacheKey(None, kind), max, At(now, Online()));
            && reply == Listed(EntryFor(kind, Listing(p), EffectiveCap(max), p, [], now))
            && s'.cache == map[CacheKey(None, kind) := reply.entry]
            && s'.profileSet == s.profileSet && s'.activeAlias == s.activeAlias
  {
  }

  /** The agent after start-up, an unlock of `alias` and nothing else. */
  function JustUnlocked(pset: ProfileSet, alias: string): Agent
  {
    Served(Fresh(600_000, Disk(None, None), 0), Unlock(pset, KEK, alias, None), At(0, Online())).0
  }

  /** From start-up: unlock one profile, list, unlock the other, list again: the first profile's files are shown. */
  lemma {:induction false} OldListingIsServed()
    ensures var events := [Serve(Unlock(BOTH_PROFILES, KEK, "home", None), At(0, Online())),
                           Serve(ListRemote(None, Both, 200), At(1, Online())),
                           Serve(Unlock(BOTH_PROFILES, KEK, "work", None), At(2, Online()))];
            var s := Run(Fresh(600_000, Disk(None, None), 0), events);
            var (s', r) := Served(s, ListRemote(None, Both, 200), At(3, Online()));
            && !Coherent(s) && ActiveProfile(s') == Some(WORK)
            && r == RemoteList(EntryFor(Both, Listing(HOME), 200, HOME, [], 1).entries, 0, false)
  {
    var s0 := Fresh(600_000, Disk(None, None), 0);
    var e1 := Serve(Unlock(BOTH_PROFILES, KEK, "home", None), At(0, Online()));
    var e2 := Serve(ListRemote(None, Both, 200), At(1, Online()));
    var e3 := Serve(Unlock(BOTH_PROFILES, KEK, "work", None), At(2, Online()));
    HomeIsFound();
    WorkIsFound();
    var s1 := Step(s0, e1);
    FirstListing(Touched(s1, 1), HOME, Both, 200, 1);
    RunOfThree(s0, e1, e2, e3);
    OtherUnlock(Step(s1, e2), EntryFor(Both, Listing(HOME), 200, HOME, [], 1));
  }

  /** Unlocking `work` over a cached listing of `home`. */
  lemma {:induction false} OtherUnlock(s: Agent, e: CacheEntry)
    requires s.cache == map[ROOT := e] && e.fetchedAt == 1 && e.source.profile == HOME
    ensures var s3 := Step(s, Serve(Unlock(BOTH_PROFILES, KEK, "work", None), At(2, Online())));
            var (s', r) := Served(s3, ListRemote(None, Both, 200), At(3, Online()));
            && !Coherent(s3) && ActiveProfile(s') == Some(WORK) && r == RemoteList(e.entries, 0, e.truncated)
  {
    WorkIsFound();
    var s3 := Step(s, Serve(Unlock(BOTH_PROFILES, KEK, "work", None), At(2, Online())));
    assert ROOT in s3.cache && s3.cache[ROOT].source.profile != WORK;
  }

  lemma RunOfThree(s: Agent, a: Event, b: Event, c: Event)
    ensures Run(s, [a, b, c]) == Step(Step(Step(s, a), b), c)
  {
    assert [a, b, c][..2] == [a, b] && [a, b][..1] == [a] && [a][..0] == [];
    assert Run(s, [a]) == Step(s, a);
    assert Run(s, [a, b]) == Step(Step(s, a), b);
  }

  /** Asked for one entry after somebody asked for more, the agent answers with three. */
  lemma {:induction false} HitIsLongerThanAsked()
    ensures var s1 := JustUnlocked(HOME_ONLY, "home");
            var s2 := AfterListRemote(s1, ROOT, 200, At(1, Online())).0;
            var reply := AfterListRemote(s2, ROOT, 1, At(2, Online())).1;
            reply.Listed? && |reply.entry.entries| == 3
  {
    HomeIsFound();
    var s1 := JustUnlocked(HOME_ONLY, "home");
    FirstListing(s1, HOME, Both, 200, 1);
    EverythingIsShown(Listing(HOME));
  }

  lemma EverythingIsShown(raw: seq<RawEntry>)
    ensures |Shaped(Both, raw)| == |raw|
  {
    FilterAll(e => Admits(Both, e), raw);
  }

  lemma {:induction false} OneDirectory(p: Profile)
    ensures |Shaped(DirectoryOnly, Listing(p))| == 1
  {
    var raw := Listing(p);
    var wanted := e => Admits(DirectoryOnly, e);
    assert raw[1..][1..] == [raw[2]] && raw[1..][0] == raw[1];
    assert Filter(wanted, [raw[2]]) == [];
    assert Filter(wanted, raw[1..]) == [raw[1]];
    assert Filter(wanted, raw) == [raw[1]];
  }

  /** One directory among three entries, all of it shown, and yet flagged as cut short at a maximum of two. */
  lemma {:induction false} CompleteListingIsFlagged()
    ensures var s1 := JustUnlocked(HOME_ONLY, "home");
            var reply := AfterListRemote(s1, CacheKey(None, DirectoryOnly), 2, At(1, Online())).1;
            && reply.Listed? && reply.entry.truncated
            && reply.entry.entries == Shaped(DirectoryOnly, Listing(HOME))
  {
    HomeIsFound();
    FirstListing(JustUnlocked(HOME_ONLY, "home"), HOME, DirectoryOnly, 2, 1);
    OneDirectory(HOME);
  }

  /** A listing that fails after the entry expired takes the entry out of the map. */
  lemma {:induction false} FailureDropsExpiredEntry()
    ensures var s1 := JustUnlocked(HOME_ONLY, "home");
            var s2 := AfterListRemote(s1, ROOT, 200, At(1, Online())).0;
            var (s3, reply) := AfterListRemote(s2, ROOT, 200, At(60_002, Offline()));
            reply == ListFailed && ROOT in s2.cache && s3.cache == map[]
  {
    HomeIsFound();
    FirstListing(JustUnlocked(HOME_ONLY, "home"), HOME, Both, 200, 1);
    var s2 := AfterListRemote(JustUnlocked(HOME_ONLY, "home"), ROOT, 200, At(1, Online())).0;
    assert Expired(s2.cache[ROOT], 60_002);
    assert s2.cache - {ROOT} == map[];
  }

  // ----- the loop -----

  /** With the default times, an agent unlocked once and left alone locks itself and exits on the same tick. */
  lemma {:induction false} LocksAndExitsAtOnce()
    ensures var unlock := (Unlock(HOME_ONLY, KEK, "home", None), At(0, Online()));
            var schedule := [Iteration(0, Connection(0, [unlock])), Iteration(600_000, NoConnection),
                             Iteration(600_001, NoConnection)];
            var end := Loop(Fresh(600_000, Disk(None, None), 0), schedule, 300_000);
            && Loop(Fresh(600_000, Disk(None, None), 0), schedule[..2], 300_000).agent.profileSet.Some?
            && end.reason == Some(IdleExit) && end.ticks == 3 && end.agent.profileSet.None?
  {
    var unlock := (Unlock(HOME_ONLY, KEK, "home", None), At(0, Online()));
    var i0, i1, i2 := Iteration(0, Connection(0, [unlock])), Iteration(600_000, NoConnection),
                      Iteration(600_001, NoConnection);
    var schedule := [i0, i1, i2];
    HomeIsFound();
    var s0 := Fresh(600_000, Disk(None, None), 0);
    var requests: seq<(Request, Env)> := [unlock];
    assert requests[1..] == [];
    var s1 := AfterAccept(s0, i0.accepted);
    assert s1 == ServeAll(Served(Touched(s0, 0), unlock.0, unlock.1).0, []);
    assert s1.unlockedAt == Some(0) && s1.lastActivity == 0 && s1.ttl == 600_000;
    assert Loop(s1, [i2], 300_000).reason == Some(IdleExit);
    assert schedule[1..] == [i1, i2] && [i1, i2][1..] == [i2] && schedule[..2][1..] == [i1] && [i1][1..] == [];
    assert Loop(s1, [i1, i2], 300_000).ticks == 2;
    assert Loop(s1, [i1], 300_000).agent == s1;
  }

  // ----- several writers -----

  /** The agent unlocked with one profile, the file in step, nobody else around. */
  const QUIET := System(Served(Fresh(600_000, Disk(Some(Sealed(KEK, HOME_ONLY)), None), 0),
                               Unlock(HOME_ONLY, KEK, "home", None), At(0, Online())).0, map[], map[])

  lemma QuietIsInSync()
    ensures Inv(QUIET.agent) && QUIET.agent.profileSet == Some(HOME_ONLY)
    ensures QUIET.agent.disk.container == Some(Sealed(KEK, HOME_ONLY))
    ensures ActiveProfile(QUIET.agent) == Some(HOME)
  {
    HomeIsFound();
  }

  /**
   An unlock waits at its passphrase prompt while the TUI adds `work` and is told Updated; the unlock goes on, any
   command pushes a refreshed token, and `work` is gone from disk.
   */
  lemma {:induction false} AddedProfileIsLost(refreshed: Provider)
    ensures var s1 := Next(QUIET, UnlockRead(1, KEK));
            var s2 := Next(s1, TuiSave(BOTH_PROFILES, KEK, NoFault));
            var s3 := Next(s2, TuiPush(BOTH_PROFILES, At(1, Online())));
            var s4 := Next(s3, UnlockSend(1, "home", None, At(1, Online())));
            var s5 := Next(s4, CliGet(2, At(1, Online())));
            var s6 := Next(s5, CliPush(2, refreshed, At(1, Online())));
            && Served(s2.agent, UpdateProfileSet(BOTH_PROFILES), At(1, Online())).1 == Updated
            && DiskAliases(s3.agent.disk) == Some(["home", "work"])
            && DiskAliases(s6.agent.disk) == Some(["home"])
  {
    QuietIsInSync();
    HomeIsFound();
    AliasesDiffer();
    LateUnlockUndoesThePush(QUIET, 1, 2, HOME_ONLY, KEK, BOTH_PROFILES, "home", refreshed, At(1, Online()));
  }

  /** Between the TUI's save and its push a command's update takes `work` off the disk again. */
  lemma {:induction false} SaveIsUndoneBeforePush(refreshed: Provider)
    ensures var s1 := Next(QUIET, CliGet(2, At(1, Online())));
            var s2 := Next(s1, TuiSave(BOTH_PROFILES, KEK, NoFault));
            var s3 := Next(s2, CliPush(2, refreshed, At(1, Online())));
            && DiskAliases(s2.agent.disk) == Some(["home", "work"])
            && DiskAliases(s3.agent.disk) == Some(["home"])
  {
    QuietIsInSync();
    HomeIsFound();
    AliasesDiffer();
    var s1 := Next(QUIET, CliGet(2, At(1, Online())));
    assert s1.fetched[2] == HOME && s1.agent.profileSet == Some(HOME_ONLY);
    ReplaceKeepsTheRest(HOME_ONLY, Refreshed(HOME, refreshed));
  }

  /** `work` as the TUI makes it when it is added again after a delete. */
  const NEW_WORK := Profile("id-new", "work", [Provider(Dropbox, "")], "")

  const HOME_AND_NEW := ProfileSet(1, [HOME, NEW_WORK])

  /** The agent unlocked with both profiles, `work` active. */
  const BUSY := System(Served(Fresh(600_000, Disk(Some(Sealed(KEK, BOTH_PROFILES)), None), 0),
                              Unlock(BOTH_PROFILES, KEK, "work", None), At(0, Online())).0, map[], map[])

  lemma NewWorkIsFound()
    ensures HOME_AND_NEW.Find("work") == Some(NEW_WORK) && HOME_AND_NEW.ContainsAlias("work")
  {
    assert HOME.alias != NEW_WORK.alias by {
      assert "home"[0] != "work"[0];
    }
    assert HOME_AND_NEW.profiles[1..] == [NEW_WORK];
    assert FirstWithAlias([NEW_WORK], "work") == Some(0);
  }

  /**
   A command fetches `work`; the TUI deletes it, and adds another profile under the same alias, told Updated both times;
   the command pushes a refreshed token: the deleted profile is back and the added one is gone, the aliases unchanged.
   */
  lemma {:induction false} DeletedProfileComesBack(refreshed: Provider)
    ensures var s1 := Next(BUSY, CliGet(7, At(1, Online())));
            var s2 := Next(Next(s1, TuiSave(HOME_ONLY, KEK, NoFault)), TuiPush(HOME_ONLY, At(1, Online())));
            var s3 := Next(s2, TuiSave(HOME_AND_NEW, KEK, NoFault));
            var s4 := Next(s3, TuiPush(HOME_AND_NEW, At(1, Online())));
            var s5 := Next(s4, CliPush(7, refreshed, At(1, Online())));
            && Served(s3.agent, UpdateProfileSet(HOME_AND_NEW), At(1, Online())).1 == Updated
            && s4.agent.profileSet == Some(HOME_AND_NEW)
            && s5.agent.profileSet.Some? && s5.agent.disk.container == Some(Sealed(KEK, s5.agent.profileSet.value))
            && s5.agent.profileSet.value.Find("work") == Some(Refreshed(WORK, refreshed))
            && s5.agent.profileSet.value.Aliases() == HOME_AND_NEW.Aliases()
  {
    WorkIsFound();
    NewWorkIsFound();
    var env := At(1, Online());
    var s1 := Next(BUSY, CliGet(7, env));
    assert s1.fetched[7] == WORK && s1.agent.profileSet == Some(BOTH_PROFILES) && s1.agent.kek == Some(KEK);
    var s2 := Next(Next(s1, TuiSave(HOME_ONLY, KEK, NoFault)), TuiPush(HOME_ONLY, env));
    assert s2.agent.profileSet == Some(HOME_ONLY) && s2.agent.kek == Some(KEK) && s2.fetched[7] == WORK;
    var s3 := Next(s2, TuiSave(HOME_AND_NEW, KEK, NoFault));
    var s4 := Next(s3, TuiPush(HOME_AND_NEW, env));
    assert s4.agent.profileSet == Some(HOME_AND_NEW) && s4.agent.kek == Some(KEK) && s4.fetched[7] == WORK;
    ReplaceKeepsTheRest(HOME_AND_NEW, Refreshed(WORK, refreshed));
  }

  // ----- completion -----

  /** Behind `docs/` the root is listed, and a name in it is offered as a name in `docs`. */
  lemma {:induction false} TrailingSlashListsTheRoot()
    ensures Completion.ParentForRemotePrefix("docs/") == None
    ensures Completion.RemoteJoin("docs/", "a") == "docs/a"
  {
    assert EndsWithChar("docs/", '/') && "docs/"[..4] == "docs";
    assert TrimEnd("docs/", '/') == TrimEnd("docs", '/') == "docs";
    assert LastIndex("docs/", '/') == Some(4);
  }

  // ----- the mirror -----

  /** A local name with a backslash is saved like any other and is no safe name to download under. */
  lemma {:induction false} BackslashNameIsSelectedButUnsafe(body: RemoteTrees.Bytes)
    ensures LocalWalk.Selected([LocalWalk.Entry(Some("a\\b"), LocalWalk.File(body))], ["a\\b"], body)
    ensures !Download.SafePath(["a\\b"])
  {
    var e := LocalWalk.Entry(Some("a\\b"), LocalWalk.File(body));
    assert e in [e] && "a\\b"[1] == '\\';
    assert "a\\b" in ["a\\b"];
  }

  /** An empty tree saved below a prefix that does not exist: the download of the prefix reports one failure. */
  lemma {:induction false} EmptyTreeIsNotMirrored(dest: RemoteTrees.Path)
    ensures var r := RemoteTrees.Remote(map[], {[]});
            var l := Download.Local(map[], {});
            && Mirror.RoundTrip([], [], r, r, ["new"], l, l, dest, SaveAll.Tally(0, 1))
  {
  }
}
