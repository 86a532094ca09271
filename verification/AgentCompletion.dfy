/** Completion that asks the running agent for remote names (src/sacs/agent_source.rs). */
module AgentCompletion {
  import opened Basics
  import opened Text
  import opened Profiles
  import opened Containers
  import opened ListCaches
  import opened AgentModel
  import opened AgentSafety
  import opened AgentRequests
  import Ndjson
  import Completion

  const REMOTE_LIST_MAX: nat := 200

  /** The agent as a source of listings; one run of the completer asks for one prefix and kind only. */
  function SourceOf(s: Agent, env: Env): Completion.RemoteSource
  {
    (prefix: Option<string>, kind: KindFilter) => Answered(Served(s, ListRemote(prefix, kind, REMOTE_LIST_MAX), env).1)
  }

  function Answered(response: Response): Option<seq<ListEntry>>
  {
    if response.RemoteList? then Some(response.entries) else None
  }

  /** The completer asks for two hundred entries, and every reply but a listing is no answer. */
  lemma {:induction false} CompleterAsks(s: Agent, prefix: Option<string>, kind: KindFilter, env: Env)
    ensures var r := Served(s, ListRemote(prefix, kind, 200), env).1;
            SourceOf(s, env)(prefix, kind) == if r.RemoteList? then Some(r.entries) else None
  {
  }

  /** What is sent stands for the entries of the kind asked for, field by field. */
  lemma {:induction false} SentEntry(kind: KindFilter, raw: seq<RawEntry>, x: ListEntry)
    ensures x in Shaped(kind, raw) <==> exists e | e in raw :: AskedFor(kind, e) && StandsFor(x, e)
  {
    var wanted := e => Admits(kind, e);
    FilterMembers(wanted, raw);
    Completion.MapMember(Sent, Filter(wanted, raw), x);
    if e :| e in raw && AskedFor(kind, e) && StandsFor(x, e) {
      assert Admits(kind, e) && Sent(e) == x;
    }
  }

  /** The request the completer sends. */
  function Asking(prefix: Option<string>, kind: KindFilter, env: Env): Event
  {
    Serve(ListRemote(prefix, kind, REMOTE_LIST_MAX), env)
  }

  /**
   `x` is in `entry`, which holds what the provider answered for profile `p` at `prefix` when one of `events` was served.
   */
  ghost predicate ListedFor(p: Profile, prefix: Option<string>, kind: KindFilter, events: seq<Event>, entry: CacheEntry,
                            x: ListEntry)
  {
    && entry.source.profile == p && entry.source.segments == QuerySegments(prefix)
    && (exists e | e in entry.source.raw :: AskedFor(kind, e) && StandsFor(x, e))
    && (exists i | 0 <= i < |events| :: FilledBy(CacheKey(prefix, kind), entry, events[i]))
  }

  /** The entry behind an answer: it is in the cache afterwards, and it is the active profile's. */
  lemma {:induction false} AnswerIsCached(s: Agent, prefix: Option<string>, kind: KindFilter, env: Env) returns (e: CacheEntry)
    requires Inv(s) && Coherent(s) && CacheSound(s)
    requires SourceOf(s, env)(prefix, kind).Some?
    ensures var s' := Step(s, Asking(prefix, kind, env));
            CacheKey(prefix, kind) in s'.cache && s'.cache[CacheKey(prefix, kind)] == e
    ensures SourceOf(s, env)(prefix, kind) == Some(e.entries)
    ensures EntrySound(CacheKey(prefix, kind), e) && ActiveProfile(s) == Some(e.source.profile)
  {
    var t := Touched(s, env.now);
    var key := CacheKey(prefix, kind);
    assert Inv(t) && Coherent(t) && CacheSound(t) && ActiveProfile(t) == ActiveProfile(s);
    ListingKeepsCoherence(t, key, REMOTE_LIST_MAX, env);
    ListingKeepsCacheSound(t, key, REMOTE_LIST_MAX, env);
    e := AfterListRemote(t, key, REMOTE_LIST_MAX, env).1.entry;
  }

  /** After a guarded run the agent answers with entries fetched for the active profile only. */
  lemma {:induction false} AnswersAreForActiveProfile(s0: Agent, events: seq<Event>, prefix: Option<string>,
                                                      kind: KindFilter, env: Env, x: ListEntry)
    requires s0.cache == map[]
    requires Inv(Run(s0, events)) && Coherent(Run(s0, events)) && CacheSound(Run(s0, events))
    requires SourceOf(Run(s0, events), env)(prefix, kind).Some?
    requires x in SourceOf(Run(s0, events), env)(prefix, kind).value
    ensures ActiveProfile(Run(s0, events)).Some?
    ensures exists entry ::
              ListedFor(ActiveProfile(Run(s0, events)).value, prefix, kind, events + [Asking(prefix, kind, env)], entry, x)
  {
    var s := Run(s0, events);
    var entry := AnswerIsCached(s, prefix, kind, env);
    var all := events + [Asking(prefix, kind, env)];
    assert all[..|all| - 1] == events && Run(s0, all) == Step(s, Asking(prefix, kind, env));
    EveryEntryWasFetched(s0, all, CacheKey(prefix, kind));
    assert x in Shaped(kind, entry.source.raw);
    SentEntry(kind, entry.source.raw, x);
    assert ListedFor(ActiveProfile(s).value, prefix, kind, all, entry, x);
  }

  predicate IsRemoteKind(k: Ndjson.Kind) { k.FileRemote? || k.DirRemote? }

  /** The value offered for a listed entry; directories end in a slash. */
  predicate Offers(cur: string, c: Ndjson.Candidate, x: ListEntry)
  {
    var joined := Completion.RemoteJoin(cur, x.name);
    if c.kind.DirRemote? then x.kind.Directory? && c.value == (if EndsWithChar(joined, '/') then joined else joined + "/")
    else x.kind.File? && c.value == joined
  }

  ghost predicate ComesFrom(cenv: Completion.Env, cur: string, c: Ndjson.Candidate, kind: KindFilter, x: ListEntry)
  {
    && x in Completion.TryListRemote(cenv.remote, Completion.ParentForRemotePrefix(cur), kind)
    && Offers(cur, c, x)
  }

  lemma {:induction false} RemoteFileIsListed(cenv: Completion.Env, cur: string, g: Completion.Group, c: Ndjson.Candidate)
    requires g.RemoteFiles? && c in Completion.Show(cenv, cur, g) && c.kind.FileRemote?
    ensures exists x :: ComesFrom(cenv, cur, c, g.query, x)
  {
    var row := Completion.RemoteFileRow(g.verb, cur, g.caption, g.base, cenv.sizeText);
    var matches := Completion.RemoteMatches(cenv, cur, g.query, File);
    Completion.CappedMember(matches, Completion.ByName, row, "remote files", c);
    var i: nat, x :| i < Completion.CANDIDATE_LIMIT && x in matches && c == row(i, x);
    Completion.RemoteMatchFits(cenv, cur, g.query, File, x);
    ListedMatch(cenv, cur, g.query, File, x);
    assert ComesFrom(cenv, cur, c, g.query, x);
  }

  lemma {:induction false} RemoteDirIsListed(cenv: Completion.Env, cur: string, g: Completion.Group, c: Ndjson.Candidate)
    requires g.RemoteDirs? && c in Completion.Show(cenv, cur, g) && c.kind.DirRemote?
    ensures exists x :: ComesFrom(cenv, cur, c, g.query, x)
  {
    var row := Completion.RemoteDirRow(g.verb, cur, g.base);
    var matches := Completion.RemoteMatches(cenv, cur, g.query, Directory);
    Completion.CappedMember(matches, Completion.ByName, row, "remote dirs", c);
    var i: nat, x :| i < Completion.CANDIDATE_LIMIT && x in matches && c == row(i, x);
    Completion.RemoteMatchFits(cenv, cur, g.query, Directory, x);
    ListedMatch(cenv, cur, g.query, Directory, x);
    assert ComesFrom(cenv, cur, c, g.query, x);
  }

  /** Every remote candidate stands for an entry of the listing that was asked for. */
  lemma {:induction false} RemoteCandidateIsListed(cenv: Completion.Env, cur: string, g: Completion.Group,
                                                   c: Ndjson.Candidate)
    requires c in Completion.Show(cenv, cur, g) && IsRemoteKind(c.kind) && Completion.PlainGroup(g)
    ensures exists kind, x :: ComesFrom(cenv, cur, c, kind, x)
  {
    Completion.GroupRowsFit(cenv, cur, g, c);
    if g.RemoteFiles? {
      RemoteFileIsListed(cenv, cur, g, c);
    } else if g.RemoteDirs? {
      RemoteDirIsListed(cenv, cur, g, c);
    }
  }

  lemma ListedMatch(cenv: Completion.Env, cur: string, query: KindFilter, kind: RemoteKind, x: ListEntry)
    requires x in Completion.RemoteMatches(cenv, cur, query, kind)
    ensures x in Completion.TryListRemote(cenv.remote, Completion.ParentForRemotePrefix(cur), query)
  {
    FilterMembers(Completion.Fits(kind, cur),
                  Completion.TryListRemote(cenv.remote, Completion.ParentForRemotePrefix(cur), query));
  }

  lemma {:induction false} GuardedRunIsSound(ttl: nat, disk: Disk, start: nat, events: seq<Event>)
    requires var s0 := Fresh(ttl, disk, start);
             BenignUpTo(s0, events)
    ensures var s := Run(Fresh(ttl, disk, start), events);
            Inv(s) && Coherent(s) && CacheSound(s)
  {
    var s0 := Fresh(ttl, disk, start);
    RunsKeepInv(s0, events);
    RunsKeepCacheSound(s0, events);
    CoherentThroughout(s0, events);
    assert events[..|events|] == events;
    assert Coherent(Run(s0, events[..|events|]));
  }

  /**
   From the provider to the prompt. After any run in which every Unlock met its guard, each remote candidate of a
   completion stands for an entry that was listed, at the prefix asked for, with the profile that is active now; so a
   locked agent contributes none.
   */
  lemma {:induction false} RemoteCandidatesAreOfActiveProfile(
      ttl: nat, disk: Disk, start: nat, events: seq<Event>, env: Env, cenv: Completion.Env,
      state: Completion.SacsState, prev: seq<string>, cur: string, c: Ndjson.Candidate)
    requires var s0 := Fresh(ttl, disk, start);
             BenignUpTo(s0, events)
    requires cenv.remote == Some(SourceOf(Run(Fresh(ttl, disk, start), events), env))
    requires c in Completion.ShowAll(cenv, cur, Completion.Plan(state, prev, cur)) && IsRemoteKind(c.kind)
    ensures var s := Run(Fresh(ttl, disk, start), events);
            var parent := Completion.ParentForRemotePrefix(cur);
            && s.profileSet.Some? && ActiveProfile(s).Some?
            && exists kind, entry, x ::
                 ListedFor(ActiveProfile(s).value, parent, kind, events + [Asking(parent, kind, env)], entry, x)
                 && Offers(cur, c, x)
  {
    var s0 := Fresh(ttl, disk, start);
    GuardedRunIsSound(ttl, disk, start, events);
    var plan := Completion.Plan(state, prev, cur);
    Completion.ConcatMember(Completion.Showing(cenv, cur), plan, c);
    var g :| g in plan && c in Completion.Showing(cenv, cur)(g);
    Completion.PlanIsPlain(state, prev, cur);
    RemoteCandidateIsListed(cenv, cur, g, c);
    var kind, x :| ComesFrom(cenv, cur, c, kind, x);
    AnswersAreForActiveProfile(s0, events, Completion.ParentForRemotePrefix(cur), kind, env, x);
  }
}
