/** The accept loop (src/agent/server.rs): tick, idle exit, one connection at a time. */
module ServerLoops {
  import opened Basics
  import opened Containers
  import opened ListCaches
  import opened AgentModel
  import opened AgentSafety
  import opened AgentObjects

  /** What one `accept` brings: nothing (then the loop sleeps), or an authorised connection and its requests. */
  datatype Accepted = NoConnection | Connection(at: nat, requests: seq<(Request, Env)>)

  datatype Iteration = Iteration(now: nat, accepted: Accepted)

  datatype ExitReason = ExitRequest | IdleExit

  /** How far a schedule got: the agent then, the iterations begun, and why the loop ended if it did. */
  datatype LoopEnd = LoopEnd(agent: Agent, ticks: nat, reason: Option<ExitReason>)

  function ServeAll(s: Agent, requests: seq<(Request, Env)>): Agent
    decreases |requests|
  {
    if requests == [] then s
    else
      var s' := Served(s, requests[0].0, requests[0].1).0;
      if requests[0].0.Exit? then s' else ServeAll(s', requests[1..])
  }

  function AfterAccept(s: Agent, a: Accepted): Agent
  {
    match a
    case NoConnection => s
    case Connection(at, requests) => ServeAll(Touched(s, at), requests)
  }

  predicate IdleTooLong(s: Agent, now: nat, idleExit: nat)
  {
    s.profileSet.None? && Elapsed(s.lastActivity, now) > idleExit
  }

  function Loop(s: Agent, schedule: seq<Iteration>, idleExit: nat): LoopEnd
    decreases |schedule|
  {
    if schedule == [] then LoopEnd(s, 0, None)
    else if s.exitRequested then LoopEnd(s, 1, Some(ExitRequest))
    else
      var s1 := AfterTtlCheck(s, schedule[0].now);
      if IdleTooLong(s1, schedule[0].now, idleExit) then LoopEnd(s1, 1, Some(IdleExit))
      else
        var end := Loop(AfterAccept(s1, schedule[0].accepted), schedule[1..], idleExit);
        end.(ticks := end.ticks + 1)
  }

  method HandleConnection(agent: AgentState, at: nat, requests: seq<(Request, Env)>)
    modifies agent, agent.listCache, agent.clients, agent.file
    ensures agent.Model() == AfterAccept(old(agent.Model()), Connection(at, requests))
  {
    agent.Touch(at);
    var i := 0;
    var done := false;
    assert requests[0..] == requests;
    while i < |requests| && !done
      invariant 0 <= i <= |requests|
      invariant ServeAll(Touched(old(agent.Model()), at), requests) ==
                if done then agent.Model() else ServeAll(agent.Model(), requests[i..])
    {
      var (req, env) := requests[i];
      assert requests[i..][0] == requests[i] && requests[i..][1..] == requests[i + 1..];
      var _ := agent.ServeRequest(req, env);
      done := req.Exit?;
      i := i + 1;
    }
  }

  method RunLoop(agent: AgentState, schedule: seq<Iteration>, idleExit: nat)
    returns (ticks: nat, reason: Option<ExitReason>)
    modifies agent, agent.listCache, agent.clients, agent.file
    ensures LoopEnd(agent.Model(), ticks, reason) == Loop(old(agent.Model()), schedule, idleExit)
  {
    ticks, reason := 0, None;
    assert schedule[0..] == schedule;
    while ticks < |schedule|
      invariant 0 <= ticks <= |schedule| && reason.None?
      invariant var rest := Loop(agent.Model(), schedule[ticks..], idleExit);
                rest.(ticks := rest.ticks + ticks) == Loop(old(agent.Model()), schedule, idleExit)
    {
      var it := schedule[ticks];
      assert schedule[ticks..][0] == it && schedule[ticks..][1..] == schedule[ticks + 1..];
      ticks := ticks + 1;
      if agent.exitRequested {
        reason := Some(ExitRequest);
        return;
      }
      var _ := agent.CheckTtlAndLock(it.now);
      if agent.profileSet.None? && Elapsed(agent.lastActivity, it.now) > idleExit {
        reason := Some(IdleExit);
        return;
      }
      if it.accepted.Connection? {
        HandleConnection(agent, it.accepted.at, it.accepted.requests);
      }
    }
  }

  // ----- the loop is one of the runs the safety results speak of -----

  function ServedEvents(requests: seq<(Request, Env)>): seq<Event>
    decreases |requests|
  {
    if requests == [] then []
    else [Serve(requests[0].0, requests[0].1)] + if requests[0].0.Exit? then [] else ServedEvents(requests[1..])
  }

  function AcceptedEvents(a: Accepted): seq<Event>
  {
    match a
    case NoConnection => []
    case Connection(at, requests) => [Connect(at)] + ServedEvents(requests)
  }

  function LoopEvents(s: Agent, schedule: seq<Iteration>, idleExit: nat): seq<Event>
    decreases |schedule|
  {
    if schedule == [] || s.exitRequested then []
    else
      var s1 := AfterTtlCheck(s, schedule[0].now);
      [TtlCheck(schedule[0].now)] +
      if IdleTooLong(s1, schedule[0].now, idleExit) then []
      else
        AcceptedEvents(schedule[0].accepted) +
        LoopEvents(AfterAccept(s1, schedule[0].accepted), schedule[1..], idleExit)
  }

  lemma {:induction false} RunAppend(s: Agent, a: seq<Event>, b: seq<Event>)
    ensures Run(s, a + b) == Run(Run(s, a), b)
    decreases |b|
  {
    if b == [] {
      assert a + b == a;
    } else {
      var n := |b| - 1;
      RunAppend(s, a, b[..n]);
      assert (a + b)[..|a + b| - 1] == a + b[..n];
    }
  }

  lemma {:induction false} RunOne(s: Agent, e: Event)
    ensures Run(s, [e]) == Step(s, e)
  {
    assert [e][..0] == [];
    assert Run(s, [e][..0]) == s;
  }

  lemma {:induction false} ServeAllIsARun(s: Agent, requests: seq<(Request, Env)>)
    ensures Run(s, ServedEvents(requests)) == ServeAll(s, requests)
    decreases |requests|
  {
    if requests != [] {
      var e := Serve(requests[0].0, requests[0].1);
      RunOne(s, e);
      if requests[0].0.Exit? {
        assert ServedEvents(requests) == [e];
      } else {
        ServeAllIsARun(Step(s, e), requests[1..]);
        RunAppend(s, [e], ServedEvents(requests[1..]));
      }
    }
  }

  lemma {:induction false} AcceptIsARun(s: Agent, a: Accepted)
    ensures Run(s, AcceptedEvents(a)) == AfterAccept(s, a)
  {
    if a.Connection? {
      RunOne(s, Connect(a.at));
      ServeAllIsARun(Touched(s, a.at), a.requests);
      RunAppend(s, [Connect(a.at)], ServedEvents(a.requests));
    }
  }

  lemma {:induction false} LoopIsARun(s: Agent, schedule: seq<Iteration>, idleExit: nat)
    ensures Run(s, LoopEvents(s, schedule, idleExit)) == Loop(s, schedule, idleExit).agent
    decreases |schedule|
  {
    if schedule != [] && !s.exitRequested {
      var it := schedule[0];
      var s1 := AfterTtlCheck(s, it.now);
      RunOne(s, TtlCheck(it.now));
      if IdleTooLong(s1, it.now, idleExit) {
        assert LoopEvents(s, schedule, idleExit) == [TtlCheck(it.now)];
      } else {
        var s2 := AfterAccept(s1, it.accepted);
        var rest := LoopEvents(s2, schedule[1..], idleExit);
        AcceptIsARun(s1, it.accepted);
        LoopIsARun(s2, schedule[1..], idleExit);
        RunAppend(s1, AcceptedEvents(it.accepted), rest);
        RunAppend(s, [TtlCheck(it.now)], AcceptedEvents(it.accepted) + rest);
      }
    }
  }

  // ----- exit -----

  predicate AsksToExit(a: Accepted)
  {
    a.Connection? && exists k | 0 <= k < |a.requests| :: a.requests[k].0.Exit?
  }

  /** A connection counts as activity even when no request follows. */
  lemma ConnectionIsActivity(s: Agent, at: nat)
    ensures AfterAccept(s, Connection(at, [])) == s.(lastActivity := at)
    ensures AfterAccept(s, NoConnection) == s
  {
  }

  /** Nothing behind an Exit is served, and the Exit itself only raises the flag and counts as activity. */
  lemma {:induction false} NothingBehindExit(s: Agent, before: seq<(Request, Env)>, env: Env, rest: seq<(Request, Env)>)
    requires forall k | 0 <= k < |before| :: !before[k].0.Exit?
    ensures ServeAll(s, before + [(Exit, env)] + rest) ==
            ServeAll(s, before).(lastActivity := env.now, exitRequested := true)
    decreases |before|
  {
    var all := before + [(Exit, env)] + rest;
    if before != [] {
      assert all[1..] == before[1..] + [(Exit, env)] + rest;
      NothingBehindExit(Served(s, before[0].0, before[0].1).0, before[1..], env, rest);
    }
  }

  lemma {:induction false} FlagAfterConnection(s: Agent, requests: seq<(Request, Env)>)
    ensures ServeAll(s, requests).exitRequested <==>
            s.exitRequested || exists k | 0 <= k < |requests| :: requests[k].0.Exit?
    decreases |requests|
  {
    if requests != [] && !requests[0].0.Exit? {
      FlagAfterConnection(Served(s, requests[0].0, requests[0].1).0, requests[1..]);
      assert forall k | 1 <= k < |requests| :: requests[k] == requests[1..][k - 1];
      assert forall k | 0 <= k < |requests| - 1 :: requests[1..][k] == requests[k + 1];
    }
  }

  /**
   The loop ends for an Exit iff one was asked for in an iteration it has passed, and then in the iteration after that
   one.
   */
  lemma {:induction false} ExitEndsTheLoop(s: Agent, schedule: seq<Iteration>, idleExit: nat)
    requires !s.exitRequested
    ensures var end := Loop(s, schedule, idleExit);
            && end.ticks <= |schedule|
            && (end.reason == Some(ExitRequest) <==>
                  exists i | 0 <= i < end.ticks - 1 :: AsksToExit(schedule[i].accepted))
            && (forall i | 0 <= i < end.ticks - 1 :: AsksToExit(schedule[i].accepted) ==> end.ticks == i + 2)
    decreases |schedule|
  {
    if schedule != [] {
      var (it, rest) := (schedule[0], schedule[1..]);
      var s1 := AfterTtlCheck(s, it.now);
      if !IdleTooLong(s1, it.now, idleExit) {
        var s2 := AfterAccept(s1, it.accepted);
        var end, inner := Loop(s, schedule, idleExit), Loop(s2, rest, idleExit);
        if it.accepted.Connection? {
          FlagAfterConnection(Touched(s1, it.accepted.at), it.accepted.requests);
        }
        assert s2.exitRequested <==> AsksToExit(it.accepted);
        if !s2.exitRequested {
          ExitEndsTheLoop(s2, rest, idleExit);
        }
        assert forall i | 0 < i < |schedule| :: schedule[i] == rest[i - 1];
        assert forall i | 0 <= i < |rest| :: rest[i] == schedule[i + 1];
      }
    }
  }

  // ----- how long the loop lives without connections -----

  predicate Quiet(schedule: seq<Iteration>)
  {
    && (forall i | 0 <= i < |schedule| :: schedule[i].accepted.NoConnection?)
    && (forall i, j | 0 <= i <= j < |schedule| :: schedule[i].now <= schedule[j].now)
  }

  /** The later of TTL expiry, when unlocked, and the idle limit. */
  function Deadline(s: Agent, idleExit: nat): nat
  {
    var idle := s.lastActivity + idleExit;
    if s.unlockedAt.Some? && s.unlockedAt.value + s.ttl > idle then s.unlockedAt.value + s.ttl else idle
  }

  /** A quiet loop ends at the first tick past the deadline, and at no tick before. */
  lemma {:induction false} QuietLoopEndsPastDeadline(s: Agent, schedule: seq<Iteration>, idleExit: nat)
    requires Inv(s) && !s.exitRequested && Quiet(schedule)
    ensures var end := Loop(s, schedule, idleExit);
            var deadline := Deadline(s, idleExit);
            && end.ticks <= |schedule|
            && (end.reason.Some? <==> exists i | 0 <= i < |schedule| :: schedule[i].now > deadline)
            && (end.reason.None? ==> end.ticks == |schedule|)
            && (end.reason.Some? ==>
                  && end.reason == Some(IdleExit) && end.ticks >= 1
                  && schedule[end.ticks - 1].now > deadline
                  && (forall i | 0 <= i < end.ticks - 1 :: schedule[i].now <= deadline)
                  && end.agent.profileSet.None?)
    decreases |schedule|
  {
    if schedule != [] {
      var now := schedule[0].now;
      var s1 := AfterTtlCheck(s, now);
      if !IdleTooLong(s1, now, idleExit) {
        var rest := schedule[1..];
        assert forall i | 0 <= i < |rest| :: rest[i] == schedule[i + 1];
        QuietLoopEndsPastDeadline(s1, rest, idleExit);
        var d, d1 := Deadline(s, idleExit), Deadline(s1, idleExit);
        assert now <= d;
        assert forall i | 0 <= i < |rest| :: rest[i].now > d1 <==> rest[i].now > d;
        if exists i | 0 <= i < |schedule| :: schedule[i].now > d {
          var i :| 0 <= i < |schedule| && schedule[i].now > d;
          assert rest[i - 1].now > d1;
        }
      }
    }
  }

  lemma {:induction false} TicksAdvance(schedule: seq<Iteration>, poll: nat, i: nat)
    requires i < |schedule|
    requires forall k | 0 <= k < |schedule| - 1 :: schedule[k].now + poll <= schedule[k + 1].now
    ensures schedule[0].now + i * poll <= schedule[i].now
  {
    if i > 0 {
      TicksAdvance(schedule, poll, i - 1);
      assert i * poll == (i - 1) * poll + poll;
    }
  }

  lemma DivisionOvershoots(x: nat, poll: nat)
    requires poll > 0
    ensures (x / poll + 1) * poll > x
  {
    assert x == (x / poll) * poll + x % poll;
    assert (x / poll + 1) * poll == (x / poll) * poll + poll;
  }

  /** How many ticks at most until the deadline is past, when ticks come at least `poll` apart. */
  function TickBound(s: Agent, start: nat, idleExit: nat, poll: nat): nat
    requires poll > 0
  {
    var d := Deadline(s, idleExit);
    if d < start then 1 else (d - start) / poll + 2
  }

  /** With no connection from now on, the loop is over within the bound, and the agent is locked by then. */
  lemma {:induction false} ExitBound(s: Agent, schedule: seq<Iteration>, idleExit: nat, poll: nat)
    requires Inv(s) && !s.exitRequested && poll > 0
    requires forall i | 0 <= i < |schedule| :: schedule[i].accepted.NoConnection?
    requires forall k | 0 <= k < |schedule| - 1 :: schedule[k].now + poll <= schedule[k + 1].now
    requires schedule != [] && |schedule| >= TickBound(s, schedule[0].now, idleExit, poll)
    ensures var end := Loop(s, schedule, idleExit);
            && end.reason == Some(IdleExit)
            && end.ticks <= TickBound(s, schedule[0].now, idleExit, poll)
            && end.agent.profileSet.None?
  {
    var start := schedule[0].now;
    var d := Deadline(s, idleExit);
    var i := TickBound(s, start, idleExit, poll) - 1;
    TicksAdvance(schedule, poll, i);
    if d >= start {
      DivisionOvershoots(d - start, poll);
    }
    assert schedule[i].now > d;
    TicksAreMonotone(schedule, poll);
    QuietLoopEndsPastDeadline(s, schedule, idleExit);
  }

  lemma {:induction false} TicksAreMonotone(schedule: seq<Iteration>, poll: nat)
    requires forall k | 0 <= k < |schedule| - 1 :: schedule[k].now + poll <= schedule[k + 1].now
    ensures forall i, j | 0 <= i <= j < |schedule| :: schedule[i].now <= schedule[j].now
  {
    if schedule != [] {
      var n := |schedule| - 1;
      TicksAreMonotone(schedule[..n], poll);
      forall i, j | 0 <= i <= j < |schedule| ensures schedule[i].now <= schedule[j].now {
        if i < j == n {
          assert schedule[..n][i].now <= schedule[..n][n - 1].now;
          assert schedule[n - 1].now + poll <= schedule[n - 1 + 1].now;
        } else if j < n {
          assert schedule[..n][i].now <= schedule[..n][j].now;
        }
      }
    }
  }

  /** Auto-lock is no activity: an agent locked by its TTL exits on that very tick iff it was idle long enough. */
  lemma {:induction false} AutoLockCanExitAtOnce(s: Agent, it: Iteration, idleExit: nat)
    requires Inv(s) && !s.exitRequested && TtlPassed(s, it.now) && it.accepted.NoConnection?
    ensures Loop(s, [it], idleExit).reason == Some(IdleExit) <==> Elapsed(s.lastActivity, it.now) > idleExit
  {
    assert [it][1..] == [];
  }

  // ----- the TTL counts from the last renewal -----

  /** Renewals are exactly an accepted Unlock, GetProfile, and a listing that misses the cache. */
  predicate Renews(s: Agent, e: Event)
  {
    e.Serve? &&
    match e.req
    case Unlock(pset, _, alias, _) => pset.ContainsAlias(alias)
    case GetProfile => true
    case ListRemote(prefix, kind, _) => Lookup(s.cache, CacheKey(prefix, kind), e.env.wallAtGet).1.None?
    case _ => false
  }

  function LastRenewal(s: Agent, events: seq<Event>): Option<nat>
  {
    if events == [] then None
    else
      var n := |events| - 1;
      if Renews(Run(s, events[..n]), events[n]) then Some(events[n].env.now) else LastRenewal(s, events[..n])
  }

  lemma {:induction false} RenewalStep(s: Agent, e: Event)
    ensures Step(s, e).unlockedAt.Some? ==>
              Step(s, e).unlockedAt == if Renews(s, e) then Some(e.env.now) else s.unlockedAt
    ensures Renews(s, e) && s.unlockedAt.Some? ==> Step(s, e).unlockedAt == Some(e.env.now)
  {
  }

  /** In every run from start-up the unlock clock stands at the last renewal. */
  lemma {:induction false} UnlockClockIsLastRenewal(ttl: nat, disk: Disk, start: nat, events: seq<Event>)
    ensures var s := Run(Fresh(ttl, disk, start), events);
            s.unlockedAt.Some? ==> s.unlockedAt == LastRenewal(Fresh(ttl, disk, start), events)
  {
    var s0 := Fresh(ttl, disk, start);
    if events != [] {
      var n := |events| - 1;
      UnlockClockIsLastRenewal(ttl, disk, start, events[..n]);
      RenewalStep(Run(s0, events[..n]), events[n]);
    }
  }

  /** After any tick an unlocked agent was renewed no longer ago than its TTL. */
  lemma {:induction false} TickHonoursTtl(ttl: nat, disk: Disk, start: nat, events: seq<Event>, now: nat)
    ensures var s0 := Fresh(ttl, disk, start);
            var s := Step(Run(s0, events), TtlCheck(now));
            s.profileSet.Some? ==>
              LastRenewal(s0, events).Some? && Elapsed(LastRenewal(s0, events).value, now) <= s.ttl
  {
    var s0 := Fresh(ttl, disk, start);
    RunsKeepInv(s0, events);
    UnlockClockIsLastRenewal(ttl, disk, start, events);
  }
}
