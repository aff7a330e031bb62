/** Clients: the retry loop over a pool, pool lookup, manual control, Close (client.go:19-25, 99-244, 339-383). */
module Clients {
  import opened Basics
  import opened Cooldown
  import opened Vitals
  import opened Transport
  import opened Endpoints
  import opened Pools
  import opened Fleets
  import opened Requests
  import opened Retry

  /** The clock does not run backwards during an attempt that begins at `clock` or later. */
  ghost predicate Timely(clock: int, w: Weather) {
    0.0 <= w.draw < 1.0 && Ticking(clock, w.readings) && forall i: nat :: w.readings(i) <= w.done
  }

  ghost predicate Orderly(clock: int, ws: seq<Weather>) {
    && (forall i :: 0 <= i < |ws| ==> Timely(clock, ws[i]))
    && (forall i, j :: 0 <= i < j < |ws| ==> Timely(ws[i].done, ws[j]))
  }

  lemma EarlierIsTimely(a: int, b: int, w: Weather)
    requires Timely(b, w) && a <= b
    ensures Timely(a, w)
  {
  }

  function Conditions(es: seq<Endpoint>): (vs: seq<Vitals>)
    reads es
    ensures |vs| == |es|
    ensures forall p :: 0 <= p < |es| ==> vs[p] == es[p].Condition()
  {
    seq(|es|, p requires 0 <= p < |es| reads es => es[p].Condition())
  }

  /** The delays of the endpoints' pending recoveries. */
  ghost function Recoveries(es: seq<Endpoint>): (rs: seq<Option<int>>)
    reads es
    ensures |rs| == |es|
    ensures forall p :: 0 <= p < |es| ==> rs[p] == es[p].recovery
  {
    seq(|es|, p requires 0 <= p < |es| reads es => es[p].recovery)
  }

  ghost function BooksOf(e: Endpoint): Books
    reads e
  {
    Books(multiset(e.sessions), e.closed, e.totalReqs, e.successReqs, e.avgLatency)
  }

  ghost function AllBooks(es: seq<Endpoint>): (bs: seq<Books>)
    reads es
    ensures |bs| == |es|
    ensures forall p :: 0 <= p < |es| ==> bs[p] == BooksOf(es[p])
  {
    seq(|es|, p requires 0 <= p < |es| reads es => BooksOf(es[p]))
  }

  ghost function StandingOf(pool: Pool): (now: Standing)
    reads pool, pool.endpoints, pool.tracker
    ensures now.Even()
  {
    Standing(Conditions(pool.endpoints), AllBooks(pool.endpoints), pool.tracker.log, pool.currentIndex)
  }

  /** The pool's own selection is the weighted choice on its standing. */
  lemma ChosenByWeight(pool: Pool, domain: string, w: Weather)
    requires pool.Valid() && 0.0 <= w.draw < 1.0
    ensures var choose := ByWeight(BlockPolicy(domain, pool.tracker.ttl, pool.tracker.penalty));
            && pool.Chosen(domain, w.readings, w.draw) == choose(StandingOf(pool), w)
            && Suits(StandingOf(pool).vitals, choose(StandingOf(pool), w))
  {
    ChoiceSuits(BlockPolicy(domain, pool.tracker.ttl, pool.tracker.penalty), StandingOf(pool), w);
    var es := pool.endpoints;
    assert Pools.Scores(es) == ScoresOf(StandingOf(pool)) by {
      forall p | 0 <= p < |es| ensures Pools.Score(es[p]) == ScoreOf(es[p].Condition(), BooksOf(es[p])) {
      }
    }
  }

  /** The retry settings a client is built with, defaults applied. */
  datatype Settings = Settings(maxAttempts: nat, threshold: nat, cooldown: int, maxCooldown: int)

  class Client {
    const detector: Detector
    const maxAttempts: nat
    const threshold: nat
    const cooldown: int
    const maxCooldown: int
    const pools: map<string, Pool>
    const poolNames: seq<string>

    constructor (pools: map<string, Pool>, poolNames: seq<string>, detector: Detector, retry: Settings)
      ensures this.pools == pools && this.poolNames == poolNames && this.detector == detector
      ensures retry == Settings(maxAttempts, threshold, cooldown, maxCooldown)
    {
      this.pools, this.poolNames, this.detector := pools, poolNames, detector;
      this.maxAttempts, this.threshold := retry.maxAttempts, retry.threshold;
      this.cooldown, this.maxCooldown := retry.cooldown, retry.maxCooldown;
    }

    /** Every pool is listed once by name, and no endpoint belongs to two pools. */
    ghost predicate Valid()
      reads Crew(FleetOf(pools))
    {
      Listed(FleetOf(pools), poolNames)
    }

    /** Every session now in a channel, pool by pool. */
    ghost function Idle(): seq<nat>
      requires Valid()
      reads Crew(FleetOf(pools))
    {
      AllIdle(FleetOf(pools), poolNames)
    }

    /** Closes every pool; a second call finds nothing to close. */
    method Close(factory: Factory)
      requires Valid()
      modifies Crew(FleetOf(pools)), factory`closings
      ensures Valid() && Idle() == []
      ensures forall n, p :: n in pools && 0 <= p < |pools[n].endpoints| ==> pools[n].endpoints[p].closed
      ensures multiset(factory.closings) == multiset(old(factory.closings)) + multiset(old(Idle()))
    {
      ClosePools(pools, poolNames, factory);
    }

    function After(a: Attempt, v: Vitals): Vitals {
      if Good(detector, a) then v.Succeeded() else if Blocked(detector, a) then v.Penalised(threshold) else v
    }

    /** A block that sends the endpoint into cooldown starts a recovery with the delay of its new tier. */
    function RecoveryAfter(a: Attempt, before: Option<int>, v: Vitals): Option<int> {
      if Blocked(detector, a) && v.fails >= threshold && v.tier >= 1
      then Some(Delay(cooldown, maxCooldown, v.tier))
      else before
    }

    /**
      What those two say of a returned callback: a blocking one counts as a failure, and at the threshold sends the
      endpoint into cooldown with the delay of its next tier; a good one clears failures and tier; any other error
      changes nothing.
    */
    lemma CallMeaning(a: Attempt, v: Vitals, before: Option<int>)
      requires a.Called?
      ensures var blocked := match a.err
                             case Some(e) => detector.blockedError(e)
                             case None => a.resp.Some? && detector.blockedResponse(a.resp.value);
              var v' := After(a, v);
              && (Good(detector, a) <==> !blocked && a.err == None)
              && (blocked ==>
                    && v'.fails == v.fails + 1
                    && v'.health == (if v'.fails >= threshold then InCooldown else v.health)
                    && v'.tier == (if v'.fails >= threshold then v.tier + 1 else v.tier)
                    && RecoveryAfter(a, before, v')
                       == if v'.fails >= threshold then Some(Delay(cooldown, maxCooldown, v'.tier)) else before)
              && (!blocked ==>
                    && v' == (if a.err == None then v.(fails := 0, tier := 0) else v)
                    && RecoveryAfter(a, before, v') == before)
    {
    }

    /** What a returned callback does to its endpoint's counters and health. */
    method Record(ep: Endpoint, a: Attempt, elapsed: nat)
      requires ep.Valid() && a.Called?
      modifies ep`totalReqs, ep`avgLatency, ep`successReqs, ep`health, ep`fails, ep`tier, ep`recovery
      ensures ep.Valid()
      ensures ep.Condition() == After(a, old(ep.Condition()))
      ensures ep.totalReqs == old(ep.totalReqs) + 1
      ensures ep.successReqs == old(ep.successReqs) + (if Good(detector, a) then 1 else 0)
      ensures ep.avgLatency == MovingAverage.Update(old(ep.avgLatency), elapsed)
      ensures ep.recovery == RecoveryAfter(a, old(ep.recovery), ep.Condition())
    {
      ep.RecordLatency(elapsed);
      if Blocked(detector, a) {
        ep.Penalise(threshold, cooldown, maxCooldown);
      } else if a.err == None {
        ep.RecordSuccess();
        ep.ResetFailCount();
      }
    }

    /** The end of an attempt whose callback has returned: its result is recorded and its session given back. */
    method Settle(ep: Endpoint, s: nat, factory: Factory, a: Attempt, elapsed: nat)
      requires ep.Valid() && !ep.closed && |ep.sessions| < ep.poolSize && a.Called?
      modifies ep, factory`closings
      ensures ep.Valid() && ep.sessions == old(ep.sessions) + [s] && ep.closed == old(ep.closed)
      ensures ep.Condition() == After(a, old(ep.Condition()))
      ensures ep.totalReqs == old(ep.totalReqs) + 1
      ensures ep.successReqs == old(ep.successReqs) + (if Good(detector, a) then 1 else 0)
      ensures ep.avgLatency == MovingAverage.Update(old(ep.avgLatency), elapsed)
      ensures ep.recovery == RecoveryAfter(a, old(ep.recovery), ep.Condition())
      ensures factory.closings == old(factory.closings)
    {
      Record(ep, a, elapsed);
      ep.ReleaseSession(s, factory);
    }

    /**
      One attempt on a selected endpoint, from acquireSession to the deferred releaseSession. Every exit
      leaves the idle sessions as they were.
    */
    method Visit(p: nat, ep: Endpoint, factory: Factory, w: Weather) returns (a: Attempt)
      requires ep.Valid()
      modifies ep, factory`closings
      ensures ep.Valid()
      ensures a == AttemptOf(old(BooksOf(ep)), p, w)
      ensures a == if old(ep.closed) then NotAcquired(p, ClientClosed)
                   else if !w.passes then NotAcquired(p, RateLimited(w.canceled))
                   else if old(ep.sessions) == [] || (w.ended && w.preferContext)
                   then NotAcquired(p, ContextEnded(w.canceled))
                   else Called(p, w.resp, w.err)
      ensures multiset(ep.sessions) == old(multiset(ep.sessions)) && ep.closed == old(ep.closed)
      ensures factory.closings == old(factory.closings)
      ensures ep.Condition() == After(a, old(ep.Condition()))
      ensures ep.recovery == RecoveryAfter(a, old(ep.recovery), ep.Condition())
      ensures ep.totalReqs == old(ep.totalReqs) + (if a.Called? then 1 else 0)
      ensures ep.successReqs == old(ep.successReqs) + (if Good(detector, a) then 1 else 0)
      ensures ep.avgLatency
              == if a.Called? then MovingAverage.Update(old(ep.avgLatency), w.elapsed) else old(ep.avgLatency)
    {
      var acquired := ep.AcquireSession(w.passes, w.ended, w.preferContext);
      match acquired {
        case EndpointClosed => return NotAcquired(p, ClientClosed);
        case LimiterFailed => return NotAcquired(p, RateLimited(w.canceled));
        case ContextDone => return NotAcquired(p, ContextEnded(w.canceled));
        case Waits => return NotAcquired(p, ContextEnded(w.canceled));
        case Session(s) =>
          a := Called(p, w.resp, w.err);
          Settle(ep, s, factory, a, w.elapsed);
      }
    }

    /** What an attempt does, told of its endpoint's entries alone. */
    lemma OneEntry(vs: seq<Vitals>, bs: seq<Books>, a: Attempt, elapsed: nat)
      requires |vs| == |bs| && !a.NoEndpoint? && a.p < |vs|
      ensures Replay(detector, threshold, vs, a) == vs[a.p := After(a, vs[a.p])]
      ensures var b := bs[a.p];
              Enter(detector, bs, a, elapsed)
              == bs[a.p := b.(total := b.total + (if a.Called? then 1 else 0),
                              successes := b.successes + (if Good(detector, a) then 1 else 0),
                              latency := if a.Called? then MovingAverage.Update(b.latency, elapsed) else b.latency)]
    {
    }

    /** A visit to one of several endpoints leaves the others as they were. */
    method VisitAt(es: seq<Endpoint>, p: nat, factory: Factory, w: Weather) returns (a: Attempt)
      requires Members(es) && p < |es|
      modifies es, factory`closings
      ensures Members(es)
      ensures a == AttemptOf(old(BooksOf(es[p])), p, w)
      ensures Conditions(es) == Replay(detector, threshold, old(Conditions(es)), a)
      ensures AllBooks(es) == Enter(detector, old(AllBooks(es)), a, w.elapsed)
      ensures var was := old(Recoveries(es));
              Recoveries(es) == was[p := RecoveryAfter(a, was[p], Conditions(es)[p])]
      ensures factory.closings == old(factory.closings)
    {
      ghost var vs, bs, rs := Conditions(es), AllBooks(es), Recoveries(es);
      var ep := es[p];
      assert vs[p] == ep.Condition() && bs[p] == BooksOf(ep) && rs[p] == ep.recovery;
      a := Visit(p, ep, factory, w);
      forall i | 0 <= i < |es| && i != p ensures es[i] != ep {
      }
      assert Conditions(es) == vs[p := ep.Condition()];
      assert AllBooks(es) == bs[p := BooksOf(ep)];
      assert Recoveries(es) == rs[p := ep.recovery];
      OneEntry(vs, bs, a, w.elapsed);
    }

    method VisitPool(pool: Pool, p: nat, factory: Factory, w: Weather) returns (a: Attempt)
      requires pool.Valid() && p < |pool.endpoints|
      modifies pool.endpoints, factory`closings
      ensures pool.Valid() && pool.tracker.clock == old(pool.tracker.clock)
      ensures a == AttemptOf(old(StandingOf(pool)).books[p], p, w)
      ensures var was := old(StandingOf(pool));
              StandingOf(pool) == was.(vitals := Replay(detector, threshold, was.vitals, a),
                                       books := Enter(detector, was.books, a, w.elapsed))
      ensures var was := old(Recoveries(pool.endpoints));
              Recoveries(pool.endpoints) == was[p := RecoveryAfter(a, was[p], Conditions(pool.endpoints)[p])]
      ensures factory.closings == old(factory.closings)
    {
      a := VisitAt(pool.endpoints, p, factory, w);
    }

    method NoteBlock(pool: Pool, domain: string, a: Attempt, at: int)
      requires pool.Valid() && pool.tracker.clock <= at && (a.Called? ==> a.p < |pool.endpoints|)
      modifies pool.tracker
      ensures pool.Valid() && old(pool.tracker.clock) <= pool.tracker.clock <= at
      ensures var was := old(StandingOf(pool));
              StandingOf(pool) == was.(log := was.log + BlockOf(detector, domain, a, at))
      ensures Recoveries(pool.endpoints) == old(Recoveries(pool.endpoints))
    {
      if Blocked(detector, a) {
        pool.RecordDomainBlock(pool.endpoints[a.p].index, domain, at);
      }
    }

    /** What stays fixed during a request on a pool. */
    ghost function TermsOf(pool: Pool, domain: string): Terms {
      Terms(detector, threshold, domain, ByWeight(BlockPolicy(domain, pool.tracker.ttl, pool.tracker.penalty)))
    }

    /** The selection of one attempt. */
    method Select(pool: Pool, domain: string, w: Weather) returns (chosen: Option<nat>)
      requires pool.Valid() && Timely(pool.tracker.clock, w)
      modifies pool`currentIndex, pool.tracker
      ensures pool.Valid() && pool.tracker.clock <= w.done
      ensures var was := old(StandingOf(pool));
              && chosen == TermsOf(pool, domain).choose(was, w) && Suits(was.vitals, chosen)
              && StandingOf(pool) == was.(index := NextIndex(|was.vitals|, was.index))
      ensures Recoveries(pool.endpoints) == old(Recoveries(pool.endpoints))
    {
      ghost var was := StandingOf(pool);
      ChosenByWeight(pool, domain, w);
      chosen := pool.GetNextEndpointForDomain(domain, w.readings, w.draw);
      assert Conditions(pool.endpoints) == was.vitals && AllBooks(pool.endpoints) == was.books;
    }

    /** One attempt of the retry loop: select an endpoint, visit it, note a block for the domain. */
    method TryOnce(pool: Pool, factory: Factory, domain: string, w: Weather) returns (a: Attempt)
      requires pool.Valid() && Timely(pool.tracker.clock, w)
      modifies pool`currentIndex, pool.tracker, pool.endpoints, factory`closings
      ensures pool.Valid() && pool.tracker.clock <= w.done
      ensures Happens(TermsOf(pool, domain), old(StandingOf(pool)), w, a)
      ensures StandingOf(pool) == Left(TermsOf(pool, domain), old(StandingOf(pool)), a, w)
      ensures var was := old(Recoveries(pool.endpoints));
              Recoveries(pool.endpoints)
              == if a.NoEndpoint? then was
                 else was[a.p := RecoveryAfter(a, was[a.p], Conditions(pool.endpoints)[a.p])]
      ensures factory.closings == old(factory.closings)
    {
      var chosen := Select(pool, domain, w);
      a := NoEndpoint;
      if chosen.Some? {
        a := VisitPool(pool, chosen.value, factory, w);
      }
      NoteBlock(pool, domain, a, w.done);
    }

    /** What the source makes of the loop's error and of the last callback's results. */
    method Report(trace: seq<Attempt>, failure: Option<Error>, lastResp: Option<Response>, lastErr: Option<int>)
      returns (resp: Option<Response>, err: Option<Error>)
      requires Remembers(trace, lastResp, lastErr)
      ensures (resp, err) == Outcome(trace, failure)
    {
      if failure.Some? {
        if lastResp.Some? {
          return lastResp, failure;
        }
        if lastErr.Some? {
          return None, Some(Callback(lastErr.value));
        }
        return None, failure;
      }
      if lastResp.None? {
        return None, Some(NilResponse);
      }
      return lastResp, None;
    }

    /** One turn of the loop, told in terms of the whole trace. */
    method Turn(pool: Pool, factory: Factory, ghost story: Story, domain: string, w: Weather, ghost trace: seq<Attempt>)
      returns (a: Attempt)
      requires pool.Valid() && |trace| < |story.ws| && w == story.ws[|trace|]
      requires Timely(pool.tracker.clock, w)
      requires story.terms == TermsOf(pool, domain) && story.Valid()
      requires Plausible(story, trace) && StandingOf(pool) == Told(story, trace)
      modifies pool`currentIndex, pool.tracker, pool.endpoints, factory`closings
      ensures pool.Valid() && pool.tracker.clock <= w.done
      ensures Plausible(story, trace + [a]) && StandingOf(pool) == Told(story, trace + [a])
      ensures factory.closings == old(factory.closings)
    {
      a := TryOnce(pool, factory, domain, w);
      TellMore(story, trace, a);
    }

    /** One turn of the loop with its bookkeeping: the captured results and the decision to go on. */
    method Round(pool: Pool, factory: Factory, ghost story: Story, domain: string, w: Weather, at: Progress)
      returns (next: Progress)
      requires pool.Valid() && at.verdict == None && OnTrack(story, maxAttempts, at) && |at.trace| < |story.ws|
      requires w == story.ws[|at.trace|] && Timely(pool.tracker.clock, w)
      requires story.terms == TermsOf(pool, domain) && StandingOf(pool) == Told(story, at.trace)
      modifies pool`currentIndex, pool.tracker, pool.endpoints, factory`closings
      ensures pool.Valid() && pool.tracker.clock <= w.done
      ensures |next.trace| == |at.trace| + 1 && OnTrack(story, maxAttempts, next)
      ensures StandingOf(pool) == Told(story, next.trace)
      ensures factory.closings == old(factory.closings)
    {
      var a := Turn(pool, factory, story, domain, w, at.trace);
      LastCallOf(at.trace, a);
      CourseMore(story, maxAttempts, at.trace, a);
      var trace := at.trace + [a];
      var verdict := Verdict(detector, maxAttempts, |trace|, a, w.contextOver);
      if a.Called? {
        next := Progress(trace, verdict, a.resp, a.err);
      } else {
        next := Progress(trace, verdict, at.lastResp, at.lastErr);
      }
    }

    /**
      The retry loop over one pool. `over` says that the context had ended before the first attempt. The
      trace lists the attempts made, `failure` is the error the loop ended on.
    */
    method DoOnPool(pool: Pool, factory: Factory, domain: string, over: bool, ws: seq<Weather>)
      returns (resp: Option<Response>, err: Option<Error>, trace: seq<Attempt>, failure: Option<Error>)
      requires pool.Valid() && 0 < maxAttempts <= |ws| && Orderly(pool.tracker.clock, ws)
      modifies pool`currentIndex, pool.tracker, pool.endpoints, factory`closings
      ensures pool.Valid()
      ensures (resp, err) == Outcome(trace, failure)
      ensures var story := Story(TermsOf(pool, domain), ws, old(StandingOf(pool)));
              Request(story, maxAttempts, over, trace, failure) && StandingOf(pool) == Told(story, trace)
      ensures factory.closings == old(factory.closings)
    {
      ghost var story := Story(TermsOf(pool, domain), ws, StandingOf(pool));
      if over {
        return None, Some(ContextCause), [], Some(ContextCause);
      }
      var at := Progress([], None, None, None);
      while at.verdict.None?
        invariant pool.Valid() && OnTrack(story, maxAttempts, at)
        invariant at.verdict.None? ==> Timely(pool.tracker.clock, ws[|at.trace|])
        invariant StandingOf(pool) == Told(story, at.trace)
        invariant factory.closings == old(factory.closings)
        decreases maxAttempts - |at.trace|
      {
        ghost var n := |at.trace|;
        at := Round(pool, factory, story, domain, ws[|at.trace|], at);
        if at.verdict.None? {
          EarlierIsTimely(pool.tracker.clock, ws[n].done, ws[n + 1]);
        }
      }
      trace, failure := at.trace, at.verdict.value;
      resp, err := Report(trace, failure, at.lastResp, at.lastErr);
    }

    /** The names are those of the pools, each once. */
    ghost predicate Named() {
      Distinct(poolNames) && Elements(poolNames) == pools.Keys
    }

    /** The pool of a name; the empty name means the only pool. */
    function ResolvePool(poolName: string): (r: (Option<Pool>, Option<Error>))
      requires Named()
      ensures r.0.Some? <==> r.1 == None
      ensures r.0.Some? <==> if poolName == "" then |pools.Keys| == 1 else poolName in pools
      ensures r.0.Some? ==>
                exists n :: n in pools && pools[n] == r.0.value
                            && (n == poolName || (poolName == "" && pools.Keys == {n}))
      ensures r.0.None? ==> r.1 == Some(if poolName == "" then AmbiguousPool else PoolNotFound)
    {
      DistinctCardinality(poolNames);
      if poolName == "" then
        if |poolNames| != 1 then (None, Some(AmbiguousPool))
        else
          assert poolNames[0] in Elements(poolNames) && Elements(poolNames) == {poolNames[0]};
          (Some(pools[poolNames[0]]), None)
      else if poolName !in pools then (None, Some(PoolNotFound))
      else (Some(pools[poolName]), None)
    }

    /** The endpoints of a named pool. */
    ghost function Staff(poolName: string): set<object>
      requires Named()
    {
      match ResolvePool(poolName).0
      case None => {}
      case Some(pool) => set p | 0 <= p < |pool.endpoints| :: pool.endpoints[p]
    }

    /** All that a request on a named pool may change, the factory's log apart. */
    ghost function Reach(poolName: string): set<object>
      requires Named()
    {
      match ResolvePool(poolName).0
      case None => {}
      case Some(pool) => {pool, pool.tracker} + Staff(poolName)
    }

    /** A request on a named pool. A name that resolves to no pool is reported before anything happens. */
    method DoForDomain(poolName: string, domain: string, factory: Factory, over: bool, ws: seq<Weather>)
      returns (resp: Option<Response>, err: Option<Error>, trace: seq<Attempt>, failure: Option<Error>)
      requires Named() && 0 < maxAttempts <= |ws|
      requires forall n :: n in pools ==> pools[n].Valid() && Orderly(pools[n].tracker.clock, ws)
      modifies Reach(poolName), factory`closings
      ensures factory.closings == old(factory.closings)
      ensures match ResolvePool(poolName)
              case (Some(pool), _) =>
                && pool.Valid()
                && (resp, err) == Outcome(trace, failure)
                && (var story := Story(TermsOf(pool, domain), ws, old(StandingOf(pool)));
                    Request(story, maxAttempts, over, trace, failure) && StandingOf(pool) == Told(story, trace))
              case (None, why) => resp == None && err == why && trace == []
    {
      var (found, why) := ResolvePool(poolName);
      if found.None? {
        return None, why, [], why;
      }
      resp, err, trace, failure := DoOnPool(found.value, factory, domain, over, ws);
    }

    /** Retires one endpoint of a named pool and touches nothing else. */
    method MarkEndpointDead(poolName: string, index: int) returns (err: Option<Error>)
      requires Named() && forall n :: n in pools ==> pools[n].Valid()
      modifies Staff(poolName)
      ensures match ResolvePool(poolName)
              case (Some(pool), _) =>
                && pool.Valid()
                && Controlled(pool, index, err, old(StandingOf(pool)), (v: Vitals) => v.Retired())
                && Recoveries(pool.endpoints) == old(Recoveries(pool.endpoints))
              case (None, why) => err == why
    {
      var (found, why) := ResolvePool(poolName);
      if found.None? {
        return why;
      }
      err := RetireIn(found.value, index);
    }

    /** Returns one endpoint of a named pool to service with a clean record and touches nothing else. */
    method ResetEndpoint(poolName: string, index: int) returns (err: Option<Error>)
      requires Named() && forall n :: n in pools ==> pools[n].Valid()
      modifies Staff(poolName)
      ensures match ResolvePool(poolName)
              case (Some(pool), _) =>
                && pool.Valid()
                && Controlled(pool, index, err, old(StandingOf(pool)), (v: Vitals) => FRESH)
                && Recoveries(pool.endpoints) == old(Recoveries(pool.endpoints))
              case (None, why) => err == why
    {
      var (found, why) := ResolvePool(poolName);
      if found.None? {
        return why;
      }
      err := ResetIn(found.value, index);
    }
  }

  /** The effect of a manual control: on the health of the endpoint with that index, or on nothing if there is none. */
  ghost predicate Controlled(pool: Pool, index: int, err: Option<Error>, was: Standing, f: Vitals -> Vitals)
    reads pool, pool.endpoints, pool.tracker
  {
    if 1 <= index <= |was.vitals| then
      err == None && StandingOf(pool) == was.(vitals := was.vitals[index - 1 := f(was.vitals[index - 1])])
    else
      err == Some(EndpointNotFound) && StandingOf(pool) == was
  }

  method RetireAt(es: seq<Endpoint>, p: nat)
    requires Members(es) && p < |es|
    modifies es
    ensures Members(es)
    ensures Conditions(es) == old(Conditions(es))[p := old(Conditions(es))[p].Retired()]
    ensures AllBooks(es) == old(AllBooks(es)) && Recoveries(es) == old(Recoveries(es))
  {
    ghost var vs, bs, rs := Conditions(es), AllBooks(es), Recoveries(es);
    var ep := es[p];
    ep.MarkDead();
    forall i | 0 <= i < |es| && i != p ensures es[i] != ep {
    }
    assert Conditions(es) == vs[p := ep.Condition()];
    assert AllBooks(es) == bs && Recoveries(es) == rs;
  }

  /** Retires the endpoint with a given index. */
  method RetireIn(pool: Pool, index: int) returns (err: Option<Error>)
    requires pool.Valid()
    modifies pool.endpoints
    ensures pool.Valid() && Controlled(pool, index, err, old(StandingOf(pool)), (v: Vitals) => v.Retired())
    ensures Recoveries(pool.endpoints) == old(Recoveries(pool.endpoints))
  {
    var at := pool.FindEndpoint(index);
    if at.None? {
      return Some(EndpointNotFound);
    }
    RetireAt(pool.endpoints, at.value);
    err := None;
  }

  method ResetAt(es: seq<Endpoint>, p: nat)
    requires Members(es) && p < |es|
    modifies es
    ensures Members(es)
    ensures Conditions(es) == old(Conditions(es))[p := FRESH]
    ensures AllBooks(es) == old(AllBooks(es)) && Recoveries(es) == old(Recoveries(es))
  {
    ghost var vs, bs, rs := Conditions(es), AllBooks(es), Recoveries(es);
    var ep := es[p];
    ep.Reset();
    forall i | 0 <= i < |es| && i != p ensures es[i] != ep {
    }
    assert Conditions(es) == vs[p := ep.Condition()];
    assert AllBooks(es) == bs && Recoveries(es) == rs;
  }

  /** Gives the endpoint with a given index a clean record. */
  method ResetIn(pool: Pool, index: int) returns (err: Option<Error>)
    requires pool.Valid()
    modifies pool.endpoints
    ensures pool.Valid() && Controlled(pool, index, err, old(StandingOf(pool)), (v: Vitals) => FRESH)
    ensures Recoveries(pool.endpoints) == old(Recoveries(pool.endpoints))
  {
    var at := pool.FindEndpoint(index);
    if at.None? {
      return Some(EndpointNotFound);
    }
    ResetAt(pool.endpoints, at.value);
    err := None;
  }

  /** Where a request stands: the attempts made, whether the loop has ended and how, and the last callback's results. */
  datatype Progress = Progress(
    trace: seq<Attempt>, verdict: Option<Option<Error>>, lastResp: Option<Response>, lastErr: Option<int>)

  ghost predicate OnTrack(story: Story, maxAttempts: nat, at: Progress) {
    && |at.trace| <= maxAttempts <= |story.ws| && (at.verdict.None? ==> |at.trace| < maxAttempts)
    && story.Valid() && Plausible(story, at.trace) && Course(story, maxAttempts, at.trace, at.verdict)
    && Remembers(at.trace, at.lastResp, at.lastErr)
  }

  /** The variables the attempts share hold the last callback's results. */
  predicate Remembers(trace: seq<Attempt>, lastResp: Option<Response>, lastErr: Option<int>) {
    match LastCall(trace)
    case None => lastResp == None && lastErr == None
    case Some(a) => lastResp == a.resp && lastErr == a.err
  }

  lemma LastCallOf(trace: seq<Attempt>, a: Attempt)
    ensures LastCall(trace + [a]) == if a.Called? then Some(a) else LastCall(trace)
  {
    assert (trace + [a])[..|trace|] == trace;
  }
}
