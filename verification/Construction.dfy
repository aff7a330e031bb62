/** Building a client, and undoing it when a pool cannot be built (client.go:27-77). */
module Construction {
  import opened Basics
  import opened Transport
  import opened Pools
  import opened Fleets
  import opened Retry
  import opened Clients
  import Names

  datatype Refused = NoPools | BadDetector | DuplicateName | PoolFailed

  function NamesOf(cfgs: seq<PoolConfig>): (names: seq<string>)
    ensures |names| == |cfgs| && forall i :: 0 <= i < |cfgs| ==> names[i] == cfgs[i].name
  {
    seq(|cfgs|, i requires 0 <= i < |cfgs| => cfgs[i].name)
  }

  /** What construction demands of the configurations. */
  ghost predicate Acceptable(cfgs: seq<PoolConfig>) {
    (forall i :: 0 <= i < |cfgs| ==> cfgs[i].Valid()) && Distinct(NamesOf(cfgs))
  }

  lemma Unacceptable(pools: map<string, Pool>, cfgs: seq<PoolConfig>, i: nat)
    requires i < |cfgs| && pools.Keys == Elements(NamesOf(cfgs[..i]))
    requires !cfgs[i].Valid() || cfgs[i].name in pools
    ensures !Acceptable(cfgs)
  {
    if cfgs[i].name in pools {
      assert cfgs[i].name in NamesOf(cfgs[..i]);
      var j :| 0 <= j < i && NamesOf(cfgs[..i])[j] == cfgs[i].name;
      assert NamesOf(cfgs)[j] == NamesOf(cfgs)[i];
    }
  }

  lemma BuiltMeansAcceptable(pools: map<string, Pool>, done: seq<PoolConfig>)
    requires AllBuilt(pools, done) && Distinct(NamesOf(done))
    ensures Acceptable(done)
  {
  }

  /** All that a pool's methods may read or change. */
  ghost function Holdings(pools: map<string, Pool>): set<object> {
    (set n | n in pools :: pools[n] as object) + (set n | n in pools :: pools[n].tracker as object)
    + (set n, p | n in pools && 0 <= p < |pools[n].endpoints| :: pools[n].endpoints[p] as object)
  }

  /** The configurations done so far have their pools. */
  ghost predicate AllBuilt(pools: map<string, Pool>, done: seq<PoolConfig>)
    reads Holdings(pools)
  {
    forall i :: 0 <= i < |done| ==> done[i].Valid() && done[i].name in pools && BuiltTo(pools[done[i].name], done[i])
  }

  lemma OneMoreBuilt(pools: map<string, Pool>, done: seq<PoolConfig>, cfg: PoolConfig, pool: Pool)
    requires AllBuilt(pools, done) && cfg.name !in pools && cfg.Valid() && BuiltTo(pool, cfg)
    ensures AllBuilt(pools[cfg.name := pool], done + [cfg])
    ensures NamesOf(done + [cfg]) == NamesOf(done) + [cfg.name]
    ensures forall e :: e in Crew(FleetOf(pools[cfg.name := pool])) ==> e in Crew(FleetOf(pools)) || e in pool.endpoints
  {
    var fleet := FleetOf(pools);
    assert FleetOf(pools[cfg.name := pool]) == fleet[cfg.name := pool.endpoints];
    assert forall n, p :: n in fleet && 0 <= p < |fleet[n]| ==> fleet[n][p] in Crew(fleet);
  }

  /** One more pool, of its own endpoints, fits in with those before. */
  lemma Adopted(pools: map<string, Pool>, done: seq<PoolConfig>, cfg: PoolConfig, pool: Pool)
    requires Listed(FleetOf(pools), NamesOf(done)) && AllBuilt(pools, done)
    requires cfg.name !in pools && cfg.Valid() && BuiltTo(pool, cfg)
    requires forall n :: n in pools ==> Apart(pools[n].endpoints, pool.endpoints)
    ensures Listed(FleetOf(pools[cfg.name := pool]), NamesOf(done + [cfg]))
            && AllBuilt(pools[cfg.name := pool], done + [cfg])
    ensures AllIdle(FleetOf(pools[cfg.name := pool]), NamesOf(done + [cfg]))
            == AllIdle(FleetOf(pools), NamesOf(done)) + Pools.Idle(pool.endpoints)
    ensures forall e :: e in Crew(FleetOf(pools[cfg.name := pool])) ==> e in Crew(FleetOf(pools)) || e in pool.endpoints
  {
    Joins(pools, NamesOf(done), cfg.name, pool);
    OneMoreBuilt(pools, done, cfg, pool);
  }

  lemma SameGates(gates: Gates, now: Gates)
    requires gates.Keys == now.Keys && forall n :: n in gates ==> now[n] == gates[n]
    ensures now == gates
  {
  }

  /** Building a pool disturbs none of those built before, and takes none of their endpoints. */
  method BuildBeside(ghost pools: map<string, Pool>, ghost done: seq<PoolConfig>, cfg: PoolConfig, factory: Factory)
    returns (built: Option<Pool>)
    requires Listed(FleetOf(pools), NamesOf(done)) && AllBuilt(pools, done)
    modifies factory
    ensures old(factory.made) <= factory.made && old(factory.calls) <= factory.calls
    ensures built.Some? <==> cfg.Valid() && AllWell(factory.fails, old(factory.calls), factory.calls)
    ensures AllBuilt(pools, done) && GatesOf(FleetOf(pools)) == old(GatesOf(FleetOf(pools)))
    ensures match built
            case None =>
              ClosedSince(old(factory.closings), factory.closings, old(factory.made), factory.made)
            case Some(pool) =>
              && BuiltTo(pool, cfg) && (forall n :: n in pools ==> Apart(pools[n].endpoints, pool.endpoints))
              && (forall p :: 0 <= p < |pool.endpoints| ==> fresh(pool.endpoints[p]))
              && Pools.Idle(pool.endpoints) == Interval(old(factory.made), factory.made)
              && factory.closings == old(factory.closings)
  {
    ghost var fleet := FleetOf(pools);
    ghost var gates := GatesOf(fleet);
    built := NewPool(cfg, factory);
    forall n | n in fleet ensures Doors(fleet[n]) == gates[n] {
    }
    SameGates(gates, GatesOf(fleet));
    assert AllBuilt(pools, done) by {
      forall i | 0 <= i < |done| ensures BuiltTo(pools[done[i].name], done[i]) {
      }
    }
  }

  /** Builds the pool of one more configuration; when that is refused, nothing built before it has changed. */
  method AddPool(pools: map<string, Pool>, ghost done: seq<PoolConfig>, cfg: PoolConfig, factory: Factory)
    returns (more: map<string, Pool>, why: Option<Refused>)
    requires Listed(FleetOf(pools), NamesOf(done)) && AllBuilt(pools, done)
    modifies factory
    ensures old(factory.made) <= factory.made && old(factory.calls) <= factory.calls
    ensures why == None <==>
              cfg.name !in pools && cfg.Valid() && AllWell(factory.fails, old(factory.calls), factory.calls)
    ensures why == Some(DuplicateName) <==> cfg.name in pools
    ensures why.Some? ==> why.value.DuplicateName? || why.value.PoolFailed?
    ensures why == None ==>
              && Listed(FleetOf(more), NamesOf(done + [cfg])) && AllBuilt(more, done + [cfg])
              && AllIdle(FleetOf(more), NamesOf(done + [cfg]))
                 == old(AllIdle(FleetOf(pools), NamesOf(done))) + Interval(old(factory.made), factory.made)
              && factory.closings == old(factory.closings)
              && forall e :: e in Crew(FleetOf(more)) ==> e in Crew(FleetOf(pools)) || fresh(e)
    ensures why != None ==>
              && more == pools && AllBuilt(pools, done) && GatesOf(FleetOf(pools)) == old(GatesOf(FleetOf(pools)))
              && ClosedSince(old(factory.closings), factory.closings, old(factory.made), factory.made)
  {
    if cfg.name in pools {
      return pools, Some(DuplicateName);
    }
    var built := BuildBeside(pools, done, cfg, factory);
    if built.None? {
      return pools, Some(PoolFailed);
    }
    Adopted(pools, done, cfg, built.value);
    more, why := pools[cfg.name := built.value], None;
  }

  /** Where the factory stands. */
  datatype Mark = Mark(made: nat, calls: nat, closings: seq<nat>)

  function MarkOf(factory: Factory): Mark
    reads factory
  {
    Mark(factory.made, factory.calls, factory.closings)
  }

  /** Nothing has failed since `start`: the channels hold every session made since, and none has been closed. */
  ghost predicate Underway(pools: map<string, Pool>, done: seq<PoolConfig>, fails: nat -> bool, start: Mark, now: Mark)
    reads Holdings(pools), Crew(FleetOf(pools))
  {
    && start.made <= now.made && start.calls <= now.calls && now.closings == start.closings
    && AllWell(fails, start.calls, now.calls)
    && Listed(FleetOf(pools), NamesOf(done)) && AllBuilt(pools, done)
    && AllIdle(FleetOf(pools), NamesOf(done)) == Interval(start.made, now.made)
  }

  /** Something was refused since `start`, and every session made since has been closed once. */
  ghost predicate Undone(cfgs: seq<PoolConfig>, fails: nat -> bool, start: Mark, now: Mark) {
    && start.made <= now.made && start.calls <= now.calls
    && !(Acceptable(cfgs) && AllWell(fails, start.calls, now.calls))
    && ClosedSince(start.closings, now.closings, start.made, now.made)
  }

  /**
    Something was refused: the sessions made since `made` are closed already, those before are still in the
    channels.
  */
  ghost predicate Rejected(pools: map<string, Pool>, names: seq<string>, cfgs: seq<PoolConfig>, fails: nat -> bool,
                           start: Mark, made: nat, now: Mark)
    reads Crew(FleetOf(pools))
  {
    && start.made <= made <= now.made && start.calls <= now.calls
    && Listed(FleetOf(pools), names) && AllIdle(FleetOf(pools), names) == Interval(start.made, made)
    && !(Acceptable(cfgs) && AllWell(fails, start.calls, now.calls))
    && ClosedSince(start.closings, now.closings, made, now.made)
  }

  /** A refusal undoes everything. */
  method Abandon(pools: map<string, Pool>, ghost cfgs: seq<PoolConfig>, names: seq<string>, factory: Factory,
                 ghost start: Mark, ghost made: nat)
    requires Rejected(pools, names, cfgs, factory.fails, start, made, MarkOf(factory))
    modifies Crew(FleetOf(pools)), factory`closings
    ensures Undone(cfgs, factory.fails, start, MarkOf(factory))
  {
    JoinIntervals(start.made, made, factory.made);
    CloseFleet(FleetOf(pools), names, factory);
  }

  lemma Reject(pools: map<string, Pool>, cfgs: seq<PoolConfig>, i: nat, fails: nat -> bool,
               start: Mark, mid: Mark, now: Mark)
    requires i < |cfgs| && Underway(pools, cfgs[..i], fails, start, mid)
    requires mid.made <= now.made && mid.calls <= now.calls
    requires !(cfgs[i].name !in pools && cfgs[i].Valid() && AllWell(fails, mid.calls, now.calls))
    requires ClosedSince(mid.closings, now.closings, mid.made, now.made)
    ensures Rejected(pools, NamesOf(cfgs[..i]), cfgs, fails, start, mid.made, now)
  {
    if !cfgs[i].Valid() || cfgs[i].name in pools {
      Unacceptable(pools, cfgs, i);
    }
  }

  /** One more pool added without a failure keeps everything under way. */
  lemma Onward(pools: map<string, Pool>, done: seq<PoolConfig>, fails: nat -> bool, start: Mark, mid: Mark, now: Mark)
    requires start.made <= mid.made <= now.made && start.calls <= mid.calls <= now.calls
    requires now.closings == mid.closings == start.closings
    requires AllWell(fails, start.calls, mid.calls) && AllWell(fails, mid.calls, now.calls)
    requires Listed(FleetOf(pools), NamesOf(done)) && AllBuilt(pools, done)
    requires AllIdle(FleetOf(pools), NamesOf(done)) == Interval(start.made, mid.made) + Interval(mid.made, now.made)
    ensures Underway(pools, done, fails, start, now)
  {
    JoinIntervals(start.made, mid.made, now.made);
  }

  lemma TakeOneMore(cfgs: seq<PoolConfig>, i: nat)
    requires i < |cfgs|
    ensures cfgs[..i] + [cfgs[i]] == cfgs[..i + 1]
  {
  }

  /** One turn of the loop below. */
  method Extend(pools: map<string, Pool>, cfgs: seq<PoolConfig>, i: nat, factory: Factory, ghost start: Mark)
    returns (more: map<string, Pool>, why: Option<Refused>)
    requires i < |cfgs| && Underway(pools, cfgs[..i], factory.fails, start, MarkOf(factory))
    modifies factory, Crew(FleetOf(pools))
    ensures why == None ==> Underway(more, cfgs[..i + 1], factory.fails, start, MarkOf(factory))
    ensures why == None ==> forall e :: e in Crew(FleetOf(more)) ==> e in Crew(FleetOf(pools)) || fresh(e)
    ensures why != None ==> Undone(cfgs, factory.fails, start, MarkOf(factory))
    ensures why.Some? ==> why.value.DuplicateName? || why.value.PoolFailed?
  {
    ghost var mid := MarkOf(factory);
    TakeOneMore(cfgs, i);
    more, why := AddPool(pools, cfgs[..i], cfgs[i], factory);
    if why == None {
      Onward(more, cfgs[..i + 1], factory.fails, start, mid, MarkOf(factory));
    } else {
      Reject(pools, cfgs, i, factory.fails, start, mid, MarkOf(factory));
      Abandon(pools, cfgs, NamesOf(cfgs[..i]), factory, start, mid.made);
    }
  }

  lemma Finished(pools: map<string, Pool>, cfgs: seq<PoolConfig>, i: nat, fails: nat -> bool, start: Mark, now: Mark)
    requires i == |cfgs| && Underway(pools, cfgs[..i], fails, start, now)
    ensures Underway(pools, cfgs, fails, start, now) && Acceptable(cfgs)
  {
    assert cfgs[..i] == cfgs;
    BuiltMeansAcceptable(pools, cfgs);
  }

  /** Builds the pools one after the other. At the first refusal, every session opened so far is closed. */
  method Assemble(cfgs: seq<PoolConfig>, factory: Factory) returns (pools: map<string, Pool>, why: Option<Refused>)
    modifies factory
    ensures why == None ==> Acceptable(cfgs)
    ensures why == None ==> Underway(pools, cfgs, factory.fails, old(MarkOf(factory)), MarkOf(factory))
    ensures why != None ==> Undone(cfgs, factory.fails, old(MarkOf(factory)), MarkOf(factory))
    ensures why.Some? ==> why.value.DuplicateName? || why.value.PoolFailed?
  {
    ghost var start := MarkOf(factory);
    pools, why := map[], None;
    var i := 0;
    while i < |cfgs|
      invariant 0 <= i <= |cfgs| && why == None
      invariant Underway(pools, cfgs[..i], factory.fails, start, MarkOf(factory))
      invariant forall e :: e in Crew(FleetOf(pools)) ==> fresh(e)
    {
      pools, why := Extend(pools, cfgs, i, factory, start);
      if why != None {
        return;
      }
      i := i + 1;
    }
    Finished(pools, cfgs, i, factory.fails, start, MarkOf(factory));
  }

  /** A client just built: every configuration has its pool, the names are sorted, and the channels hold `made`. */
  ghost predicate Complete(client: Client, cfgs: seq<PoolConfig>, made: seq<nat>)
    reads Holdings(client.pools), Crew(FleetOf(client.pools))
  {
    && client.Valid() && AllBuilt(client.pools, cfgs) && Listed(FleetOf(client.pools), NamesOf(cfgs))
    && Names.Ordered(client.poolNames) && multiset(client.poolNames) == multiset(NamesOf(cfgs))
    && AllIdle(FleetOf(client.pools), NamesOf(cfgs)) == made
  }

  /** The names a client lists its pools by, sorted or not, find the same sessions idle. */
  lemma CompleteIdle(client: Client, cfgs: seq<PoolConfig>, made: seq<nat>)
    requires Complete(client, cfgs, made)
    ensures multiset(client.Idle()) == multiset(made)
  {
    AllIdleInAnyOrder(FleetOf(client.pools), NamesOf(cfgs), client.poolNames);
  }

  lemma SortedIsListed(pools: map<string, Pool>, cfgs: seq<PoolConfig>)
    requires Listed(FleetOf(pools), NamesOf(cfgs))
    ensures var names := Names.Sorted(NamesOf(cfgs));
            Names.Ordered(names) && multiset(names) == multiset(NamesOf(cfgs)) && Listed(FleetOf(pools), names)
  {
    Names.SortedIsOrdered(NamesOf(cfgs));
    AllIdleInAnyOrder(FleetOf(pools), NamesOf(cfgs), Names.Sorted(NamesOf(cfgs)));
  }

  /** A new client object disturbs none of its pools. */
  method MakeClient(pools: map<string, Pool>, cfgs: seq<PoolConfig>, retry: Settings, detector: Detector)
    returns (client: Client)
    requires AllBuilt(pools, cfgs)
    ensures client.pools == pools && client.poolNames == Names.Sorted(NamesOf(cfgs)) && client.detector == detector
    ensures retry == Settings(client.maxAttempts, client.threshold, client.cooldown, client.maxCooldown)
    ensures AllBuilt(pools, cfgs) && GatesOf(FleetOf(pools)) == old(GatesOf(FleetOf(pools)))
  {
    ghost var fleet := FleetOf(pools);
    ghost var gates := GatesOf(fleet);
    client := new Client(pools, Names.Sorted(NamesOf(cfgs)), detector, retry);
    forall n | n in fleet ensures Doors(fleet[n]) == gates[n] {
    }
    SameGates(gates, GatesOf(fleet));
    assert AllBuilt(pools, cfgs) by {
      forall i | 0 <= i < |cfgs| ensures BuiltTo(pools[cfgs[i].name], cfgs[i]) {
      }
    }
  }

  lemma Completes(client: Client, cfgs: seq<PoolConfig>, made: seq<nat>)
    requires AllBuilt(client.pools, cfgs) && Listed(FleetOf(client.pools), NamesOf(cfgs))
    requires client.poolNames == Names.Sorted(NamesOf(cfgs))
    requires AllIdle(FleetOf(client.pools), NamesOf(cfgs)) == made
    ensures Complete(client, cfgs, made)
  {
    SortedIsListed(client.pools, cfgs);
  }

  /** The client over the pools that have been built. */
  method Finish(pools: map<string, Pool>, cfgs: seq<PoolConfig>, retry: Settings, detector: Detector,
                ghost fails: nat -> bool, ghost start: Mark, ghost now: Mark) returns (client: Client)
    requires Underway(pools, cfgs, fails, start, now)
    ensures Complete(client, cfgs, Interval(start.made, now.made)) && client.detector == detector
    ensures retry == Settings(client.maxAttempts, client.threshold, client.cooldown, client.maxCooldown)
  {
    client := MakeClient(pools, cfgs, retry, detector);
    Completes(client, cfgs, Interval(start.made, now.made));
  }

  /**
    Builds a client, all its pools and all their sessions; no detector stands for default patterns that do
    not compile. Either every configuration has its pool and the channels hold exactly the sessions made, or
    there is no client and every session made has been closed once.
  */
  method New(cfgs: seq<PoolConfig>, retry: Settings, detector: Option<Detector>, factory: Factory)
    returns (built: Option<Client>, why: Option<Refused>)
    modifies factory
    ensures old(factory.made) <= factory.made && old(factory.calls) <= factory.calls
    ensures built.Some? <==> why == None
    ensures why == Some(NoPools) <==> cfgs == []
    ensures why == Some(BadDetector) <==> cfgs != [] && detector == None
    ensures built.Some? <==>
              && cfgs != [] && detector.Some? && Acceptable(cfgs)
              && AllWell(factory.fails, old(factory.calls), factory.calls)
    ensures match built
            case None =>
              ClosedSince(old(factory.closings), factory.closings, old(factory.made), factory.made)
            case Some(client) =>
              && Complete(client, cfgs, Interval(old(factory.made), factory.made))
              && factory.closings == old(factory.closings)
              && detector == Some(client.detector)
              && retry == Settings(client.maxAttempts, client.threshold, client.cooldown, client.maxCooldown)
  {
    if cfgs == [] {
      return None, Some(NoPools);
    }
    if detector.None? {
      return None, Some(BadDetector);
    }
    var pools, refused := Assemble(cfgs, factory);
    if refused != None {
      return None, refused;
    }
    var client := Finish(pools, cfgs, retry, detector.value, factory.fails, old(MarkOf(factory)), MarkOf(factory));
    return Some(client), None;
  }
}
