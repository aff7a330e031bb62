/** A named set of interchangeable endpoints (pool.go:13-163). */
module Pools {
  import opened Basics
  import opened Selection
  import opened Tracker
  import opened Transport
  import opened Endpoints
  import opened Vitals
  import opened Weighting

  /** The score of an available endpoint. */
  function Score(e: Endpoint): Option<real>
    reads e
  {
    if e.IsAvailable() then Some(Base(e.Weight())) else None
  }

  function Scores(es: seq<Endpoint>): (scores: seq<Option<real>>)
    reads es
    ensures |scores| == |es|
    ensures forall p :: 0 <= p < |es| ==> scores[p] == Score(es[p])
  {
    seq(|es|, p requires 0 <= p < |es| reads es => Score(es[p]))
  }

  function Times(a: real, b: real): real {
    a * b
  }

  function Discounted(score: Option<real>, factor: real): Option<real> {
    match score
    case Some(w) => Some(Times(w, factor))
    case None => None
  }

  /**
    The scores as one domain sees them: a recent block there makes an endpoint count for less. Endpoint indexes
    start at 1; `when` is the time at which the endpoint at each position is looked up.
  */
  function SeenFrom(scores: seq<Option<real>>, log: seq<Block>, ttl: int, penalty: real,
                    domain: string, when: nat -> int)
    : (slots: seq<Option<real>>)
    ensures |slots| == |scores|
    ensures forall p :: 0 <= p < |scores| ==>
              slots[p] == Discounted(scores[p], PenaltyAt(log, ttl, penalty, Key(p + 1, domain), when(p)))
  {
    seq(|scores|, p requires 0 <= p < |scores| =>
          Discounted(scores[p], PenaltyAt(log, ttl, penalty, Key(p + 1, domain), when(p))))
  }

  /** The time at which each position is looked up by a scan whose i-th lookup reads the clock as readings(i). */
  function AtPosition(readings: nat -> int, start: nat, n: nat): nat -> int {
    (p: nat) => readings(StepOf(start, p, n))
  }

  /** Readings of a clock that has been seen at `clock` and does not run backwards. */
  ghost predicate Ticking(clock: int, readings: nat -> int) {
    forall i: nat, j: nat :: i <= j ==> clock <= readings(i) <= readings(j)
  }

  lemma PositiveProduct(a: real, b: real)
    requires a > 0.0 && b > 0.0
    ensures Times(a, b) > 0.0
  {
  }

  ghost predicate Sound(es: seq<Endpoint>)
    reads es
  {
    forall p :: 0 <= p < |es| ==> es[p].Valid()
  }

  /** The endpoints of a pool are different objects, numbered from 1. */
  ghost predicate Members(es: seq<Endpoint>)
    reads es
  {
    Distinct(es) && Sound(es) && forall p :: 0 <= p < |es| ==> es[p].index == p + 1
  }

  /**
    What closing looks at: whether an endpoint is in order, whether it is closed, and the sessions waiting
    in its channel.
  */
  datatype Door = Door(sound: bool, closed: bool, sessions: seq<nat>)

  const SHUT := Door(true, true, [])

  ghost function Doors(es: seq<Endpoint>): (doors: seq<Door>)
    reads es
    ensures |doors| == |es|
    ensures forall p :: 0 <= p < |es| ==> doors[p] == Door(es[p].Valid(), es[p].closed, es[p].sessions)
  {
    seq(|es|, p requires 0 <= p < |es| reads es => Door(es[p].Valid(), es[p].closed, es[p].sessions))
  }

  /** Every waiting session, in order. */
  function Waiting(doors: seq<Door>): seq<nat> {
    if doors == [] then [] else Waiting(doors[..|doors| - 1]) + doors[|doors| - 1].sessions
  }

  ghost function Idle(es: seq<Endpoint>): seq<nat>
    reads es
  {
    Waiting(Doors(es))
  }

  /** The doors when the first i have been shut. */
  function ShutUpTo(doors: seq<Door>, i: nat): (now: seq<Door>)
    requires i <= |doors|
    ensures |now| == |doors|
    ensures forall p :: 0 <= p < |doors| ==> now[p] == if p < i then SHUT else doors[p]
  {
    seq(|doors|, p requires 0 <= p < |doors| => if p < i then SHUT else doors[p])
  }

  lemma {:induction false} NobodyWaits(doors: seq<Door>)
    requires forall p :: 0 <= p < |doors| ==> doors[p] == SHUT
    ensures Waiting(doors) == []
  {
    if doors != [] {
      NobodyWaits(doors[..|doors| - 1]);
    }
  }

  /** A log of closings once the first i doors have been emptied into it. */
  function Flushed(log: seq<nat>, doors: seq<Door>, i: nat): seq<nat>
    requires i <= |doors|
  {
    log + Waiting(doors[..i])
  }

  lemma ShutNext(doors: seq<Door>, i: nat, log: seq<nat>)
    requires i < |doors|
    ensures ShutUpTo(doors, i)[i] == doors[i] && ShutUpTo(doors, i)[i := SHUT] == ShutUpTo(doors, i + 1)
    ensures Flushed(log, doors, i + 1) == Flushed(log, doors, i) + doors[i].sessions
  {
    assert doors[..i + 1][..i] == doors[..i];
  }

  lemma ShutEnds(doors: seq<Door>, log: seq<nat>)
    ensures ShutUpTo(doors, 0) == doors && Flushed(log, doors, 0) == log
    ensures Flushed(log, doors, |doors|) == log + Waiting(doors)
    ensures Waiting(ShutUpTo(doors, |doors|)) == []
  {
    assert doors[..|doors|] == doors;
    NobodyWaits(ShutUpTo(doors, |doors|));
  }

  method CloseAt(es: seq<Endpoint>, i: nat, factory: Factory)
    requires Distinct(es) && i < |es| && Doors(es)[i].sound
    modifies es, factory`closings
    ensures Doors(es) == old(Doors(es))[i := SHUT]
    ensures factory.closings == old(factory.closings) + old(Doors(es))[i].sessions
  {
    ghost var doors := Doors(es);
    var ep := es[i];
    ep.Close(factory);
    forall p | 0 <= p < |es| && p != i ensures es[p] != ep {
    }
    assert Doors(es) == doors[i := SHUT];
  }

  /** Closes every endpoint in turn, and so every session then idle, in order. */
  method CloseAll(es: seq<Endpoint>, factory: Factory)
    requires Distinct(es) && Sound(es)
    modifies es, factory`closings
    ensures Doors(es) == ShutUpTo(old(Doors(es)), |es|)
    ensures factory.closings == old(factory.closings) + old(Idle(es))
  {
    ghost var doors, log := Doors(es), factory.closings;
    ShutEnds(doors, log);
    var i := 0;
    while i < |es|
      invariant 0 <= i <= |es|
      invariant Doors(es) == ShutUpTo(doors, i)
      invariant factory.closings == Flushed(log, doors, i)
    {
      ShutNext(doors, i, log);
      CloseAt(es, i, factory);
      i := i + 1;
    }
  }

  /** A scan with the sum of its weights. */
  function Scanned(slots: seq<Option<real>>, start: nat, i: nat): (seq<Candidate>, real)
    requires slots != []
  {
    (Scan(slots, start, i), Sum(Scan(slots, start, i)))
  }

  lemma ScannedNext(slots: seq<Option<real>>, start: nat, i: nat)
    requires slots != []
    ensures var (cs, sum) := Scanned(slots, start, i);
            Scanned(slots, start, i + 1)
            == match slots[Position(start, i, |slots|)]
               case None => (cs, sum)
               case Some(w) => (cs + [Candidate(Position(start, i, |slots|), w)], sum + w)
  {
    var p, cs := Position(start, i, |slots|), Scan(slots, start, i);
    match slots[p] {
      case None =>
        assert Scan(slots, start, i + 1) == cs + [] == cs;
      case Some(w) =>
        assert Scan(slots, start, i + 1) == cs + [Candidate(p, w)];
        SumAppend(cs, [Candidate(p, w)]);
    }
  }

  class Pool {
    const name: string
    const endpoints: seq<Endpoint>
    var currentIndex: nat
    const tracker: BlockTracker

    ghost predicate Valid()
      reads this, endpoints, tracker
    {
      tracker.Valid() && Members(endpoints) && currentIndex < TWO_64
    }

    /** Closes every endpoint: a second call finds nothing to close. */
    method Close(factory: Factory)
      requires Valid()
      modifies endpoints, factory`closings
      ensures Valid()
      ensures Doors(endpoints) == ShutUpTo(old(Doors(endpoints)), |endpoints|) && Idle(endpoints) == []
      ensures factory.closings == old(factory.closings) + old(Idle(endpoints))
    {
      ShutEnds(Doors(endpoints), factory.closings);
      CloseAll(endpoints, factory);
    }

    ghost function Slots(domain: string, when: nat -> int): (slots: seq<Option<real>>)
      reads endpoints, tracker
      ensures |slots| == |endpoints|
    {
      SeenFrom(Scores(endpoints), tracker.log, tracker.ttl, tracker.penalty, domain, when)
    }

    /** Where the next scan starts. */
    function NextStart(): nat
      reads this
    {
      if |endpoints| > 1 then Origin(Counter(currentIndex, 1), |endpoints|) else 0
    }

    /** The endpoint that the next selection chooses. */
    ghost function Chosen(domain: string, readings: nat -> int, draw: real): Option<nat>
      reads this, endpoints, tracker
    {
      Choose(Slots(domain, AtPosition(readings, NextStart(), |endpoints|)), NextStart(), draw)
    }

    constructor (name: string, endpoints: seq<Endpoint>, ttl: int, penalty: real)
      requires Members(endpoints)
      ensures Valid() && this.name == name && this.endpoints == endpoints && currentIndex == 0 && tracker.log == []
      ensures fresh(tracker)
      ensures tracker.ttl == if ttl <= 0 then DEFAULT_BLOCK_TTL else ttl
      ensures tracker.penalty == if penalty <= 0.0 then DEFAULT_BLOCK_PENALTY else penalty
    {
      this.name, this.endpoints, currentIndex := name, endpoints, 0;
      tracker := new BlockTracker(ttl, penalty);
    }

    /** What the domain's blocks leave of the score at position p. */
    ghost function Factor(p: nat, domain: string, now: int): real
      reads tracker
    {
      PenaltyAt(tracker.log, tracker.ttl, tracker.penalty, Key(p + 1, domain), now)
    }

    lemma SlotsWeighted(domain: string, when: nat -> int)
      requires Valid()
      ensures Weighted(Slots(domain, when))
    {
      var slots := Slots(domain, when);
      forall p | 0 <= p < |slots| && slots[p].Some? ensures slots[p].value > 0.0 {
        assert Scores(endpoints)[p] == Score(endpoints[p]);
        PositiveProduct(Base(endpoints[p].Weight()), Factor(p, domain, when(p)));
      }
    }

    lemma SlotOf(p: nat, domain: string, when: nat -> int)
      requires Valid() && p < |endpoints|
      ensures Slots(domain, when)[p] == Discounted(Score(endpoints[p]), Factor(p, domain, when(p)))
    {
      assert Scores(endpoints)[p] == Score(endpoints[p]);
    }

    /** Where the endpoint with a given index is. */
    method FindEndpoint(index: int) returns (found: Option<nat>)
      requires Valid()
      ensures found == if 1 <= index <= |endpoints| then Some(index - 1) else None
    {
      var p := 0;
      while p < |endpoints|
        invariant 0 <= p <= |endpoints| && (index <= 0 || index > p)
      {
        if endpoints[p].index == index {
          return Some(p);
        }
        p := p + 1;
      }
      found := None;
    }

    method RecordDomainBlock(index: int, domain: string, now: int)
      requires Valid() && tracker.clock <= now
      modifies tracker
      ensures Valid() && tracker.clock == now
      ensures tracker.log
              == old(tracker.log) + if domain == "" then [] else [Block(Key(index, domain), now)]
    {
      tracker.RecordBlock(index, domain, now);
    }

    /** What the scan sees at one position: nothing, or the endpoint's weight for the domain. */
    method SlotAt(p: nat, domain: string, now: int) returns (slot: Option<real>)
      requires Valid() && tracker.clock <= now && p < |endpoints|
      modifies tracker
      ensures Valid() && tracker.log == old(tracker.log) && old(tracker.clock) <= tracker.clock <= now
      ensures slot == old(Discounted(Score(endpoints[p]), Factor(p, domain, now)))
      ensures slot.Some? <==> endpoints[p].health == Alive
      ensures slot.Some? ==>
                var e := endpoints[p];
                var score := Weighting.Weight(true, e.successReqs, e.totalReqs, e.avgLatency);
                slot.value == (if score <= 0.0 then 0.001 else score)
                              * PenaltyAt(tracker.log, tracker.ttl, tracker.penalty, Key(p + 1, domain), now)
    {
      var ep := endpoints[p];
      if !ep.IsAvailable() {
        return None;
      }
      var w := ep.Weight();
      if w <= 0.0 {
        w := 0.001;
      }
      assert w == Base(ep.Weight());
      if domain != "" {
        var penalty := tracker.PenaltyFor(ep.index, domain, now);
        w := Times(w, penalty);
      } else {
        assert Factor(p, domain, now) == 1.0;
      }
      slot := Some(w);
    }

    /** One step of the scan, which reads the clock for itself. */
    method Visit(i: nat, domain: string, readings: nat -> int, start: nat, ghost slots: seq<Option<real>>)
      returns (slot: Option<real>)
      requires Valid() && i < |endpoints| && tracker.clock <= readings(i)
      requires slots == Slots(domain, AtPosition(readings, start, |endpoints|))
      modifies tracker
      ensures Valid() && tracker.log == old(tracker.log) && old(tracker.clock) <= tracker.clock <= readings(i)
      ensures slot == slots[Position(start, i, |endpoints|)]
    {
      var p := Position(start, i, |endpoints|);
      VisitedOnce(start, i, |endpoints|);
      SlotOf(p, domain, AtPosition(readings, start, |endpoints|));
      slot := SlotAt(p, domain, readings(i));
    }

    /** One turn of the loop below. */
    method Consider(i: nat, domain: string, readings: nat -> int, start: nat, ghost slots: seq<Option<real>>,
                    cs: seq<Candidate>, sum: real)
      returns (candidates: seq<Candidate>, totalWeight: real)
      requires Valid() && i < |endpoints| && tracker.clock <= readings(i)
      requires slots == Slots(domain, AtPosition(readings, start, |endpoints|))
      requires (cs, sum) == Scanned(slots, start, i)
      modifies tracker
      ensures Valid() && tracker.log == old(tracker.log) && old(tracker.clock) <= tracker.clock <= readings(i)
      ensures (candidates, totalWeight) == Scanned(slots, start, i + 1)
    {
      var slot := Visit(i, domain, readings, start, slots);
      ScannedNext(slots, start, i);
      candidates, totalWeight := cs, sum;
      if slot.Some? {
        candidates := cs + [Candidate(Position(start, i, |endpoints|), slot.value)];
        totalWeight := sum + slot.value;
      }
    }

    /** The rotated scan: the available endpoints with their weights for the domain, and the sum of those. */
    method BuildCandidates(domain: string, readings: nat -> int, start: nat, ghost slots: seq<Option<real>>)
      returns (candidates: seq<Candidate>, totalWeight: real)
      requires Valid() && endpoints != [] && Ticking(tracker.clock, readings)
      requires slots == Slots(domain, AtPosition(readings, start, |endpoints|))
      modifies tracker
      ensures Valid() && tracker.log == old(tracker.log) && old(tracker.clock) <= tracker.clock <= readings(|endpoints|)
      ensures candidates == Scan(slots, start, |endpoints|) && totalWeight == Sum(candidates)
    {
      candidates, totalWeight := [], 0.0;
      var i := 0;
      while i < |endpoints|
        invariant 0 <= i <= |endpoints| && Valid()
        invariant tracker.log == old(tracker.log) && old(tracker.clock) <= tracker.clock <= readings(i)
        invariant (candidates, totalWeight) == Scanned(slots, start, i)
      {
        candidates, totalWeight := Consider(i, domain, readings, start, slots, candidates, totalWeight);
        i := i + 1;
      }
    }

    /** The choice among the candidates: none, the only one, or the walk along the cumulative weights. */
    static method PickCandidate(candidates: seq<Candidate>, r: real) returns (chosen: Option<nat>)
      ensures chosen == Pick(candidates, r)
    {
      if |candidates| == 0 {
        return None;
      }
      if |candidates| == 1 {
        return Some(candidates[0].pos);
      }
      var cumulative := 0.0;
      var k := 0;
      while k < |candidates|
        invariant 0 <= k <= |candidates|
        invariant cumulative == Sum(candidates[..k])
        invariant Walk(candidates, r, 0) == Walk(candidates, r, k)
      {
        assert candidates[..k + 1][..k] == candidates[..k];
        cumulative := cumulative + candidates[k].weight;
        if r <= cumulative {
          return Some(candidates[k].pos);
        }
        k := k + 1;
      }
      chosen := Some(candidates[|candidates| - 1].pos);
    }

    /** The scan from one origin and the choice among what it finds. */
    method ScanAndPick(domain: string, readings: nat -> int, start: nat, draw: real, ghost slots: seq<Option<real>>)
      returns (chosen: Option<nat>)
      requires Valid() && |endpoints| > 1 && Ticking(tracker.clock, readings)
      requires slots == Slots(domain, AtPosition(readings, start, |endpoints|))
      modifies tracker
      ensures Valid() && tracker.log == old(tracker.log) && old(tracker.clock) <= tracker.clock <= readings(|endpoints|)
      ensures chosen == Choose(slots, start, draw)
    {
      var candidates, totalWeight := BuildCandidates(domain, readings, start, slots);
      chosen := PickCandidate(candidates, Scaled(draw, totalWeight));
      ChooseFromScan(slots, start, draw);
    }

    /**
      Selects an endpoint by weighted random choice. `draw` is the random number from [0, 1); readings(i) is
      the time of the i-th lookup of a domain block.
    */
    method GetNextEndpointForDomain(domain: string, readings: nat -> int, draw: real) returns (chosen: Option<nat>)
      requires Valid() && Ticking(tracker.clock, readings) && 0.0 <= draw < 1.0
      modifies this`currentIndex, tracker
      ensures Valid() && tracker.log == old(tracker.log) && old(tracker.clock) <= tracker.clock <= readings(|endpoints|)
      ensures currentIndex == if |endpoints| > 1 then Counter(old(currentIndex), 1) else old(currentIndex)
      ensures chosen == old(Chosen(domain, readings, draw))
      ensures |endpoints| > 1 ==>
                var start := (old(currentIndex) + 1) % 0x1_0000_0000_0000_0000 % |endpoints|;
                && currentIndex % |endpoints| == start
                && chosen == Choose(old(Slots(domain, AtPosition(readings, start, |endpoints|))), start, draw)
      ensures match chosen
              case Some(p) => p < |endpoints| && endpoints[p].IsAvailable()
              case None => forall p :: 0 <= p < |endpoints| ==> !endpoints[p].IsAvailable()
    {
      var n := |endpoints|;
      ghost var start := NextStart();
      ghost var slots := Slots(domain, AtPosition(readings, start, n));
      ChoiceIsAvailable(slots, domain, AtPosition(readings, start, n), start, draw);
      if n <= 1 {
        chosen := if n == 1 && endpoints[0].IsAvailable() then Some(0) else None;
        return;
      }
      currentIndex := (currentIndex + 1) % TWO_64;
      chosen := ScanAndPick(domain, readings, Origin(currentIndex, n), draw, slots);
    }

    /** The specification of a choice in terms of the endpoints themselves. */
    lemma ChoiceIsAvailable(slots: seq<Option<real>>, domain: string, when: nat -> int, start: nat, draw: real)
      requires Valid() && 0.0 <= draw < 1.0 && slots == Slots(domain, when)
      ensures match Choose(slots, start, draw)
              case Some(p) => p < |endpoints| && endpoints[p].IsAvailable()
              case None => forall p :: 0 <= p < |endpoints| ==> !endpoints[p].IsAvailable()
      ensures |endpoints| == 1 ==> Choose(slots, start, draw) == if endpoints[0].IsAvailable() then Some(0) else None
    {
      SlotsWeighted(domain, when);
      SlotsAvailable(domain, when);
      AlwaysChooses(slots, start, draw);
    }

    lemma SlotsAvailable(domain: string, when: nat -> int)
      requires Valid()
      ensures forall p :: 0 <= p < |endpoints| ==> (Slots(domain, when)[p].Some? <==> endpoints[p].IsAvailable())
    {
      forall p | 0 <= p < |endpoints| ensures Slots(domain, when)[p].Some? <==> endpoints[p].IsAvailable() {
        SlotOf(p, domain, when);
      }
    }
  }

  /**
    The parts of a pool's configuration that construction looks at. Whether the endpoint URLs parse and the
    health-check settings agree is one arbitrary answer, `restPasses`.
  */
  datatype PoolConfig = PoolConfig(
    name: string, endpoints: nat, restPasses: bool, sessionPoolSize: int, ttl: int, penalty: real)
  {
    predicate Valid() {
      name != "" && endpoints > 0 && restPasses && 0 <= ttl && 0.0 <= penalty <= 1.0
    }

    function PoolSize(): nat {
      if sessionPoolSize <= 0 then DEFAULT_POOL_SIZE else sessionPoolSize
    }
  }

  /** A pool as construction leaves it: every endpoint open, untouched and full. */
  ghost predicate JustBuilt(es: seq<Endpoint>, size: nat)
    reads es
  {
    forall p :: 0 <= p < |es| ==> es[p].AsBuilt(size)
  }

  /** The pool a configuration asks for, as construction leaves it. */
  ghost predicate BuiltTo(pool: Pool, cfg: PoolConfig)
    reads pool, pool.endpoints, pool.tracker
  {
    && pool.Valid() && pool.name == cfg.name
    && |pool.endpoints| == cfg.endpoints && JustBuilt(pool.endpoints, cfg.PoolSize())
    && pool.currentIndex == 0 && pool.tracker.log == []
    && pool.tracker.ttl == (if cfg.ttl == 0 then DEFAULT_BLOCK_TTL else cfg.ttl)
    && pool.tracker.penalty == (if cfg.penalty == 0.0 then DEFAULT_BLOCK_PENALTY else cfg.penalty)
  }

  lemma OneMore(es: seq<Endpoint>, e: Endpoint, size: nat)
    requires Members(es) && JustBuilt(es, size) && e !in es && e.Valid() && e.index == |es| + 1
    requires e.AsBuilt(size)
    ensures Members(es + [e]) && JustBuilt(es + [e], size)
    ensures Idle(es + [e]) == Idle(es) + e.sessions
  {
    assert Doors(es + [e]) == Doors(es) + [Door(true, e.closed, e.sessions)];
    assert Doors(es + [e])[..|es|] == Doors(es);
  }

  lemma JoinIntervals(a: nat, b: nat, c: nat)
    requires a <= b <= c
    ensures Interval(a, b) + Interval(b, c) == Interval(a, c)
    ensures multiset(Interval(a, b)) + multiset(Interval(b, c)) == multiset(Interval(a, c))
  {
  }

  lemma UndoneInterval(log: seq<nat>, a: nat, b: nat, c: nat)
    requires a <= b <= c
    ensures multiset(log + Interval(b, c) + Interval(a, b)) == multiset(log) + multiset(Interval(a, c))
  {
    JoinIntervals(a, b, c);
  }

  /** The sessions made from number a up to b have been closed, each once, and no others. */
  ghost predicate ClosedSince(was: seq<nat>, now: seq<nat>, a: nat, b: nat)
    requires a <= b
  {
    multiset(now) == multiset(was) + multiset(Interval(a, b))
  }

  /** No call of the factory from `a` up to `b` failed. */
  ghost predicate AllWell(fails: nat -> bool, a: nat, b: nat) {
    forall i :: a <= i < b ==> !fails(i)
  }

  /** Opens one more endpoint; when a factory call fails, its own sessions are closed and the list is as before. */
  method AddEndpoint(es: seq<Endpoint>, size: nat, factory: Factory) returns (es': seq<Endpoint>, added: bool)
    requires Members(es) && size > 0 && JustBuilt(es, size)
    modifies factory
    ensures Members(es') && JustBuilt(es', size)
    ensures old(factory.made) <= factory.made && old(factory.calls) <= factory.calls
    ensures added <==> AllWell(factory.fails, old(factory.calls), factory.calls)
    ensures added ==>
              && |es'| == |es| + 1 && es' == es + [es'[|es|]] && fresh(es'[|es|])
              && Idle(es') == old(Idle(es)) + Interval(old(factory.made), factory.made)
              && factory.closings == old(factory.closings)
    ensures !added ==>
              && es' == es && Idle(es) == old(Idle(es))
              && factory.closings == old(factory.closings) + Interval(old(factory.made), factory.made)
  {
    var e := new Endpoint(|es| + 1, size, factory);
    if e.closed {
      return es, false;
    }
    OneMore(es, e, size);
    es', added := es + [e], true;
  }

  /** Opens n endpoints. When a factory call fails, every session opened on the way has been closed. */
  method OpenAll(n: nat, size: nat, factory: Factory) returns (es: seq<Endpoint>, ok: bool)
    requires size > 0
    modifies factory
    ensures old(factory.made) <= factory.made && old(factory.calls) <= factory.calls
    ensures ok <==> AllWell(factory.fails, old(factory.calls), factory.calls)
    ensures ok ==>
              && |es| == n && Members(es) && JustBuilt(es, size) && (forall p :: 0 <= p < |es| ==> fresh(es[p]))
              && Idle(es) == Interval(old(factory.made), factory.made)
              && factory.closings == old(factory.closings)
    ensures !ok ==>
              ClosedSince(old(factory.closings), factory.closings, old(factory.made), factory.made)
  {
    es, ok := [], true;
    while |es| < n
      invariant |es| <= n && Members(es) && JustBuilt(es, size)
      invariant forall p :: 0 <= p < |es| ==> fresh(es[p])
      invariant old(factory.made) <= factory.made && old(factory.calls) <= factory.calls
      invariant ok && AllWell(factory.fails, old(factory.calls), factory.calls)
      invariant Idle(es) == Interval(old(factory.made), factory.made)
      invariant factory.closings == old(factory.closings)
    {
      ghost var made := factory.made;
      es, ok := AddEndpoint(es, size, factory);
      if !ok {
        CloseAll(es, factory);
        UndoneInterval(old(factory.closings), old(factory.made), made, factory.made);
        return;
      }
      JoinIntervals(old(factory.made), made, factory.made);
    }
  }

  /**
    Builds a pool and all its sessions. Without a pool, every session obtained on the way has been closed,
    once; with one, none has, and the channels hold them all.
  */
  method NewPool(cfg: PoolConfig, factory: Factory) returns (built: Option<Pool>)
    modifies factory
    ensures old(factory.made) <= factory.made && old(factory.calls) <= factory.calls
    ensures built.Some? <==> cfg.Valid() && AllWell(factory.fails, old(factory.calls), factory.calls)
    ensures built.Some? ==>
              cfg.name != "" && cfg.endpoints > 0 && cfg.restPasses && 0 <= cfg.ttl && 0.0 <= cfg.penalty <= 1.0
    ensures built.None? ==>
              || cfg.name == "" || cfg.endpoints == 0 || !cfg.restPasses || cfg.ttl < 0
              || cfg.penalty < 0.0 || 1.0 < cfg.penalty
              || exists i :: old(factory.calls) <= i < factory.calls && factory.fails(i)
    ensures match built
            case None =>
              ClosedSince(old(factory.closings), factory.closings, old(factory.made), factory.made)
            case Some(pool) =>
              && fresh(pool) && fresh(pool.tracker)
              && (forall p :: 0 <= p < |pool.endpoints| ==>
                    && pool.endpoints[p].health == Alive && !pool.endpoints[p].closed
                    && |pool.endpoints[p].sessions| == if cfg.sessionPoolSize > 0 then cfg.sessionPoolSize else 15)
              && (forall p :: 0 <= p < |pool.endpoints| ==> fresh(pool.endpoints[p]))
              && BuiltTo(pool, cfg)
              && Idle(pool.endpoints) == Interval(old(factory.made), factory.made)
              && factory.closings == old(factory.closings)
  {
    if !cfg.Valid() {
      return None;
    }
    var es, ok := OpenAll(cfg.endpoints, cfg.PoolSize(), factory);
    if !ok {
      return None;
    }
    var pool := new Pool(cfg.name, es, cfg.ttl, cfg.penalty);
    built := Some(pool);
  }

  // ---------------------------------------------------------------------------
  // What a domain block does to selection

  lemma SeenWeighted(scores: seq<Option<real>>, log: seq<Block>, ttl: int, penalty: real,
                     domain: string, when: nat -> int)
    requires Weighted(scores) && penalty > 0.0
    ensures Weighted(SeenFrom(scores, log, ttl, penalty, domain, when))
  {
    var slots := SeenFrom(scores, log, ttl, penalty, domain, when);
    forall p | 0 <= p < |slots| && slots[p].Some? ensures slots[p].value > 0.0 {
      PositiveProduct(scores[p].value, PenaltyAt(log, ttl, penalty, Key(p + 1, domain), when(p)));
    }
  }

  /**
    The slots after a block differ from those before at most in the blocked endpoint's, which counts for the
    penalty.
  */
  lemma SeenAfterBlock(scores: seq<Option<real>>, log: seq<Block>, ttl: int, penalty: real,
                       p: nat, domain: string, at: int, when: nat -> int)
    requires p < |scores| && scores[p].Some? && domain != "" && when(p) <= at + ttl
    ensures SeenFrom(scores, log + [Block(Key(p + 1, domain), at)], ttl, penalty, domain, when)
            == SeenFrom(scores, log, ttl, penalty, domain, when)[p := Discounted(scores[p], penalty)]
  {
    var b := Block(Key(p + 1, domain), at);
    var slots := SeenFrom(scores, log, ttl, penalty, domain, when);
    var slots' := SeenFrom(scores, log + [b], ttl, penalty, domain, when);
    forall i | 0 <= i < |scores| && i != p ensures slots'[i] == slots[i] {
      var key := Key(i + 1, domain);
      LatestAppend(log, b, key);
      assert PenaltyAt(log + [b], ttl, penalty, key, when(i)) == PenaltyAt(log, ttl, penalty, key, when(i));
    }
    LatestAppend(log, b, Key(p + 1, domain));
    assert slots'[p] == Discounted(scores[p], penalty);
  }

  /**
    A block with a penalty below 1 strictly lowers the endpoint's share for that domain while it lasts and
    strictly raises every other candidate's; all shares stay positive. A block that finds the endpoint
    penalised already changes no share.
  */
  lemma DomainBlockShifts(scores: seq<Option<real>>, log: seq<Block>, ttl: int, penalty: real,
                          p: nat, q: nat, domain: string, at: int, when: nat -> int)
    requires Weighted(scores) && 0.0 < penalty < 1.0 && domain != "" && when(p) <= at + ttl
    requires p < |scores| && q < |scores| && p != q && scores[p].Some? && scores[q].Some?
    ensures var slots := SeenFrom(scores, log, ttl, penalty, domain, when);
            var slots' := SeenFrom(scores, log + [Block(Key(p + 1, domain), at)], ttl, penalty, domain, when);
            if PenaltyAt(log, ttl, penalty, Key(p + 1, domain), when(p)) == 1.0 then
              0.0 < Share(slots', p) < Share(slots, p) && 0.0 < Share(slots, q) < Share(slots', q)
            else
              slots' == slots
  {
    var slots := SeenFrom(scores, log, ttl, penalty, domain, when);
    var factor := PenaltyAt(log, ttl, penalty, Key(p + 1, domain), when(p));
    SeenWeighted(scores, log, ttl, penalty, domain, when);
    SeenAfterBlock(scores, log, ttl, penalty, p, domain, at, when);
    assert slots[p] == Discounted(scores[p], factor);
    assert slots[q] == Discounted(scores[q], PenaltyAt(log, ttl, penalty, Key(q + 1, domain), when(q)));
    if factor == 1.0 {
      Smaller(scores[p].value, penalty);
      LowerWeightShifts(slots, p, Discounted(scores[p], penalty).value, q);
    } else {
      assert factor == penalty;
    }
  }

  lemma TimesBelow(w: real, q: real)
    requires w > 0.0 && 0.0 < q < 1.0
    ensures 0.0 < Times(w, q) < w
  {
    PositiveProduct(w, q);
    PositiveProduct(w, 1.0 - q);
    assert Times(w, q) + Times(w, 1.0 - q) == w by { Distributes(w, q, 1.0 - q); }
  }

  lemma Distributes(w: real, a: real, b: real)
    ensures Times(w, a) + Times(w, b) == Times(w, a + b)
    ensures Times(w, 1.0) == w
  {
  }

  lemma Smaller(w: real, penalty: real)
    requires w > 0.0 && 0.0 < penalty < 1.0
    ensures Discounted(Some(w), 1.0) == Some(w)
    ensures 0.0 < Discounted(Some(w), penalty).value < w
  {
    TimesBelow(w, penalty);
    Distributes(w, 1.0, 0.0);
  }

  /** For any other domain, or none, the same draw from the same origin still chooses the same endpoint. */
  lemma OtherDomainsUnmoved(scores: seq<Option<real>>, log: seq<Block>, ttl: int, penalty: real,
                            b: Block, other: string, when: nat -> int, start: nat, draw: real)
    requires b.key.domain != other
    ensures SeenFrom(scores, log + [b], ttl, penalty, other, when) == SeenFrom(scores, log, ttl, penalty, other, when)
    ensures Choose(SeenFrom(scores, log + [b], ttl, penalty, other, when), start, draw)
            == Choose(SeenFrom(scores, log, ttl, penalty, other, when), start, draw)
  {
    var slots := SeenFrom(scores, log, ttl, penalty, other, when);
    var slots' := SeenFrom(scores, log + [b], ttl, penalty, other, when);
    forall i | 0 <= i < |scores| ensures slots'[i] == slots[i] {
      BlocksAreIsolated(log, b, ttl, penalty, Key(i + 1, other), when(i));
      assert slots[i] == Discounted(scores[i], PenaltyAt(log, ttl, penalty, Key(i + 1, other), when(i)));
    }
  }
}
