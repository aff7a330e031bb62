/**
  The pools of a client taken together: closing all of them, in whatever order a map yields them
  (client.go:339-343).
*/
module Fleets {
  import opened Basics
  import opened Endpoints
  import opened Pools
  import opened Transport

  /** The endpoints of each pool, by the pool's name. */
  type Fleet = map<string, seq<Endpoint>>

  type Gates = map<string, seq<Door>>

  function FleetOf(pools: map<string, Pool>): Fleet {
    map n | n in pools :: pools[n].endpoints
  }

  ghost predicate Apart(es: seq<Endpoint>, fs: seq<Endpoint>) {
    forall p, q :: 0 <= p < |es| && 0 <= q < |fs| ==> es[p] != fs[q]
  }

  /** No endpoint is listed twice. */
  ghost predicate Unshared(fleet: Fleet) {
    && (forall n :: n in fleet ==> Distinct(fleet[n]))
    && (forall m, n :: m in fleet && n in fleet && m != n ==> Apart(fleet[m], fleet[n]))
  }

  ghost function Crew(fleet: Fleet): (crew: set<Endpoint>)
    ensures forall n, p :: n in fleet && 0 <= p < |fleet[n]| ==> fleet[n][p] in crew
  {
    set n, p | n in fleet && 0 <= p < |fleet[n]| :: fleet[n][p]
  }

  ghost function GatesOf(fleet: Fleet): (gates: Gates)
    reads Crew(fleet)
    ensures gates.Keys == fleet.Keys && forall n :: n in fleet ==> gates[n] == Doors(fleet[n])
  {
    map n | n in fleet :: Doors(fleet[n])
  }

  ghost predicate InOrder(doors: seq<Door>) {
    forall p :: 0 <= p < |doors| ==> doors[p].sound
  }

  /** A list of distinct names for the pools, which share no endpoint. */
  ghost predicate Listed(fleet: Fleet, names: seq<string>)
    reads Crew(fleet)
  {
    && Distinct(names) && Elements(names) == fleet.Keys && Unshared(fleet)
    && forall n :: n in fleet ==> InOrder(GatesOf(fleet)[n])
  }

  ghost function AllIdle(fleet: Fleet, names: seq<string>): seq<nat>
    requires Elements(names) == fleet.Keys
    reads Crew(fleet)
  {
    AllWaiting(GatesOf(fleet), names)
  }

  function Shut(doors: seq<Door>): seq<Door> {
    ShutUpTo(doors, |doors|)
  }

  /** The gates once every pool outside `rest` has been closed. */
  ghost function ShutBut(gates: Gates, rest: set<string>): (now: Gates)
    ensures now.Keys == gates.Keys
    ensures forall n :: n in gates ==> now[n] == if n in rest then gates[n] else Shut(gates[n])
  {
    map n | n in gates :: if n in rest then gates[n] else Shut(gates[n])
  }

  /** The idle sessions of the named pools that are in `rest`. */
  ghost function Rest(gates: Gates, names: seq<string>, rest: set<string>): multiset<nat>
    requires forall i :: 0 <= i < |names| ==> names[i] in gates
  {
    if names == [] then multiset{}
    else
      var n := names[|names| - 1];
      Rest(gates, names[..|names| - 1], rest) + (if n in rest then multiset(Waiting(gates[n])) else multiset{})
  }

  lemma {:induction false} RestIsNothing(gates: Gates, names: seq<string>, rest: set<string>)
    requires forall i :: 0 <= i < |names| ==> names[i] in gates && names[i] !in rest
    ensures Rest(gates, names, rest) == multiset{}
  {
    if names != [] {
      RestIsNothing(gates, names[..|names| - 1], rest);
    }
  }

  lemma {:induction false} RestOfOthers(gates: Gates, names: seq<string>, rest: set<string>, n: string)
    requires forall i :: 0 <= i < |names| ==> names[i] in gates && names[i] != n
    ensures Rest(gates, names, rest - {n}) == Rest(gates, names, rest)
  {
    if names != [] {
      RestOfOthers(gates, names[..|names| - 1], rest, n);
    }
  }

  /** Taking one pool out of the rest takes exactly its sessions out. */
  lemma {:induction false} RestWithout(gates: Gates, names: seq<string>, rest: set<string>, n: string)
    requires forall i :: 0 <= i < |names| ==> names[i] in gates
    requires Distinct(names) && n in names && n in rest
    ensures Rest(gates, names, rest) == Rest(gates, names, rest - {n}) + multiset(Waiting(gates[n]))
  {
    var last := |names| - 1;
    if names[last] == n {
      RestOfOthers(gates, names[..last], rest, n);
    } else {
      RestWithout(gates, names[..last], rest, n);
    }
  }

  /** The order of the names does not matter. */
  lemma {:induction false} RestInAnyOrder(gates: Gates, names: seq<string>, others: seq<string>, rest: set<string>)
    requires Distinct(names) && Distinct(others) && Elements(names) == Elements(others) == gates.Keys
    requires rest <= gates.Keys
    ensures Rest(gates, names, rest) == Rest(gates, others, rest)
    decreases rest
  {
    if rest == {} {
      RestIsNothing(gates, names, rest);
      RestIsNothing(gates, others, rest);
    } else {
      var n :| n in rest;
      RestWithout(gates, names, rest, n);
      RestWithout(gates, others, rest, n);
      RestInAnyOrder(gates, names, others, rest - {n});
    }
  }

  /** The idle sessions of all named pools, in the order of the names. */
  ghost function AllWaiting(gates: Gates, names: seq<string>): seq<nat>
    requires forall i :: 0 <= i < |names| ==> names[i] in gates
  {
    if names == [] then [] else AllWaiting(gates, names[..|names| - 1]) + Waiting(gates[names[|names| - 1]])
  }

  lemma {:induction false} RestIsAll(gates: Gates, names: seq<string>, rest: set<string>)
    requires forall i :: 0 <= i < |names| ==> names[i] in gates && names[i] in rest
    ensures Rest(gates, names, rest) == multiset(AllWaiting(gates, names))
  {
    if names != [] {
      RestIsAll(gates, names[..|names| - 1], rest);
    }
  }

  lemma {:induction false} NobodyWaitsAnywhere(gates: Gates, names: seq<string>)
    requires forall i :: 0 <= i < |names| ==> names[i] in gates
    ensures AllWaiting(ShutBut(gates, {}), names) == []
  {
    if names != [] {
      NobodyWaitsAnywhere(gates, names[..|names| - 1]);
      ShutEnds(gates[names[|names| - 1]], []);
    }
  }

  lemma OnlyOneMoved(gates: Gates, now: Gates, n: string)
    requires n in gates && now.Keys == gates.Keys && now[n] == Shut(gates[n])
    requires forall m :: m in gates && m != n ==> now[m] == gates[m]
    ensures now == gates[n := Shut(gates[n])]
  {
  }

  /** Closing one pool shuts its doors and no other's. */
  method CloseOne(fleet: Fleet, n: string, factory: Factory)
    requires Unshared(fleet) && n in fleet && InOrder(GatesOf(fleet)[n])
    modifies fleet[n], factory`closings
    ensures GatesOf(fleet) == old(GatesOf(fleet))[n := Shut(old(GatesOf(fleet))[n])]
    ensures factory.closings == old(factory.closings) + Waiting(old(GatesOf(fleet))[n])
  {
    ghost var gates := GatesOf(fleet);
    CloseAll(fleet[n], factory);
    assert forall m :: m in fleet && m != n ==> Doors(fleet[m]) == gates[m] by {
      forall m | m in fleet && m != n ensures Doors(fleet[m]) == gates[m] {
        assert Apart(fleet[m], fleet[n]);
      }
    }
    OnlyOneMoved(gates, GatesOf(fleet), n);
  }

  lemma AllIdleInAnyOrder(fleet: Fleet, names: seq<string>, others: seq<string>)
    requires Listed(fleet, names) && multiset(names) == multiset(others)
    ensures Listed(fleet, others)
    ensures multiset(AllIdle(fleet, others)) == multiset(AllIdle(fleet, names))
  {
    DistinctRearranged(names, others);
    RestInAnyOrder(GatesOf(fleet), names, others, fleet.Keys);
    RestIsAll(GatesOf(fleet), names, fleet.Keys);
    RestIsAll(GatesOf(fleet), others, fleet.Keys);
  }

  lemma ShutOneMore(gates: Gates, names: seq<string>, rest: set<string>, n: string)
    requires Distinct(names) && Elements(names) == gates.Keys && n in rest && n in gates
    ensures ShutBut(gates, rest)[n] == gates[n]
    ensures ShutBut(gates, rest)[n := Shut(gates[n])] == ShutBut(gates, rest - {n})
    ensures Rest(gates, names, rest) == Rest(gates, names, rest - {n}) + multiset(Waiting(gates[n]))
  {
    RestWithout(gates, names, rest, n);
    ShutWithout(gates, rest, n);
  }

  lemma ShutWithout(gates: Gates, rest: set<string>, n: string)
    requires n in rest && n in gates
    ensures ShutBut(gates, rest)[n := Shut(gates[n])] == ShutBut(gates, rest - {n})
  {
  }

  lemma ShutBounds(gates: Gates, names: seq<string>)
    requires Elements(names) == gates.Keys
    ensures ShutBut(gates, gates.Keys) == gates
    ensures Rest(gates, names, gates.Keys) == multiset(AllWaiting(gates, names))
    ensures Rest(gates, names, {}) == multiset{}
  {
    RestIsAll(gates, names, gates.Keys);
    RestIsNothing(gates, names, {});
  }

  /** One turn of the loop below. */
  method CloseNext(fleet: Fleet, ghost names: seq<string>, ghost gates: Gates, ghost rest: set<string>,
                   n: string, factory: Factory)
    requires Unshared(fleet) && Distinct(names) && gates.Keys == fleet.Keys == Elements(names)
    requires n in rest && n in fleet && InOrder(gates[n])
    requires GatesOf(fleet) == ShutBut(gates, rest)
    modifies fleet[n], factory`closings
    ensures GatesOf(fleet) == ShutBut(gates, rest - {n})
    ensures multiset(factory.closings) + Rest(gates, names, rest - {n})
            == multiset(old(factory.closings)) + Rest(gates, names, rest)
  {
    ShutOneMore(gates, names, rest, n);
    CloseOne(fleet, n, factory);
  }

  /** After all pools are closed the list is as good as before, with no session in any channel. */
  lemma ClosedFleet(fleet: Fleet, names: seq<string>, gates: Gates)
    requires Distinct(names) && Elements(names) == fleet.Keys == gates.Keys && Unshared(fleet)
    requires GatesOf(fleet) == ShutBut(gates, {})
    ensures Listed(fleet, names) && AllIdle(fleet, names) == []
  {
    NobodyWaitsAnywhere(gates, names);
  }

  lemma ClosedDoors(pools: map<string, Pool>, gates: Gates)
    requires pools.Keys == gates.Keys && GatesOf(FleetOf(pools)) == ShutBut(gates, {})
    ensures forall n, p :: n in pools && 0 <= p < |pools[n].endpoints| ==> pools[n].endpoints[p].closed
  {
    forall n, p | n in pools && 0 <= p < |pools[n].endpoints| ensures pools[n].endpoints[p].closed {
      assert Doors(FleetOf(pools)[n])[p] == SHUT;
    }
  }

  /** Closes every pool, in the arbitrary order in which a map yields them. */
  method CloseFleet(fleet: Fleet, ghost names: seq<string>, factory: Factory)
    requires Listed(fleet, names)
    modifies Crew(fleet), factory`closings
    ensures GatesOf(fleet) == ShutBut(old(GatesOf(fleet)), {})
    ensures multiset(factory.closings) == multiset(old(factory.closings)) + multiset(old(AllIdle(fleet, names)))
  {
    ghost var gates := GatesOf(fleet);
    ghost var total := multiset(factory.closings) + Rest(gates, names, fleet.Keys);
    ShutBounds(gates, names);
    var rest := fleet.Keys;
    while rest != {}
      invariant rest <= fleet.Keys
      invariant GatesOf(fleet) == ShutBut(gates, rest)
      invariant multiset(factory.closings) + Rest(gates, names, rest) == total
      decreases rest
    {
      var n :| n in rest;
      CloseNext(fleet, names, gates, rest, n, factory);
      rest := rest - {n};
    }
  }

  method ClosePools(pools: map<string, Pool>, ghost names: seq<string>, factory: Factory)
    requires Listed(FleetOf(pools), names)
    modifies Crew(FleetOf(pools)), factory`closings
    ensures Listed(FleetOf(pools), names) && AllIdle(FleetOf(pools), names) == []
    ensures forall n, p :: n in pools && 0 <= p < |pools[n].endpoints| ==> pools[n].endpoints[p].closed
    ensures multiset(factory.closings)
            == multiset(old(factory.closings)) + multiset(old(AllIdle(FleetOf(pools), names)))
  {
    ghost var gates := GatesOf(FleetOf(pools));
    CloseFleet(FleetOf(pools), names, factory);
    ClosedFleet(FleetOf(pools), names, gates);
    ClosedDoors(pools, gates);
  }

  lemma {:induction false} OtherGates(gates: Gates, names: seq<string>, n: string, doors: seq<Door>)
    requires forall i :: 0 <= i < |names| ==> names[i] in gates && names[i] != n
    ensures AllWaiting(gates[n := doors], names) == AllWaiting(gates, names)
  {
    if names != [] {
      OtherGates(gates, names[..|names| - 1], n, doors);
    }
  }

  lemma GatesJoin(fleet: Fleet, n: string, es: seq<Endpoint>)
    requires n !in fleet
    ensures GatesOf(fleet[n := es]) == GatesOf(fleet)[n := Doors(es)]
  {
  }

  lemma Separate(fleet: Fleet, n: string, es: seq<Endpoint>)
    requires Unshared(fleet) && n !in fleet && Distinct(es)
    requires forall m :: m in fleet ==> Apart(fleet[m], es)
    ensures Unshared(fleet[n := es])
  {
  }

  lemma OneMoreName(names: seq<string>, n: string)
    requires n !in names && Distinct(names)
    ensures Distinct(names + [n]) && Elements(names + [n]) == Elements(names) + {n}
    ensures (names + [n])[..|names|] == names
  {
  }

  lemma OneMoreIdle(fleet: Fleet, names: seq<string>, n: string, es: seq<Endpoint>)
    requires Elements(names) == fleet.Keys && n !in fleet
    requires Elements(names + [n]) == fleet[n := es].Keys && (names + [n])[..|names|] == names
    ensures AllIdle(fleet[n := es], names + [n]) == AllIdle(fleet, names) + Idle(es)
  {
    GatesJoin(fleet, n, es);
    OtherGates(GatesOf(fleet), names, n, Doors(es));
  }

  /** A pool of its own endpoints can join the others. */
  lemma Joins(pools: map<string, Pool>, names: seq<string>, n: string, pool: Pool)
    requires Listed(FleetOf(pools), names) && n !in pools && Members(pool.endpoints)
    requires forall m :: m in pools ==> Apart(pools[m].endpoints, pool.endpoints)
    ensures Listed(FleetOf(pools[n := pool]), names + [n])
    ensures AllIdle(FleetOf(pools[n := pool]), names + [n]) == AllIdle(FleetOf(pools), names) + Idle(pool.endpoints)
  {
    var fleet, es := FleetOf(pools), pool.endpoints;
    assert FleetOf(pools[n := pool]) == fleet[n := es];
    OneMoreName(names, n);
    OneMoreIdle(fleet, names, n, es);
    Separate(fleet, n, es);
    GatesJoin(fleet, n, es);
  }
}
