/** Where sessions come from and go to: the session factory and `Session.Close` (transport.go:46-67). */
module Transport {
  import opened Basics

  /** The numbers from a up to b. */
  function Interval(a: nat, b: nat): (r: seq<nat>)
    requires a <= b
    ensures |r| == b - a && forall i :: 0 <= i < |r| ==> r[i] == a + i
  {
    seq(b - a, i requires 0 <= i => a + i)
  }

  /**
    Sessions are numbered in the order the factory makes them, so no two are alike. Which calls fail is
    arbitrary. `closings` lists every Session.Close, oldest first.
  */
  class Factory {
    const fails: nat -> bool
    var calls: nat
    var made: nat
    var closings: seq<nat>

    constructor (fails: nat -> bool)
      ensures calls == 0 && made == 0 && closings == [] && this.fails == fails
    {
      this.fails := fails;
      calls, made, closings := 0, 0, [];
    }

    method New() returns (session: Option<nat>)
      modifies this`calls, this`made
      ensures calls == old(calls) + 1
      ensures fails(old(calls)) ==> session == None && made == old(made)
      ensures !fails(old(calls)) ==> session == Some(old(made)) && made == old(made) + 1
    {
      session := if fails(calls) then None else Some(made);
      made := if fails(calls) then made else made + 1;
      calls := calls + 1;
    }

    method CloseSession(s: nat)
      modifies this`closings
      ensures closings == old(closings) + [s]
    {
      closings := closings + [s];
    }
  }
}

/** One proxy endpoint, one call at a time (endpoint.go:20-312). */
module Endpoints {
  import opened Basics
  import opened Cooldown
  import opened Vitals
  import opened Transport
  import MovingAverage
  import Weighting

  datatype Acquired =
    | Session(s: nat)
    | EndpointClosed
    | LimiterFailed
    | ContextDone
    | Waits                            // no session, and the context has not ended

  const DEFAULT_POOL_SIZE := 15

  class Endpoint {
    const index: int
    const poolSize: nat
    var health: Health
    var fails: nat
    var tier: nat
    /** The delay of the newest recovery, until it ends, is superseded or is cancelled by Close. */
    var recovery: Option<int>
    var sessions: seq<nat>
    var closed: bool
    var avgLatency: int
    var totalReqs: nat
    var successReqs: nat

    function Condition(): Vitals
      reads this`health, this`fails, this`tier
    {
      Vitals(health, fails, tier)
    }

    predicate IsAvailable()
      reads this`health
    {
      health == Alive
    }

    ghost predicate Valid()
      reads this
    {
      && |sessions| <= poolSize && (closed ==> sessions == [])
      && successReqs <= totalReqs && avgLatency >= 0
    }

    /** Open, with a full channel, and never used. */
    predicate AsBuilt(size: nat)
      reads this
    {
      && !closed && poolSize == size == |sessions| && Condition() == FRESH && recovery == None
      && avgLatency == 0 && totalReqs == 0 && successReqs == 0
    }

    /**
      Opens the session pool. When a factory call fails, what was opened before it is closed; the closed
      endpoint stands for the error the source returns.
    */
    constructor (index: int, poolSize: int, factory: Factory)
      modifies factory
      ensures Valid() && this.index == index
      ensures this.poolSize == if poolSize <= 0 then DEFAULT_POOL_SIZE else poolSize
      ensures closed || AsBuilt(this.poolSize)
      ensures old(factory.made) <= factory.made
      ensures !closed ==>
                && sessions == Interval(old(factory.made), factory.made)
                && factory.made == old(factory.made) + this.poolSize
                && factory.calls == old(factory.calls) + this.poolSize
                && factory.closings == old(factory.closings)
      ensures closed ==>
                && sessions == []
                && factory.closings == old(factory.closings) + Interval(old(factory.made), factory.made)
      ensures old(factory.calls) <= factory.calls <= old(factory.calls) + this.poolSize
      ensures closed <==> exists i :: old(factory.calls) <= i < factory.calls && factory.fails(i)
    {
      this.index := index;
      var size := if poolSize <= 0 then DEFAULT_POOL_SIZE else poolSize;
      this.poolSize := size;
      health, fails, tier, recovery := Alive, 0, 0, None;
      avgLatency, totalReqs, successReqs := 0, 0, 0;
      sessions, closed := [], false;
      new;
      var i := 0;
      while i < size
        invariant 0 <= i <= size && Valid() && !closed
        invariant Condition() == FRESH && avgLatency == 0 && totalReqs == 0 && successReqs == 0 && recovery == None
        invariant factory.made == old(factory.made) + i && factory.calls == old(factory.calls) + i
        invariant sessions == Interval(old(factory.made), factory.made)
        invariant factory.closings == old(factory.closings)
        invariant forall k :: old(factory.calls) <= k < factory.calls ==> !factory.fails(k)
      {
        var session := factory.New();
        if session.None? {
          Close(factory);
          return;
        }
        sessions := sessions + [session.value];
        i := i + 1;
      }
    }

    /**
      Borrows a session: `passes` says whether the rate limiter lets the call through, `ended` whether the
      context has ended and `preferContext` which ready case the select takes. With every session out and the
      context still running, the call waits for whichever comes first.
    */
    method AcquireSession(passes: bool, ended: bool, preferContext: bool) returns (r: Acquired)
      requires Valid()
      modifies this`sessions
      ensures Valid()
      ensures r.EndpointClosed? <==> closed
      ensures r.LimiterFailed? <==> !closed && !passes
      ensures r.ContextDone? <==> !closed && passes && ended && (old(sessions) == [] || preferContext)
      ensures r.Waits? <==> !closed && passes && !ended && old(sessions) == []
      ensures if r.Session? then old(sessions) == [r.s] + sessions else sessions == old(sessions)
    {
      if closed {
        return EndpointClosed;
      }
      if !passes {
        return LimiterFailed;
      }
      if ended && (sessions == [] || preferContext) {
        return ContextDone;
      }
      if sessions == [] {
        return Waits;
      }
      r := Session(sessions[0]);
      sessions := sessions[1..];
    }

    /** Back into the pool, or closed when the endpoint is closed or the pool is full. */
    method ReleaseSession(s: nat, factory: Factory)
      requires Valid()
      modifies this`sessions, factory`closings
      ensures Valid()
      ensures !closed && |old(sessions)| < poolSize ==>
                sessions == old(sessions) + [s] && factory.closings == old(factory.closings)
      ensures closed || |old(sessions)| >= poolSize ==>
                sessions == old(sessions) && factory.closings == old(factory.closings) + [s]
    {
      if closed {
        factory.CloseSession(s);
      } else if |sessions| < poolSize {
        sessions := sessions + [s];
      } else {
        factory.CloseSession(s);
      }
    }

    /** Closes every idle session, once; later calls do nothing. */
    method Close(factory: Factory)
      requires Valid()
      modifies this`closed, this`sessions, this`recovery, factory`closings
      ensures Valid() && closed && sessions == []
      ensures factory.closings == old(factory.closings) + old(sessions)
      ensures recovery == if old(closed) then old(recovery) else None
    {
      if closed {
        return;
      }
      recovery := None;
      closed := true;
      while sessions != []
        invariant |sessions| <= poolSize && closed && recovery == None
        invariant factory.closings + sessions == old(factory.closings) + old(sessions)
        decreases |sessions|
      {
        var s := sessions[0];
        sessions := sessions[1..];
        factory.CloseSession(s);
      }
    }

    method RecordLatency(ns: nat)
      requires Valid()
      modifies this`totalReqs, this`avgLatency
      ensures Valid() && totalReqs == old(totalReqs) + 1
      ensures avgLatency == MovingAverage.Update(old(avgLatency), ns)
    {
      totalReqs := totalReqs + 1;
      avgLatency := if avgLatency == 0 then ns else MovingAverage.Blend(avgLatency, ns);
    }

    method RecordSuccess()
      requires Valid() && successReqs < totalReqs
      modifies this`successReqs, this`tier
      ensures Valid() && successReqs == old(successReqs) + 1
      ensures Condition() == old(Condition()).(tier := 0)
    {
      successReqs := successReqs + 1;
      tier := 0;
    }

    method ResetFailCount()
      modifies this`fails
      ensures Condition() == old(Condition()).(fails := 0)
    {
      fails := 0;
    }

    /** Into cooldown, whatever the state was; a recovery in progress is superseded. */
    method MarkFailed(base: int, max: int)
      modifies this`health, this`tier, this`recovery
      ensures Condition() == old(Condition()).Failed()
      ensures health == InCooldown && fails == old(fails) && tier == old(tier) + 1
      ensures recovery == Some(Delay(base, max, tier))
    {
      health := InCooldown;
      tier := tier + 1;
      recovery := Some(Delay(base, max, tier));
    }

    /** The recovery goroutine, once its timer has fired. */
    method Recover()
      requires recovery.Some?
      modifies this`health, this`fails, this`recovery
      ensures recovery == None
      ensures Condition() == old(Condition()).Recovered()
      ensures tier == old(tier)
      ensures if old(health) == InCooldown then health == Alive && fails == 0
              else health == old(health) && fails == old(fails)
    {
      recovery := None;
      if health == InCooldown {
        health := Alive;
        fails := 0;
      }
    }

    /** What Client.penalise does to the endpoint. */
    method Penalise(threshold: nat, base: int, max: int)
      modifies this`health, this`fails, this`tier, this`recovery
      ensures Condition() == old(Condition()).Penalised(threshold)
      ensures fails == old(fails) + 1
      ensures if fails >= threshold then health == InCooldown && tier == old(tier) + 1
              else health == old(health) && tier == old(tier)
      ensures recovery == if old(fails) + 1 >= threshold then Some(Delay(base, max, tier)) else old(recovery)
    {
      fails := fails + 1;
      if fails >= threshold {
        MarkFailed(base, max);
      }
    }

    method MarkDead()
      modifies this`health
      ensures Condition() == old(Condition()).Retired()
      ensures health == Dead && fails == old(fails) && tier == old(tier)
    {
      health := Dead;
    }

    method Reset()
      modifies this`health, this`fails, this`tier
      ensures Condition() == FRESH
      ensures health == Alive && fails == 0 && tier == 0
    {
      health := Alive;
      fails := 0;
      tier := 0;
    }

    function Weight(): real
      reads this
    {
      Weighting.Weight(IsAvailable(), successReqs, totalReqs, avgLatency)
    }
  }
}
