/**
  One call at a time: what a whole `penalise`, `markFailed`, `recordSuccess` with `resetFailCount`, recovery,
  `markDead` or `ResetEndpoint` makes of an endpoint's state, failure counter and cooldown tier when nothing
  interleaves with it (client.go:203-204, 238-244, 354-383; endpoint.go:214-218, 237-285).
*/
module Vitals {
  datatype Health = Alive | Dead | InCooldown

  datatype Vitals = Vitals(health: Health, fails: nat, tier: nat) {
    predicate Available() {
      health == Alive
    }

    function Failed(): Vitals {
      this.(health := InCooldown, tier := tier + 1)
    }

    function Penalised(threshold: nat): Vitals {
      var counted := this.(fails := fails + 1);
      if counted.fails >= threshold then counted.Failed() else counted
    }

    function Succeeded(): Vitals {
      this.(fails := 0, tier := 0)
    }

    /** A recovery leaves an endpoint that is no longer in cooldown alone. */
    function Recovered(): Vitals {
      if health == InCooldown then this.(health := Alive, fails := 0) else this
    }

    function Retired(): Vitals {
      this.(health := Dead)
    }
  }

  const FRESH := Vitals(Alive, 0, 0)
}
