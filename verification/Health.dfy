/** One round of background probes over a pool (health.go:60-107). */
module HealthChecks {
  import opened Basics
  import opened Cooldown
  import opened Vitals
  import opened Transport
  import opened Endpoints
  import opened Pools
  import opened Retry
  import opened Clients
  import opened Requests

  /** What the world does during one probe: limiter, context and select as for a request, then the answer. */
  datatype Probe = Probe(passes: bool, ended: bool, preferContext: bool, failed: bool, status: int)

  /** A probe succeeds when it gets a session and an answer below 400. */
  predicate Answers(b: Books, w: Probe) {
    && !b.closed && w.passes && |b.idle| > 0 && !(w.ended && w.preferContext)
    && !w.failed && 200 <= w.status < 400
  }

  /** What a round does to one endpoint: those out of service are left alone. */
  function Checked(threshold: nat, v: Vitals, answered: bool): Vitals {
    if !v.Available() then v
    else if answered then v.(fails := 0)
    else v.Penalised(threshold)
  }

  /** A probe leaves the tier alone unless it sends the endpoint into cooldown, and nothing comes back by it. */
  lemma CheckMeaning(threshold: nat, v: Vitals, answered: bool)
    ensures var v' := Checked(threshold, v, answered);
            if v.health != Alive then v' == v
            else if answered then v'.health == Alive && v'.fails == 0 && v'.tier == v.tier
            else
              && v'.fails == v.fails + 1
              && v'.health == (if v.fails + 1 >= threshold then InCooldown else Alive)
              && v'.tier == (if v.fails + 1 >= threshold then v.tier + 1 else v.tier)
  {
  }

  function AllAnswers(bs: seq<Books>, ws: seq<Probe>): (answers: seq<bool>)
    requires |bs| == |ws|
    ensures |answers| == |bs| && forall p :: 0 <= p < |bs| ==> answers[p] == Answers(bs[p], ws[p])
  {
    seq(|bs|, p requires 0 <= p < |bs| => Answers(bs[p], ws[p]))
  }

  /** The health of the endpoints once the first i have been checked, given who answers. */
  function CheckedUpTo(threshold: nat, vs: seq<Vitals>, answers: seq<bool>, i: nat): (now: seq<Vitals>)
    requires |vs| == |answers|
    ensures |now| == |vs|
    ensures forall p :: 0 <= p < |vs| ==> now[p] == if p < i then Checked(threshold, vs[p], answers[p]) else vs[p]
  {
    seq(|vs|, p requires 0 <= p < |vs| => if p < i then Checked(threshold, vs[p], answers[p]) else vs[p])
  }

  function Round(threshold: nat, vs: seq<Vitals>, answers: seq<bool>): seq<Vitals>
    requires |vs| == |answers|
  {
    CheckedUpTo(threshold, vs, answers, |vs|)
  }

  /** A probe that sends an endpoint into cooldown starts a recovery with the delay of its new tier. */
  function RecoveryAfterCheck(base: int, max: int, before: Option<int>, v: Vitals, v': Vitals): Option<int> {
    if v.health == Alive && v'.health == InCooldown && v'.tier >= 1 then Some(Delay(base, max, v'.tier)) else before
  }

  function RecoveriesUpTo(base: int, max: int, rs: seq<Option<int>>, vs: seq<Vitals>, now: seq<Vitals>, i: nat)
    : (r: seq<Option<int>>)
    requires |rs| == |vs| == |now|
    ensures |r| == |rs|
    ensures forall p :: 0 <= p < |rs| ==>
              r[p] == if p < i then RecoveryAfterCheck(base, max, rs[p], vs[p], now[p]) else rs[p]
  {
    seq(|rs|, p requires 0 <= p < |rs| =>
          if p < i then RecoveryAfterCheck(base, max, rs[p], vs[p], now[p]) else rs[p])
  }

  method PingEndpoint(ep: Endpoint, factory: Factory, w: Probe) returns (ok: bool)
    requires ep.Valid()
    modifies ep`sessions, factory`closings
    ensures ep.Valid() && BooksOf(ep) == old(BooksOf(ep)) && ok == Answers(BooksOf(ep), w)
    ensures ok <==>
              && old(!ep.closed && ep.sessions != []) && w.passes && !(w.ended && w.preferContext)
              && !w.failed && 200 <= w.status <= 399
    ensures factory.closings == old(factory.closings)
  {
    var acquired := ep.AcquireSession(w.passes, w.ended, w.preferContext);
    if !acquired.Session? {
      return false;
    }
    ok := !w.failed && 200 <= w.status < 400;
    ep.ReleaseSession(acquired.s, factory);
  }

  method CheckOne(ep: Endpoint, threshold: nat, base: int, max: int, factory: Factory, w: Probe)
    requires ep.Valid()
    modifies ep, factory`closings
    ensures ep.Valid() && BooksOf(ep) == old(BooksOf(ep))
    ensures ep.Condition() == Checked(threshold, old(ep.Condition()), old(Answers(BooksOf(ep), w)))
    ensures ep.recovery
            == if old(ep.health) == Alive && ep.health == InCooldown
               then Some(Delay(base, max, ep.tier))
               else old(ep.recovery)
    ensures factory.closings == old(factory.closings)
  {
    if !ep.IsAvailable() {
      return;
    }
    var ok := PingEndpoint(ep, factory, w);
    if !ok {
      ep.Penalise(threshold, base, max);
    } else {
      ep.ResetFailCount();
    }
  }

  method CheckAt(es: seq<Endpoint>, p: nat, threshold: nat, base: int, max: int, factory: Factory, w: Probe)
    requires Members(es) && p < |es|
    modifies es, factory`closings
    ensures Members(es) && AllBooks(es) == old(AllBooks(es))
    ensures var (vs, bs) := (old(Conditions(es)), old(AllBooks(es)));
            Conditions(es) == vs[p := Checked(threshold, vs[p], Answers(bs[p], w))]
    ensures var (was, v, v') := (old(Recoveries(es)), old(Conditions(es))[p], Conditions(es)[p]);
            Recoveries(es) == was[p := RecoveryAfterCheck(base, max, was[p], v, v')]
    ensures factory.closings == old(factory.closings)
  {
    ghost var vs, bs, rs := Conditions(es), AllBooks(es), Recoveries(es);
    var ep := es[p];
    assert vs[p] == ep.Condition() && bs[p] == BooksOf(ep) && rs[p] == ep.recovery;
    CheckOne(ep, threshold, base, max, factory, w);
    forall i | 0 <= i < |es| && i != p ensures es[i] != ep {
    }
    assert Conditions(es) == vs[p := ep.Condition()];
    assert AllBooks(es) == bs;
    assert Recoveries(es) == rs[p := ep.recovery];
  }

  /** One round: every endpoint in service is probed; sessions and request counts stay as they were. */
  method CheckAll(es: seq<Endpoint>, threshold: nat, base: int, max: int, factory: Factory, ws: seq<Probe>)
    requires Members(es) && |ws| == |es|
    modifies es, factory`closings
    ensures Members(es) && AllBooks(es) == old(AllBooks(es))
    ensures Conditions(es) == Round(threshold, old(Conditions(es)), AllAnswers(old(AllBooks(es)), ws))
    ensures forall p :: 0 <= p < |es| ==>
              es[p].recovery == if old(es[p].health) == Alive && es[p].health == InCooldown && es[p].tier >= 1
                                then Some(Delay(base, max, es[p].tier)) else old(es[p].recovery)
    ensures factory.closings == old(factory.closings)
  {
    ghost var vs, bs, rs := Conditions(es), AllBooks(es), Recoveries(es);
    ghost var answers := AllAnswers(bs, ws);
    var i := 0;
    while i < |es|
      invariant 0 <= i <= |es| && Members(es) && AllBooks(es) == bs
      invariant Conditions(es) == CheckedUpTo(threshold, vs, answers, i)
      invariant Recoveries(es) == RecoveriesUpTo(base, max, rs, vs, Round(threshold, vs, answers), i)
      invariant factory.closings == old(factory.closings)
    {
      NextChecked(threshold, vs, answers, i);
      NextRecovery(base, max, rs, vs, Round(threshold, vs, answers), i);
      CheckAt(es, i, threshold, base, max, factory, ws[i]);
      i := i + 1;
    }
  }

  lemma NextChecked(threshold: nat, vs: seq<Vitals>, answers: seq<bool>, i: nat)
    requires |vs| == |answers| && i < |vs|
    ensures var now := CheckedUpTo(threshold, vs, answers, i);
            now[i := Checked(threshold, now[i], answers[i])] == CheckedUpTo(threshold, vs, answers, i + 1)
  {
  }

  lemma NextRecovery(base: int, max: int, rs: seq<Option<int>>, vs: seq<Vitals>, now: seq<Vitals>, i: nat)
    requires |rs| == |vs| == |now| && i < |vs|
    ensures var before := RecoveriesUpTo(base, max, rs, vs, now, i);
            before[i := RecoveryAfterCheck(base, max, before[i], vs[i], now[i])]
            == RecoveriesUpTo(base, max, rs, vs, now, i + 1)
  {
  }

  // ---------------------------------------------------------------------------
  // What rounds do to the patience of a pool

  function InService(vs: seq<Vitals>): nat {
    if vs == [] then 0 else InService(vs[..|vs| - 1]) + (if vs[|vs| - 1].Available() then 1 else 0)
  }

  /** A round brings nobody back, touches nobody out of service, and leaves nobody in service at the threshold. */
  lemma RoundOnlyRetires(threshold: nat, vs: seq<Vitals>, answers: seq<bool>)
    requires |answers| == |vs| && threshold > 0
    ensures var now := Round(threshold, vs, answers);
            && BelowThreshold(threshold, now)
            && forall p :: 0 <= p < |vs| ==>
                 if vs[p].Available() then now[p].Available() <==> answers[p] || vs[p].fails + 1 < threshold
                 else now[p] == vs[p]
  {
  }

  /** A round nobody answers costs the pool exactly one failure per endpoint in service. */
  lemma {:induction false} SilentRoundCosts(threshold: nat, vs: seq<Vitals>, answers: seq<bool>)
    requires |answers| == |vs| && BelowThreshold(threshold, vs) && forall p :: 0 <= p < |vs| ==> !answers[p]
    ensures Potential(threshold, Round(threshold, vs, answers)) + InService(vs) == Potential(threshold, vs)
    decreases |vs|
  {
    if vs != [] {
      var last := |vs| - 1;
      SilentRoundCosts(threshold, vs[..last], answers[..last]);
      assert Round(threshold, vs, answers)[..last] == Round(threshold, vs[..last], answers[..last]);
    }
  }

  /** A round everybody in service answers restores the pool's full patience. */
  lemma {:induction false} AnsweredRoundRestores(threshold: nat, vs: seq<Vitals>, answers: seq<bool>)
    requires |answers| == |vs| && forall p :: 0 <= p < |vs| && vs[p].Available() ==> answers[p]
    ensures Potential(threshold, Round(threshold, vs, answers)) == threshold * InService(vs)
    decreases |vs|
  {
    if vs != [] {
      var last := |vs| - 1;
      AnsweredRoundRestores(threshold, vs[..last], answers[..last]);
      assert Round(threshold, vs, answers)[..last] == Round(threshold, vs[..last], answers[..last]);
      assert InService(vs) == InService(vs[..last]) + (if vs[last].Available() then 1 else 0);
    }
  }

  /** An endpoint after k rounds it did not answer. */
  function Unanswered(threshold: nat, v: Vitals, k: nat): Vitals {
    if k == 0 then v else Checked(threshold, Unanswered(threshold, v, k - 1), false)
  }

  /**
    Silence retires an endpoint in exactly the rounds its patience allows, and then once: one cooldown, not
    one per round.
  */
  lemma {:induction false} SilenceRetires(threshold: nat, v: Vitals, k: nat)
    requires v.Available() && v.fails < threshold
    ensures Unanswered(threshold, v, k)
            == if v.fails + k < threshold then v.(fails := v.fails + k)
               else Vitals(InCooldown, threshold, v.tier + 1)
    decreases k
  {
    if k > 0 {
      SilenceRetires(threshold, v, k - 1);
    }
  }

  // ---------------------------------------------------------------------------
  // Rounds without an answer

  function Silent(n: nat): (answers: seq<bool>)
    ensures |answers| == n && forall p :: 0 <= p < n ==> !answers[p]
  {
    seq(n, p => false)
  }

  /** The pool after k rounds nobody answered. */
  function SilentRounds(threshold: nat, vs: seq<Vitals>, k: nat): (now: seq<Vitals>)
    ensures |now| == |vs|
  {
    if k == 0 then vs else Round(threshold, SilentRounds(threshold, vs, k - 1), Silent(|vs|))
  }

  /** How many probes k silent rounds send: one per endpoint then in service. */
  function Probes(threshold: nat, vs: seq<Vitals>, k: nat): nat {
    if k == 0 then 0 else Probes(threshold, vs, k - 1) + InService(SilentRounds(threshold, vs, k - 1))
  }

  lemma {:induction false} SilentRoundsCost(threshold: nat, vs: seq<Vitals>, k: nat)
    requires threshold > 0 && BelowThreshold(threshold, vs)
    ensures BelowThreshold(threshold, SilentRounds(threshold, vs, k))
    ensures Potential(threshold, SilentRounds(threshold, vs, k)) + Probes(threshold, vs, k) == Potential(threshold, vs)
    decreases k
  {
    if k > 0 {
      var before := SilentRounds(threshold, vs, k - 1);
      SilentRoundsCost(threshold, vs, k - 1);
      RoundOnlyRetires(threshold, before, Silent(|vs|));
      SilentRoundCosts(threshold, before, Silent(|vs|));
    }
  }

  lemma {:induction false} SilentRoundsAt(threshold: nat, vs: seq<Vitals>, k: nat, p: nat)
    requires p < |vs|
    ensures SilentRounds(threshold, vs, k)[p] == Unanswered(threshold, vs[p], k)
    decreases k
  {
    if k > 0 {
      SilentRoundsAt(threshold, vs, k - 1, p);
    }
  }

  lemma {:induction false} StaysOut(threshold: nat, v: Vitals, k: nat)
    requires !v.Available()
    ensures Unanswered(threshold, v, k) == v
    decreases k
  {
    if k > 0 {
      StaysOut(threshold, v, k - 1);
    }
  }

  /**
    As many silent rounds as the threshold empty the pool, after exactly as many probes as blocked attempts
    would have taken.
  */
  lemma SilenceEmptiesPool(threshold: nat, vs: seq<Vitals>, k: nat)
    requires 0 < threshold <= k && BelowThreshold(threshold, vs)
    ensures forall p :: 0 <= p < |vs| ==> !SilentRounds(threshold, vs, k)[p].Available()
    ensures Probes(threshold, vs, k) == Potential(threshold, vs)
  {
    SilentRoundsCost(threshold, vs, k);
    forall p | 0 <= p < |vs| ensures !SilentRounds(threshold, vs, k)[p].Available() {
      SilentRoundsAt(threshold, vs, k, p);
      if vs[p].Available() {
        SilenceRetires(threshold, vs[p], k);
      } else {
        StaysOut(threshold, vs[p], k);
      }
    }
    NoPotentialIffNone(threshold, SilentRounds(threshold, vs, k));
  }
}
