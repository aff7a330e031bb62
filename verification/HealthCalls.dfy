/**
  Calls that nothing interleaves with: run alone, the atomic steps of each operation on an endpoint's health
  have exactly the effect its code reads as, the one `Vitals` states.
*/
module HealthCalls {
  import opened Basics
  import opened Runs
  import opened Cooldown
  import opened Vitals
  import opened HealthProtocol

  ghost predicate NoReset(es: seq<Event>) {
    forall i :: 0 <= i < |es| ==> es[i].act != CallReset
  }

  /** No attempt, probe or reset is called. */
  ghost predicate NoCalls(es: seq<Event>) {
    forall i :: 0 <= i < |es| ==> !es[i].act.CallRequest? && !es[i].act.CallProbe? && !es[i].act.CallReset?
  }

  function VitalsOf(m: Memory): Vitals {
    Vitals(m.health, m.fails, m.tier)
  }

  function WithVitals(m: Memory, v: Vitals): Memory {
    m.(health := v.health, fails := v.fails, tier := v.tier)
  }

  /** The recoveries when the one the handle names has been superseded. */
  function Cancelled(m: Memory): seq<Context> {
    if m.handle.Some? && m.handle.value < |m.contexts| then m.contexts[m.handle.value := Superseded] else m.contexts
  }

  /** The memory after a markFailed has cancelled the recovery before it and started its own. */
  function Restarted(m: Memory): Memory {
    m.(mu := None, tier := m.tier + 1, handle := Some(|m.contexts|), contexts := Cancelled(m) + [Live],
       delays := m.delays + [Delay(m.base, m.max, m.tier + 1)])
  }

  lemma SoloStep(st: State, a: Agent, act: Act, es: seq<Event>) returns (fs: seq<Event>)
    requires Enabled(st, Event(a, act))
    requires IsRun(SYSTEM, Apply(st, Event(a, act)), es)
    ensures fs == [Event(a, act)] + es
    ensures IsRun(SYSTEM, st, fs) && After(SYSTEM, st, fs) == After(SYSTEM, Apply(st, Event(a, act)), es)
  {
    Cons(SYSTEM, st, Event(a, act), es);
    fs := [Event(a, act)] + es;
  }

  // ---------------------------------------------------------------------------
  // Failures

  lemma SoloCancel(st: State, a: Agent) returns (es: seq<Event>)
    requires a in st.pcs && st.pcs[a].MfCancel?
    ensures IsRun(SYSTEM, st, es) && NoCalls(es)
    ensures After(SYSTEM, st, es).mem == st.mem.(tier := st.mem.tier + 1, contexts := Cancelled(st.mem))
    ensures After(SYSTEM, st, es).pcs == st.pcs[a := MfSpawn(st.mem.tier + 1)]
  {
    var st1 := Apply(st, Event(a, Advance));
    var st2 := Apply(st1, Event(a, Advance));
    assert st2.pcs == st.pcs[a := MfSpawn(st.mem.tier + 1)];
    es := SoloStep(st1, a, Advance, []);
    es := SoloStep(st, a, Advance, es);
  }

  lemma SoloSpawn(st: State, a: Agent) returns (es: seq<Event>)
    requires a.Caller? && a in st.pcs && st.pcs[a].MfSpawn?
    ensures IsRun(SYSTEM, st, es) && NoCalls(es)
    ensures var m := st.mem;
            After(SYSTEM, st, es).mem == m.(mu := None, handle := Some(|m.contexts|), contexts := m.contexts + [Live],
                                            delays := m.delays + [Delay(m.base, m.max, st.pcs[a].tier)])
    ensures After(SYSTEM, st, es).pcs == st.pcs[a := Idle][Recovery(|st.mem.contexts|) := Starting]
  {
    var st1 := Apply(st, Event(a, Advance));
    var st2 := Apply(st1, Event(a, Advance));
    assert st2.pcs == st.pcs[a := Idle][Recovery(|st.mem.contexts|) := Starting];
    es := SoloStep(st1, a, Advance, []);
    es := SoloStep(st, a, Advance, es);
  }

  lemma SoloRestart(st: State, a: Agent) returns (es: seq<Event>)
    requires a.Caller? && a in st.pcs && st.pcs[a].MfCancel?
    ensures IsRun(SYSTEM, st, es) && NoCalls(es)
    ensures After(SYSTEM, st, es).mem == Restarted(st.mem)
    ensures After(SYSTEM, st, es).pcs == st.pcs[a := Idle][Recovery(|st.mem.contexts|) := Starting]
  {
    var first := SoloCancel(st, a);
    var mid := After(SYSTEM, st, first);
    var second := SoloSpawn(mid, a);
    Concat(SYSTEM, st, first, second);
    assert mid.pcs[a := Idle] == st.pcs[a := Idle];
    es := first + second;
  }

  /** markFailed by itself, from the lock to the unlock. */
  lemma SoloMarkFailed(st: State, a: Agent) returns (es: seq<Event>)
    requires a.Caller? && a in st.pcs && st.pcs[a].MfLock? && st.mem.mu == None
    ensures IsRun(SYSTEM, st, es) && NoCalls(es)
    ensures VitalsOf(After(SYSTEM, st, es).mem) == VitalsOf(st.mem).Failed()
    ensures After(SYSTEM, st, es).mem == Restarted(st.mem.(health := InCooldown))
    ensures After(SYSTEM, st, es).pcs == st.pcs[a := Idle][Recovery(|st.mem.contexts|) := Starting]
  {
    var st1 := Apply(st, Event(a, Advance));
    var st2 := Apply(st1, Event(a, Advance));
    assert st2.pcs == st.pcs[a := MfCancel];
    es := SoloRestart(st2, a);
    assert st2.pcs[a := Idle] == st.pcs[a := Idle];
    es := SoloStep(st1, a, Advance, es);
    es := SoloStep(st, a, Advance, es);
  }

  lemma InFlightCounts(st: State, a: Agent) returns (es: seq<Event>)
    requires a in st.pcs && st.pcs[a].InFlight?
    ensures IsRun(SYSTEM, st, es) && NoCalls(es)
    ensures After(SYSTEM, st, es) == State(st.mem.(fails := st.mem.fails + 1), st.pcs[a := Reading])
  {
    var bad := if st.pcs[a].kind == Request then Blocked else OtherError;
    var st' := Apply(st, Event(a, bad));
    assert Apply(st', Event(a, Advance)).pcs == st.pcs[a := Reading];
    es := SoloStep(st', a, Advance, []);
    es := SoloStep(st, a, bad, es);
  }

  /** A blocked attempt or a probe without an answer, from there through the count to the cooldown at the threshold. */
  lemma SoloPenalise(st: State, a: Agent) returns (es: seq<Event>)
    requires a.Caller? && a in st.pcs && st.pcs[a].InFlight? && st.mem.mu == None
    ensures IsRun(SYSTEM, st, es)
    ensures VitalsOf(After(SYSTEM, st, es).mem) == VitalsOf(st.mem).Penalised(st.mem.threshold)
    ensures var m := st.mem.(fails := st.mem.fails + 1);
            if m.fails >= m.threshold then
              && After(SYSTEM, st, es).mem == Restarted(m.(health := InCooldown))
              && After(SYSTEM, st, es).pcs == st.pcs[a := Idle][Recovery(|m.contexts|) := Starting]
            else
              After(SYSTEM, st, es) == State(m, st.pcs[a := Idle])
  {
    es := InFlightCounts(st, a);
    var st1 := After(SYSTEM, st, es);
    var rest := SoloRead(st1, a);
    assert st1.pcs[a := Idle] == st.pcs[a := Idle];
    Concat(SYSTEM, st, es, rest);
    es := es + rest;
  }

  lemma SoloRead(st: State, a: Agent) returns (es: seq<Event>)
    requires a.Caller? && a in st.pcs && st.pcs[a].Reading? && st.mem.mu == None
    ensures IsRun(SYSTEM, st, es)
    ensures if st.mem.fails >= st.mem.threshold then
              && VitalsOf(After(SYSTEM, st, es).mem) == VitalsOf(st.mem).Failed()
              && After(SYSTEM, st, es).mem == Restarted(st.mem.(health := InCooldown))
              && After(SYSTEM, st, es).pcs == st.pcs[a := Idle][Recovery(|st.mem.contexts|) := Starting]
            else
              After(SYSTEM, st, es) == State(st.mem, st.pcs[a := Idle])
  {
    var st1 := Apply(st, Event(a, Advance));
    es := [];
    if st.mem.fails >= st.mem.threshold {
      es := SoloMarkFailed(st1, a);
      assert st1.pcs[a := Idle] == st.pcs[a := Idle];
    }
    es := SoloStep(st, a, Advance, es);
  }

  // ---------------------------------------------------------------------------
  // Successes, recoveries and manual control

  /** A successful attempt. */
  lemma SoloSuccess(st: State, a: Agent) returns (es: seq<Event>)
    requires a in st.pcs && st.pcs[a] == InFlight(Request)
    ensures IsRun(SYSTEM, st, es)
    ensures After(SYSTEM, st, es) == State(WithVitals(st.mem, VitalsOf(st.mem).Succeeded()), st.pcs[a := Idle])
  {
    var st1 := Apply(st, Event(a, Succeeded));
    var st2 := Apply(st1, Event(a, Advance));
    var st3 := Apply(st2, Event(a, Advance));
    assert st3.pcs == st.pcs[a := Idle];
    es := SoloStep(st2, a, Advance, []);
    es := SoloStep(st1, a, Advance, es);
    es := SoloStep(st, a, Succeeded, es);
  }

  /** A probe that is answered clears the failures and leaves the tier. */
  lemma SoloAnswer(st: State, a: Agent) returns (es: seq<Event>)
    requires a in st.pcs && st.pcs[a] == InFlight(Probe)
    ensures IsRun(SYSTEM, st, es)
    ensures After(SYSTEM, st, es) == State(st.mem.(fails := 0), st.pcs[a := Idle])
  {
    var st1 := Apply(st, Event(a, Succeeded));
    var st2 := Apply(st1, Event(a, Advance));
    assert st2.pcs == st.pcs[a := Idle];
    es := SoloStep(st1, a, Advance, []);
    es := SoloStep(st, a, Succeeded, es);
  }

  /** An attempt or probe goes on only if it finds the endpoint alive. */
  lemma OnlyAliveAdmits(st: State, e: Event)
    requires Enabled(st, e) && st.pcs[e.a].Checking?
    ensures Apply(st, e)
            == State(st.mem, st.pcs[e.a := if st.mem.health == Alive then InFlight(st.pcs[e.a].kind) else Idle])
  {
  }

  /** A candidate not chosen, and a callback error that is no block, change nothing. */
  lemma HarmlessEnd(st: State, a: Agent, act: Act)
    requires a in st.pcs && st.pcs[a] == InFlight(Request) && (act.NotChosen? || act.OtherError?)
    ensures Enabled(st, Event(a, act)) && Apply(st, Event(a, act)) == State(st.mem, st.pcs[a := Idle])
  {
  }

  /** A recovery whose context has ended before its timer has fired ends without touching anything. */
  lemma CancelledEnds(st: State, r: Agent)
    requires r in st.pcs && (st.pcs[r].Starting? || st.pcs[r].Parked?) && !IsLive(st.mem, r)
    ensures Enabled(st, Event(r, SeesCancel))
    ensures Apply(st, Event(r, SeesCancel)) == State(st.mem, st.pcs[r := Finished])
  {
  }

  /** One that reaches its select before either has happened blocks there. */
  lemma LiveParks(st: State, r: Agent)
    requires r in st.pcs && st.pcs[r].Starting? && IsLive(st.mem, r)
    ensures Enabled(st, Event(r, Advance))
    ensures Apply(st, Event(r, Advance)) == State(st.mem, st.pcs[r := Parked])
  {
  }

  lemma SoloForgetting(st: State, r: Agent) returns (es: seq<Event>)
    requires r in st.pcs && st.pcs[r].Forgetting?
    ensures IsRun(SYSTEM, st, es) && NoReset(es)
    ensures After(SYSTEM, st, es) == State(st.mem.(fails := 0, mu := None), st.pcs[r := Finished])
  {
    var st1 := Apply(st, Event(r, Advance));
    var st2 := Apply(st1, Event(r, Advance));
    assert st2.pcs == st.pcs[r := Finished];
    es := SoloStep(st1, r, Advance, []);
    es := SoloStep(st, r, Advance, es);
  }

  lemma SoloWaking(st: State, r: Agent) returns (es: seq<Event>)
    requires r in st.pcs && st.pcs[r].Waking?
    ensures IsRun(SYSTEM, st, es) && NoReset(es)
    ensures After(SYSTEM, st, es) == State(st.mem.(health := Alive, fails := 0, mu := None), st.pcs[r := Finished])
  {
    var st1 := Apply(st, Event(r, Advance));
    es := SoloForgetting(st1, r);
    assert st1.pcs[r := Finished] == st.pcs[r := Finished];
    es := SoloStep(st, r, Advance, es);
  }

  /** A recovery about to test the state under mu: it wakes the endpoint or leaves it, and ends. */
  lemma SoloVerdict(st: State, r: Agent) returns (es: seq<Event>)
    requires r in st.pcs && st.pcs[r].Testing?
    ensures IsRun(SYSTEM, st, es) && NoReset(es)
    ensures After(SYSTEM, st, es)
            == State(WithVitals(st.mem, VitalsOf(st.mem).Recovered()).(mu := None), st.pcs[r := Finished])
  {
    var st1 := Apply(st, Event(r, Advance));
    if st.mem.health == InCooldown {
      es := SoloWaking(st1, r);
    } else {
      es := SoloStep(st1, r, Advance, []);
    }
    assert st1.pcs[r := Finished] == st.pcs[r := Finished];
    es := SoloStep(st, r, Advance, es);
  }

  /** A recovery from its timer to its end. */
  lemma SoloRecovery(st: State, r: Agent) returns (es: seq<Event>)
    requires r in st.pcs && (st.pcs[r].Starting? || (st.pcs[r].Parked? && IsLive(st.mem, r))) && st.mem.mu == None
    ensures IsRun(SYSTEM, st, es) && NoReset(es)
    ensures After(SYSTEM, st, es) == State(WithVitals(st.mem, VitalsOf(st.mem).Recovered()), st.pcs[r := Finished])
  {
    var st1 := Apply(st, Event(r, TimerFires));
    var st2 := Apply(st1, Event(r, Advance));
    es := SoloVerdict(st2, r);
    assert st2.pcs[r := Finished] == st.pcs[r := Finished];
    es := SoloStep(st1, r, Advance, es);
    es := SoloStep(st, r, TimerFires, es);
  }

  /** MarkEndpointDead. */
  lemma SoloRetire(st: State, a: Agent) returns (es: seq<Event>)
    requires a in st.pcs && st.pcs[a] == Idle
    ensures IsRun(SYSTEM, st, es) && NoReset(es)
    ensures After(SYSTEM, st, es) == State(WithVitals(st.mem, VitalsOf(st.mem).Retired()), st.pcs)
  {
    var st1 := Apply(st, Event(a, CallRetire));
    var st2 := Apply(st1, Event(a, Advance));
    assert st2.pcs == st.pcs;
    es := SoloStep(st1, a, Advance, []);
    es := SoloStep(st, a, CallRetire, es);
  }

  lemma SoloClearing(st: State, a: Agent) returns (es: seq<Event>)
    requires a in st.pcs && st.pcs[a].RstFails?
    ensures IsRun(SYSTEM, st, es)
    ensures After(SYSTEM, st, es) == State(st.mem.(fails := 0, tier := 0), st.pcs[a := Idle])
  {
    var st1 := Apply(st, Event(a, Advance));
    var st2 := Apply(st1, Event(a, Advance));
    assert st2.pcs == st.pcs[a := Idle];
    es := SoloStep(st1, a, Advance, []);
    es := SoloStep(st, a, Advance, es);
  }

  /** ResetEndpoint. */
  lemma SoloReset(st: State, a: Agent) returns (es: seq<Event>)
    requires a in st.pcs && st.pcs[a] == Idle
    ensures IsRun(SYSTEM, st, es)
    ensures After(SYSTEM, st, es) == State(WithVitals(st.mem, FRESH), st.pcs)
  {
    var st1 := Apply(st, Event(a, CallReset));
    var st2 := Apply(st1, Event(a, Advance));
    es := SoloClearing(st2, a);
    assert st2.pcs[a := Idle] == st.pcs;
    es := SoloStep(st1, a, Advance, es);
    es := SoloStep(st, a, CallReset, es);
  }

  /** The memory after a Close has cancelled the recovery that the handle names. */
  function CutOff(m: Memory): Memory {
    if m.handle.Some? && m.handle.value < |m.contexts|
    then m.(contexts := m.contexts[m.handle.value := ByClose], handle := None)
    else m
  }

  lemma SoloCut(st: State, c: Agent) returns (es: seq<Event>)
    requires c in st.pcs && st.pcs[c].ClsCancel?
    ensures IsRun(SYSTEM, st, es) && NoCalls(es) && [Event(c, Advance)] <= es
    ensures After(SYSTEM, st, es) == State(CutOff(st.mem).(mu := None), st.pcs[c := Idle])
  {
    var st1 := Apply(st, Event(c, Advance));
    var st2 := Apply(st1, Event(c, Advance));
    assert st2.pcs == st.pcs[c := Idle];
    es := SoloStep(st1, c, Advance, []);
    es := SoloStep(st, c, Advance, es);
  }

  /** A Close up to the moment it cancels. */
  lemma SoloEnter(st: State, c: Agent) returns (es: seq<Event>)
    requires c in st.pcs && st.pcs[c] == Idle && !st.mem.closing && st.mem.mu == None
    ensures IsRun(SYSTEM, st, es)
    ensures After(SYSTEM, st, es) == State(st.mem.(closing := true, mu := Some(c)), st.pcs[c := ClsCancel])
  {
    var st1 := Apply(st, Event(c, CallClose));
    var st2 := Apply(st1, Event(c, Advance));
    assert st2.pcs == st.pcs[c := ClsCancel];
    es := SoloStep(st1, c, Advance, []);
    es := SoloStep(st, c, CallClose, es);
  }

  /** What Close does to the health of an endpoint: the recovery the handle names will not wake it any more. */
  lemma SoloClose(st: State, c: Agent) returns (es: seq<Event>)
    requires c in st.pcs && st.pcs[c] == Idle && !st.mem.closing && st.mem.mu == None
    ensures IsRun(SYSTEM, st, es)
    ensures After(SYSTEM, st, es) == State(CutOff(st.mem).(closing := true), st.pcs)
  {
    var first := SoloEnter(st, c);
    var mid := After(SYSTEM, st, first);
    var second := SoloCut(mid, c);
    Concat(SYSTEM, st, first, second);
    assert mid.pcs[c := Idle] == st.pcs;
    es := first + second;
  }

  /** An attempt, or a probe, that finds the endpoint alive. */
  lemma SoloAdmission(st: State, a: Agent, kind: Kind) returns (es: seq<Event>)
    requires a in st.pcs && st.pcs[a] == Idle && st.mem.health == Alive
    ensures IsRun(SYSTEM, st, es) && NoReset(es)
    ensures After(SYSTEM, st, es) == State(st.mem, st.pcs[a := InFlight(kind)])
  {
    var call := if kind == Request then CallRequest else CallProbe;
    var st1 := Apply(st, Event(a, call));
    var st2 := Apply(st1, Event(a, Advance));
    assert st2.pcs == st.pcs[a := InFlight(kind)];
    es := SoloStep(st1, a, Advance, []);
    es := SoloStep(st, a, call, es);
  }
}
