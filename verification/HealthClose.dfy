/**
  What Close stops: which recoveries can be live after it has cancelled, told from where the goroutines are at
  that moment (endpoint.go:161-170, 237-280).
*/
module HealthClose {
  import opened Basics
  import opened Runs
  import opened Vitals
  import opened HealthProtocol
  import opened HealthCalls
  import opened HealthOutcomes

  // ---------------------------------------------------------------------------
  // Only a new markFailed makes a live recovery

  /** Close has cancelled the first n recoveries and will cancel no other. */
  ghost predicate Cut(m: Memory, pcs: map<Agent, Pc>, n: nat) {
    && m.closing && (forall a :: a in pcs ==> !AboutToCancel(pcs[a]))
    && n <= |m.contexts|
    && (|m.contexts| == n ==> m.handle == None)
    && (|m.contexts| > n ==> m.handle.Some? && m.contexts[|m.contexts| - 1] != ByClose)
  }

  lemma MoveCut(m: Memory, pcs: map<Agent, Pc>, a: Agent, pc: Pc, op: Op, n: nat)
    requires a in pcs && Agents(m, pcs) && Cut(m, pcs, n) && CancelShape(m, pcs[a], pc, op)
    ensures Cut(Perform(m, a, op), Move(m, pcs, a, pc, op), n)
  {
  }

  lemma StepCut(st: State, e: Event, n: nat)
    requires Inv(st) && Cut(st.mem, st.pcs, n) && Enabled(st, e)
    ensures Cut(Apply(st, e).mem, Apply(st, e).pcs, n)
  {
    NextCancelShape(st, e);
    var (pc, op) := Next(st, e);
    MoveCut(st.mem, st.pcs, e.a, pc, op, n);
  }

  lemma {:induction false} RunCut(st: State, es: seq<Event>, n: nat)
    requires Inv(st) && Cut(st.mem, st.pcs, n) && IsRun(SYSTEM, st, es)
    ensures Cut(After(SYSTEM, st, es).mem, After(SYSTEM, st, es).pcs, n)
    decreases |es|
  {
    if es != [] {
      StepInv(st, es[0]);
      StepCut(st, es[0], n);
      RunCut(Apply(st, es[0]), es[1..], n);
    }
  }

  /**
    Close is documented to cancel any pending recovery. Afterwards a live one exists exactly when a markFailed
    has started one since, and no other markFailed is about to replace that.
  */
  lemma LiveAfterCloseIff(st: State, c: Agent, es: seq<Event>)
    requires Reachable(st) && c in st.pcs && st.pcs[c].ClsCancel?
    requires IsRun(SYSTEM, Apply(st, Event(c, Advance)), es)
    ensures var end := After(SYSTEM, Apply(st, Event(c, Advance)), es);
            Live in end.mem.contexts <==> |end.mem.contexts| > |st.mem.contexts| && !Replacing(end.mem, end.pcs)
  {
    ReachableInv(st);
    ReachableHandled(st);
    var e := Event(c, Advance);
    var cut, n := Apply(st, e), |st.mem.contexts|;
    StepInv(st, e);
    StepHandled(st, e);
    CloseCuts(st, c);
    RunInv(cut, es);
    RunHandled(cut, es);
    RunCut(cut, es, n);
    LiveIffStarted(After(SYSTEM, cut, es), n);
  }

  lemma CloseCuts(st: State, c: Agent)
    requires Inv(st) && OneCloser(st.pcs) && c in st.pcs && st.pcs[c].ClsCancel?
    ensures Enabled(st, Event(c, Advance))
    ensures var cut := Apply(st, Event(c, Advance)); Cut(cut.mem, cut.pcs, |st.mem.contexts|)
  {
    assert st.mem.closing;
  }

  lemma LiveIffStarted(end: State, n: nat)
    requires Inv(end) && Handled(end.mem, end.pcs) && Cut(end.mem, end.pcs, n)
    ensures Live in end.mem.contexts <==> |end.mem.contexts| > n && !Replacing(end.mem, end.pcs)
  {
    var m := end.mem;
    if |m.contexts| > n && !Replacing(m, end.pcs) {
      assert m.contexts[|m.contexts| - 1] == Live;
    }
  }

  // ---------------------------------------------------------------------------
  // Whether one can still come

  /** On its way to starting a recovery. */
  predicate Spawning(pc: Pc) {
    pc.MfLock? || pc.MfSet? || pc.MfCancel? || pc.MfTier? || pc.MfSpawn?
  }

  /** Alive, or about to be made so by a reset already begun or a recovery not yet stopped. */
  ghost predicate CanWake(m: Memory, pcs: map<Agent, Pc>) {
    || m.health == Alive
    || (exists a :: a in pcs && (pcs[a].RstState? || pcs[a].Waking?))
    || (m.health == InCooldown && exists a :: a in pcs && StepsToWake(pcs[a]) > 0)
  }

  /**
    A markFailed is under way, or the attempts and probes already called, those still at their availability
    check included if they may find the endpoint alive, can count up to the threshold.
  */
  ghost predicate Stirs(st: State) {
    || (exists a :: a in st.pcs && Spawning(st.pcs[a]))
    || MayFail(st.mem, st.pcs, CanWake(st.mem, st.pcs))
  }

  /** What a step does once no recovery is live and nothing stirs: it starts nothing and wakes nothing new. */
  predicate StillShape(m: Memory, before: Pc, after: Pc, op: Op) {
    && !Spawning(after) && !after.RstState? && !op.Spawn? && (op.Cancel? ==> op.why != Live)
    && (StepsToWake(after) > 0 ==> StepsToWake(before) > 0)
    && (after.Waking? ==> m.health == InCooldown && StepsToWake(before) > 0)
    && (op.Store? ==> op.h == Dead || (op.h == Alive && (before.RstState? || before.Waking?)))
  }

  lemma NextStillShape(st: State, e: Event)
    requires Enabled(st, e) && e.act != CallReset && !Spawning(st.pcs[e.a])
    requires st.pcs[e.a].Reading? ==> st.mem.fails < st.mem.threshold
    requires st.pcs[e.a].Starting? || st.pcs[e.a].Parked? ==> !IsLive(st.mem, e.a)
    ensures StillShape(st.mem, st.pcs[e.a], Next(st, e).0, Next(st, e).1)
  {
  }

  lemma MoveStill(m: Memory, pcs: map<Agent, Pc>, a: Agent, pc: Pc, op: Op)
    requires a in pcs && StillShape(m, pcs[a], pc, op) && Live !in m.contexts
    requires forall b :: b in pcs ==> !Spawning(pcs[b])
    ensures Live !in Perform(m, a, op).contexts
    ensures forall b :: b in Move(m, pcs, a, pc, op) ==> !Spawning(Move(m, pcs, a, pc, op)[b])
  {
  }

  lemma MoveCanWake(m: Memory, pcs: map<Agent, Pc>, a: Agent, pc: Pc, op: Op)
    requires a in pcs && StillShape(m, pcs[a], pc, op)
    requires CanWake(Perform(m, a, op), Move(m, pcs, a, pc, op))
    ensures CanWake(m, pcs)
  {
    var m', pcs' := Perform(m, a, op), Move(m, pcs, a, pc, op);
    if b :| b in pcs' && (pcs'[b].RstState? || pcs'[b].Waking?) {
      assert b == a || pcs[b] == pcs'[b];
    } else if m'.health == InCooldown {
      var b :| b in pcs' && StepsToWake(pcs'[b]) > 0;
      assert b in pcs && StepsToWake(pcs[b]) > 0;
    } else {
      assert m.health == Alive || op == Store(Alive);
    }
  }

  lemma FewerMayFail(m: Memory, pcs: map<Agent, Pc>, open: bool)
    requires MayFail(m, pcs, open)
    ensures MayFail(m, pcs, true)
  {
    SubsetCardinality(Pending(pcs, open), Pending(pcs, true));
    var a :| a in pcs && (pcs[a].Reading? || MayCount(pcs[a], open));
    assert pcs[a].Reading? || MayCount(pcs[a], true);
  }

  lemma StepStill(st: State, e: Event)
    requires Inv(st) && Live !in st.mem.contexts && !Stirs(st) && Enabled(st, e) && NoCalls([e])
    ensures Live !in Apply(st, e).mem.contexts && !Stirs(Apply(st, e))
  {
    assert e == [e][0];
    var open := CanWake(st.mem, st.pcs);
    var (pc, op) := Next(st, e);
    var st' := Apply(st, e);
    NextStillShape(st, e);
    MoveStill(st.mem, st.pcs, e.a, pc, op);
    StepPending(st, e, open);
    var open' := CanWake(st'.mem, st'.pcs);
    if open' {
      MoveCanWake(st.mem, st.pcs, e.a, pc, op);
    } else if MayFail(st'.mem, st'.pcs, open') {
      FewerMayFail(st'.mem, st'.pcs, open');
    }
  }

  lemma {:induction false} RunStill(st: State, es: seq<Event>)
    requires Inv(st) && Live !in st.mem.contexts && !Stirs(st) && IsRun(SYSTEM, st, es) && NoCalls(es)
    ensures Live !in After(SYSTEM, st, es).mem.contexts
    decreases |es|
  {
    if es != [] {
      StepInv(st, es[0]);
      StepStill(st, es[0]);
      RunStill(Apply(st, es[0]), es[1..]);
    }
  }

  lemma MayFailElsewhere(m: Memory, m': Memory, pcs: map<Agent, Pc>, a: Agent, pc: Pc, open: bool)
    requires a in pcs && MayFail(m, pcs, open) && m'.fails == m.fails && m'.threshold == m.threshold
    requires !MayCount(pcs[a], true) && !pcs[a].Reading? && !MayCount(pc, true)
    ensures MayFail(m', pcs[a := pc], open)
  {
    PendingUpdate(pcs, a, pc, open);
    var b :| b in pcs && (pcs[b].Reading? || MayCount(pcs[b], open));
    assert b in pcs[a := pc] && pcs[a := pc][b] == pcs[b];
  }

  lemma SleeperWakes(st: State, open: bool) returns (es: seq<Event>)
    requires Inv(st) && st.mem.mu == None && st.mem.health == InCooldown && MayFail(st.mem, st.pcs, open)
    requires exists r :: r in st.pcs && StepsToWake(st.pcs[r]) > 0
    ensures IsRun(SYSTEM, st, es) && NoCalls(es)
    ensures var end := After(SYSTEM, st, es); MayFail(end.mem, end.pcs, open) && end.mem.health == Alive
  {
    var r :| r in st.pcs && StepsToWake(st.pcs[r]) > 0;
    assert !Critical(st.pcs[r]);
    es := RecoveryWakes(st, r);
    MayFailElsewhere(st.mem, After(SYSTEM, st, es).mem, st.pcs, r, Forgetting, open);
  }

  /** An endpoint that may yet be woken is woken first. */
  lemma WakeFirst(st: State) returns (es: seq<Event>, open: bool)
    requires Inv(st) && st.mem.mu == None && MayFail(st.mem, st.pcs, CanWake(st.mem, st.pcs))
    ensures IsRun(SYSTEM, st, es) && NoCalls(es)
    ensures var end := After(SYSTEM, st, es);
            MayFail(end.mem, end.pcs, open) && (open ==> end.mem.health == Alive)
  {
    es, open := [], CanWake(st.mem, st.pcs);
    if open && st.mem.health != Alive {
      if a :| a in st.pcs && st.pcs[a].RstState? {
        es := SoloStep(st, a, Advance, []);
        MayFailElsewhere(st.mem, st.mem.(health := Alive), st.pcs, a, RstFails, open);
      } else {
        assert forall a :: a in st.pcs ==> !Critical(st.pcs[a]);
        es := SleeperWakes(st, open);
      }
    }
  }

  lemma FailuresStart(st: State, open: bool) returns (es: seq<Event>)
    requires Inv(st) && MayFail(st.mem, st.pcs, open) && (open ==> st.mem.health == Alive)
    ensures IsRun(SYSTEM, st, es) && NoCalls(es) && Live in After(SYSTEM, st, es).mem.contexts
  {
    var first, a := FailuresAddUp(st, open);
    RunInv(st, first);
    var second := LockRevives(After(SYSTEM, st, first), a);
    Concat(SYSTEM, st, first, second);
    es := first + second;
  }

  lemma StirringStarts(st: State) returns (es: seq<Event>)
    requires Inv(st) && st.mem.mu == None && Stirs(st)
    ensures IsRun(SYSTEM, st, es) && NoCalls(es) && Live in After(SYSTEM, st, es).mem.contexts
  {
    if a :| a in st.pcs && Spawning(st.pcs[a]) {
      assert !Critical(st.pcs[a]);
      es := LockRevives(st, a);
    } else {
      var first, open := WakeFirst(st);
      RunInv(st, first);
      var second := FailuresStart(After(SYSTEM, st, first), open);
      Concat(SYSTEM, st, first, second);
      es := first + second;
    }
  }

  lemma UnlockCanWake(cut: State, c: Agent)
    requires c in cut.pcs && cut.pcs[c].ClsUnlock?
    ensures CanWake(cut.mem.(mu := None), cut.pcs[c := Idle]) == CanWake(cut.mem, cut.pcs)
  {
    var pcs := cut.pcs[c := Idle];
    assert forall a :: a in cut.pcs && a != c ==> a in pcs && pcs[a] == cut.pcs[a];
  }

  /** Close's own unlock changes nothing about this. */
  lemma UnlockStirs(cut: State, c: Agent)
    requires Inv(cut) && c in cut.pcs && cut.pcs[c].ClsUnlock? && Stirs(cut)
    ensures Enabled(cut, Event(c, Advance))
    ensures Apply(cut, Event(c, Advance)) == State(cut.mem.(mu := None), cut.pcs[c := Idle])
    ensures Stirs(Apply(cut, Event(c, Advance)))
  {
    var m, pcs := cut.mem.(mu := None), cut.pcs[c := Idle];
    assert forall a :: a in cut.pcs && a != c ==> a in pcs && pcs[a] == cut.pcs[a];
    if a :| a in cut.pcs && Spawning(cut.pcs[a]) {
      assert a in pcs && Spawning(pcs[a]);
    } else {
      var open := CanWake(cut.mem, cut.pcs);
      UnlockCanWake(cut, c);
      MayFailElsewhere(cut.mem, m, cut.pcs, c, Idle, open);
    }
  }

  lemma CutStarts(cut: State, c: Agent) returns (es: seq<Event>)
    requires Inv(cut) && c in cut.pcs && cut.pcs[c].ClsUnlock? && Stirs(cut)
    ensures IsRun(SYSTEM, cut, es) && NoCalls(es) && Live in After(SYSTEM, cut, es).mem.contexts
  {
    UnlockStirs(cut, c);
    StepInv(cut, Event(c, Advance));
    es := StirringStarts(Apply(cut, Event(c, Advance)));
    es := SoloStep(cut, c, Advance, es);
  }

  lemma CutState(st: State, c: Agent)
    requires Reachable(st) && c in st.pcs && st.pcs[c].ClsCancel?
    ensures var cut := Apply(st, Event(c, Advance));
            Inv(cut) && c in cut.pcs && cut.pcs[c].ClsUnlock? && Live !in cut.mem.contexts
  {
    ReachableInv(st);
    StepInv(st, Event(c, Advance));
    LiveAfterCloseIff(st, c, []);
  }

  /**
    Close is documented to cancel any pending recovery. With no further request, probe or reset, none is live
    again in any continuation exactly when nothing stirs at the moment Close cancels.
  */
  lemma CloseIsFinalIff(st: State, c: Agent)
    requires Reachable(st) && c in st.pcs && st.pcs[c].ClsCancel?
    ensures var cut := Apply(st, Event(c, Advance));
            (forall es :: IsRun(SYSTEM, cut, es) && NoCalls(es) ==> Live !in After(SYSTEM, cut, es).mem.contexts)
            <==> !Stirs(cut)
  {
    CutState(st, c);
    var cut := Apply(st, Event(c, Advance));
    if Stirs(cut) {
      var es := CutStarts(cut, c);
    } else {
      forall es | IsRun(SYSTEM, cut, es) && NoCalls(es) ensures Live !in After(SYSTEM, cut, es).mem.contexts {
        RunStill(cut, es);
      }
    }
  }

  // ---------------------------------------------------------------------------
  // A run in which one does come

  /** An attempt that is blocked once too often and has read so. */
  lemma Condemned(st: State, a: Agent) returns (es: seq<Event>)
    requires a in st.pcs && st.pcs[a].InFlight? && st.mem.fails + 1 >= st.mem.threshold
    ensures IsRun(SYSTEM, st, es)
    ensures After(SYSTEM, st, es) == State(st.mem.(fails := st.mem.fails + 1), st.pcs[a := MfLock])
  {
    es := InFlightCounts(st, a);
    var st1 := After(SYSTEM, st, es);
    assert Apply(st1, Event(a, Advance)).pcs == st.pcs[a := MfLock];
    var last := SoloStep(st1, a, Advance, []);
    Concat(SYSTEM, st, es, last);
    es := es + last;
  }

  /** Close overtakes an attempt on its way into markFailed. */
  lemma Overtaken(init: State, a: Agent, b: Agent) returns (es: seq<Event>)
    requires Init(init) && init.mem.threshold == 1 && a in init.pcs && b in init.pcs && a != b
    ensures IsRun(SYSTEM, init, es)
    ensures After(SYSTEM, init, es)
            == State(init.mem.(fails := 1, closing := true, mu := Some(b)), init.pcs[a := MfLock][b := ClsCancel])
  {
    es := SoloAdmission(init, a, Request);
    var st := After(SYSTEM, init, es);
    var fs := Condemned(st, a);
    assert st.pcs[a := MfLock] == init.pcs[a := MfLock];
    Concat(SYSTEM, init, es, fs);
    es, st := es + fs, After(SYSTEM, st, fs);
    fs := SoloEnter(st, b);
    Concat(SYSTEM, init, es, fs);
    es := es + fs;
  }

  /**
    It does happen: an attempt that Close has overtaken on its way into markFailed starts, without any further
    call, a recovery that outlives Close.
  */
  lemma RecoveryOutlivesClose(init: State, a: Agent, b: Agent) returns (es: seq<Event>, fs: seq<Event>)
    requires Init(init) && init.mem.threshold == 1 && a in init.pcs && b in init.pcs && a != b
    ensures IsRun(SYSTEM, init, es + fs) && NoCalls(fs) && [Event(b, Advance)] <= fs
    ensures After(SYSTEM, init, es).pcs == init.pcs[a := MfLock][b := ClsCancel]
    ensures var end := After(SYSTEM, init, es + fs);
            && end.mem.contexts == [Live] && end.mem.closing && end.mem.mu == None
            && end.pcs == init.pcs[Recovery(0) := Starting]
  {
    es := Overtaken(init, a, b);
    var st := After(SYSTEM, init, es);
    fs := SoloCut(st, b);
    var st1 := After(SYSTEM, st, fs);
    assert st1.pcs == init.pcs[a := MfLock];
    var last := SoloMarkFailed(st1, a);
    assert st1.pcs[a := Idle] == init.pcs;
    Concat(SYSTEM, st, fs, last);
    Concat(SYSTEM, init, es, fs + last);
    fs := fs + last;
  }
}
