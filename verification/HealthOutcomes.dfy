/**
  Where runs of the health protocol can lead: a cooldown can always be waited out; that it ends early, and that a
  retirement is final, holds each under exactly one condition.
*/
module HealthOutcomes {
  import opened Basics
  import opened Runs
  import opened HealthProtocol
  import opened HealthCalls
  import opened Vitals

  // ---------------------------------------------------------------------------
  // Recovery

  /** How many steps take a recovery to waking the endpoint; none do once it is parked and its context may end. */
  function StepsToWake(pc: Pc): nat {
    match pc
    case Starting => 4
    case WantLock => 3
    case Testing => 2
    case Waking => 1
    case _ => 0
  }

  /**
    A recovery that has or can get mu brings an endpoint out of cooldown by itself, newest or not, cancelled
    or not.
  */
  lemma {:induction false} RecoveryWakes(st: State, r: Agent) returns (es: seq<Event>)
    requires r in st.pcs && st.mem.health == InCooldown
    requires st.mem.mu == (if st.pcs[r].Testing? || st.pcs[r].Waking? then Some(r) else None)
    requires StepsToWake(st.pcs[r]) > 0
    ensures IsRun(SYSTEM, st, es) && |es| == StepsToWake(st.pcs[r])
    ensures forall i :: 0 <= i < |es| ==> es[i].a == r && (es[i].act.Advance? || es[i].act.TimerFires?)
    ensures After(SYSTEM, st, es).mem == st.mem.(health := Alive, mu := Some(r))
    ensures After(SYSTEM, st, es).pcs == st.pcs[r := Forgetting]
    decreases StepsToWake(st.pcs[r])
  {
    var e := Event(r, if st.pcs[r].Starting? then TimerFires else Advance);
    var st' := Apply(st, e);
    var rest := [];
    if StepsToWake(st.pcs[r]) > 1 {
      rest := RecoveryWakes(st', r);
      assert st'.pcs[r := Forgetting] == st.pcs[r := Forgetting];
    }
    Cons(SYSTEM, st, e, rest);
    es := [e] + rest;
  }

  /** One that is parked wakes the endpoint too, as long as it has not been cancelled. */
  lemma LiveRecoveryWakes(st: State, r: Agent) returns (es: seq<Event>)
    requires r in st.pcs && st.mem.health == InCooldown && st.mem.mu == None && !Critical(st.pcs[r])
    requires StepsToWake(st.pcs[r]) > 0 || (st.pcs[r].Parked? && IsLive(st.mem, r))
    ensures IsRun(SYSTEM, st, es) && After(SYSTEM, st, es).mem.health == Alive
    ensures forall i :: 0 <= i < |es| ==> es[i].a == r
  {
    if st.pcs[r].Parked? {
      es := RecoveryWakes(Apply(st, Event(r, TimerFires)), r);
      es := SoloStep(st, r, TimerFires, es);
    } else {
      es := RecoveryWakes(st, r);
    }
  }

  /** The first n steps are those of the holder of mu, all others those of the recovery that is then the newest. */
  ghost predicate HolderThenNewest(st: State, es: seq<Event>, n: nat) {
    && n <= |es| && IsRun(SYSTEM, st, es[..n])
    && (forall i :: 0 <= i < n ==> st.mem.mu == Some(es[i].a))
    && (n < |es| ==> After(SYSTEM, st, es[..n]).mem.contexts != [])
    && (forall i :: n <= i < |es| ==> es[i].a == Newest(After(SYSTEM, st, es[..n]).mem))
  }

  /**
    Until Close is called, an endpoint in cooldown can be brought back without any further call: the
    holder of mu, if any, and then the newest recovery are all it takes.
  */
  lemma CooldownEnds(st: State) returns (es: seq<Event>, n: nat)
    requires Inv(st) && st.mem.health == InCooldown && !st.mem.closing
    ensures IsRun(SYSTEM, st, es) && After(SYSTEM, st, es).mem.health == Alive
    ensures HolderThenNewest(st, es, n)
  {
    var first := LetGo(st);
    var mid := After(SYSTEM, st, first);
    n := |first|;
    if mid.mem.health == Alive {
      es := first;
      assert es[..n] == first;
    } else {
      assert mid.mem.contexts[|mid.mem.contexts| - 1] in mid.mem.contexts;
      assert !Critical(mid.pcs[Newest(mid.mem)]);
      var second := LiveRecoveryWakes(mid, Newest(mid.mem));
      Concat(SYSTEM, st, first, second);
      es := first + second;
      assert es[..n] == first;
    }
  }

  /** The holder of mu, if there is one, unlocks it; it does not retire the endpoint. */
  lemma LetGo(st: State) returns (es: seq<Event>)
    requires Inv(st) && st.mem.health != Dead
    ensures IsRun(SYSTEM, st, es) && Inv(After(SYSTEM, st, es))
    ensures forall i :: 0 <= i < |es| ==> st.mem.mu == Some(es[i].a) && es[i].act == Advance
    ensures var end := After(SYSTEM, st, es);
            && end.mem.mu == None && end.mem.health != Dead && end.mem.closing == st.mem.closing
            && forall a :: a in st.pcs && st.mem.mu != Some(a) ==> a in end.pcs && end.pcs[a] == st.pcs[a]
  {
    es := [];
    if st.mem.mu.Some? {
      es := HolderFinishes(st, st.mem.mu.value);
      RunHealth(st, es, st.mem.mu.value);
    }
    RunInv(st, es);
  }

  lemma HolderSpares(st: State, a: Agent)
    requires a in st.pcs && Critical(st.pcs[a]) && Enabled(st, Event(a, Advance)) && st.mem.health != Dead
    ensures Apply(st, Event(a, Advance)).mem.health != Dead
  {
  }

  /** The steps of a holder of mu leave the endpoint alive or in cooldown if they find it so. */
  lemma {:induction false} RunHealth(st: State, es: seq<Event>, a: Agent)
    requires IsRun(SYSTEM, st, es) && (forall i :: 0 <= i < |es| ==> es[i] == Event(a, Advance))
    requires Inv(st) && st.mem.health != Dead
    requires es != [] ==> st.mem.mu == Some(a) && |es| <= StepsToUnlock(st.mem, st.pcs[a])
    ensures After(SYSTEM, st, es).mem.health != Dead
    decreases |es|
  {
    if es != [] {
      HolderStep(st, a);
      HolderSpares(st, a);
      StepInv(st, es[0]);
      var st' := Apply(st, es[0]);
      assert Recovery(|st.mem.contexts|) !in st.pcs;
      RunHealth(st', es[1..], a);
    }
  }

  // ---------------------------------------------------------------------------
  // Whom the handle names

  predicate AboutToCancel(pc: Pc) {
    pc.ClsLock? || pc.ClsCancel?
  }

  /** A markFailed has cancelled the recovery before it and not started its own yet. */
  ghost predicate Replacing(m: Memory, pcs: map<Agent, Pc>) {
    m.mu.Some? && m.mu.value in pcs && (pcs[m.mu.value].MfTier? || pcs[m.mu.value].MfSpawn?)
  }

  /** At most one Close is under way, and only the recovery that the handle names can be live. */
  ghost predicate Handled(m: Memory, pcs: map<Agent, Pc>) {
    OneCloser(pcs) && OnlyNewestLive(m, pcs)
  }

  ghost predicate OneCloser(pcs: map<Agent, Pc>) {
    forall a, b :: a in pcs && b in pcs && AboutToCancel(pcs[a]) && AboutToCancel(pcs[b]) ==> a == b
  }

  ghost predicate OnlyNewestLive(m: Memory, pcs: map<Agent, Pc>) {
    forall i :: 0 <= i < |m.contexts| && m.contexts[i] == Live ==> m.handle == Some(i) && !Replacing(m, pcs)
  }

  /** How a step touches the handle and the contexts. */
  predicate CancelShape(m: Memory, before: Pc, after: Pc, op: Op) {
    && (AboutToCancel(after) ==> AboutToCancel(before) || !m.closing)
    && (op.Cancel? && op.why == ByClose ==> before.ClsCancel? && after.ClsUnlock?)
    && (op.Cancel? && op.why != ByClose ==> before.MfCancel? && after.MfTier? && op.why == Superseded)
    && (op.Spawn? <==> before.MfSpawn?) && (op.Spawn? ==> after.MfUnlock?)
    && (after.MfTier? ==> before.MfCancel? && (op.Cancel? || m.handle == None))
    && (after.MfSpawn? ==> before.MfTier?)
    && (before.ClsCancel? ==> after.ClsUnlock? && (op.Cancel? || m.handle == None))
  }

  lemma NextCancelShape(st: State, e: Event)
    requires Enabled(st, e)
    ensures CancelShape(st.mem, st.pcs[e.a], Next(st, e).0, Next(st, e).1)
  {
  }

  lemma MoveCloser(m: Memory, pcs: map<Agent, Pc>, a: Agent, pc: Pc, op: Op)
    requires a in pcs && CloseOnly(m, pcs) && OneCloser(pcs) && CancelShape(m, pcs[a], pc, op)
    ensures OneCloser(Move(m, pcs, a, pc, op))
  {
  }

  lemma MoveLive(m: Memory, pcs: map<Agent, Pc>, a: Agent, pc: Pc, op: Op)
    requires a in pcs && Agents(m, pcs) && Mutex(m, pcs) && OnlyNewestLive(m, pcs)
    requires Shape(m, pcs[a], pc, op) && CancelShape(m, pcs[a], pc, op)
    ensures OnlyNewestLive(Perform(m, a, op), Move(m, pcs, a, pc, op))
  {
  }

  lemma StepHandled(st: State, e: Event)
    requires Inv(st) && Handled(st.mem, st.pcs) && Enabled(st, e)
    ensures Handled(Apply(st, e).mem, Apply(st, e).pcs)
  {
    NextShape(st, e);
    NextCancelShape(st, e);
    var (pc, op) := Next(st, e);
    MoveCloser(st.mem, st.pcs, e.a, pc, op);
    MoveLive(st.mem, st.pcs, e.a, pc, op);
  }

  lemma {:induction false} RunHandled(st: State, es: seq<Event>)
    requires Inv(st) && Handled(st.mem, st.pcs) && IsRun(SYSTEM, st, es)
    ensures Handled(After(SYSTEM, st, es).mem, After(SYSTEM, st, es).pcs)
    decreases |es|
  {
    if es != [] {
      StepInv(st, es[0]);
      StepHandled(st, es[0]);
      RunHandled(Apply(st, es[0]), es[1..]);
    }
  }

  lemma ReachableHandled(st: State)
    requires Reachable(st)
    ensures Handled(st.mem, st.pcs)
  {
    var init: State, es: seq<Event> :| Init(init) && IsRun(SYSTEM, init, es) && After(SYSTEM, init, es) == st;
    assert Inv(init);
    RunHandled(init, es);
  }

  // ---------------------------------------------------------------------------
  // When a cooldown can end before its own recovery

  /** No reset is called, and of the recoveries only those older than the newest move. */
  ghost predicate OnlyElders(st: State, es: seq<Event>)
    requires st.mem.contexts != []
  {
    NoReset(es) && forall i :: 0 <= i < |es| && es[i].a.Recovery? ==> es[i].a.id < |st.mem.contexts| - 1
  }

  /**
    An older recovery that is past its select or has not reached it, with mu not in the newest one's hands, or a
    reset already begun.
  */
  ghost predicate Hasty(st: State, newest: nat) {
    || (exists a :: a in st.pcs && st.pcs[a].RstState?)
    || (st.mem.mu != Some(Recovery(newest))
        && exists i: nat :: i < newest && Recovery(i) in st.pcs && StepsToWake(st.pcs[Recovery(i)]) > 0)
  }

  /**
    What a step does as far as waking is concerned: nobody but a reset begins to wake, and only a waker
    stores Alive.
  */
  lemma WakeShape(st: State, e: Event)
    requires Enabled(st, e)
    ensures var (pc, op) := Next(st, e);
            && (op == Store(Alive) ==> st.pcs[e.a].RstState? || (StepsToWake(st.pcs[e.a]) > 0 && Critical(st.pcs[e.a])))
            && (StepsToWake(pc) <= StepsToWake(st.pcs[e.a]) || (st.pcs[e.a].Parked? && IsLive(st.mem, e.a)))
            && (pc.RstState? ==> e.act == CallReset)
            && (StepsToWake(st.pcs[e.a]) > 0 ==> RecoveryPc(st.pcs[e.a]))
            && (op.Lock? || op.Unlock? || Perform(st.mem, e.a, op).mu == st.mem.mu)
  {
  }

  lemma PatientStep(st: State, e: Event, newest: nat)
    requires Inv(st) && Handled(st.mem, st.pcs) && Enabled(st, e) && newest < |st.mem.contexts|
    requires e.act != CallReset && (e.a.Recovery? ==> e.a.id < newest)
    requires st.mem.health != Alive && !Hasty(st, newest)
    ensures Apply(st, e).mem.health != Alive && !Hasty(Apply(st, e), newest)
    ensures newest < |Apply(st, e).mem.contexts|
  {
    WakeShape(st, e);
    NextShape(st, e);
    var (pc, op) := Next(st, e);
    assert st.pcs[e.a].Parked? ==> !IsLive(st.mem, e.a);
    PatientMove(st, e.a, pc, op, newest);
  }

  lemma PatientMove(st: State, a: Agent, pc: Pc, op: Op, newest: nat)
    requires a in st.pcs && Agents(st.mem, st.pcs) && Mutex(st.mem, st.pcs)
    requires newest < |st.mem.contexts| && (a.Recovery? ==> a.id < newest)
    requires st.mem.health != Alive && !Hasty(st, newest)
    requires Shape(st.mem, st.pcs[a], pc, op)
    requires op == Store(Alive) ==> st.pcs[a].RstState? || (StepsToWake(st.pcs[a]) > 0 && Critical(st.pcs[a]))
    requires !pc.RstState? && StepsToWake(pc) <= StepsToWake(st.pcs[a])
    requires StepsToWake(st.pcs[a]) > 0 ==> RecoveryPc(st.pcs[a])
    requires op.Lock? || op.Unlock? || Perform(st.mem, a, op).mu == st.mem.mu
    ensures var st' := State(Perform(st.mem, a, op), Move(st.mem, st.pcs, a, pc, op));
            st'.mem.health != Alive && !Hasty(st', newest) && newest < |st'.mem.contexts|
  {
    assert st.mem.mu == Some(Recovery(newest)) ==> !Critical(st.pcs[a]) && !op.Lock? && !op.Unlock?;
    assert op != Store(Alive);
    PatientPcs(st, a, pc, op, newest);
  }

  lemma PatientPcs(st: State, a: Agent, pc: Pc, op: Op, newest: nat)
    requires a in st.pcs && Agents(st.mem, st.pcs) && newest < |st.mem.contexts| && !Hasty(st, newest)
    requires !pc.RstState? && StepsToWake(pc) <= StepsToWake(st.pcs[a])
    requires st.mem.mu == Some(Recovery(newest)) ==> Perform(st.mem, a, op).mu == st.mem.mu
    ensures var st' := State(Perform(st.mem, a, op), Move(st.mem, st.pcs, a, pc, op));
            !Hasty(st', newest) && newest < |st'.mem.contexts|
  {
    var st' := State(Perform(st.mem, a, op), Move(st.mem, st.pcs, a, pc, op));
    if i: nat :| i < newest && Recovery(i) in st'.pcs && StepsToWake(st'.pcs[Recovery(i)]) > 0 {
      assert Recovery(i) in st.pcs && StepsToWake(st.pcs[Recovery(i)]) > 0;
    }
  }

  lemma {:induction false} PatientRun(st: State, es: seq<Event>, newest: nat)
    requires Inv(st) && Handled(st.mem, st.pcs)
    requires IsRun(SYSTEM, st, es) && NoReset(es) && newest < |st.mem.contexts|
    requires forall i :: 0 <= i < |es| && es[i].a.Recovery? ==> es[i].a.id < newest
    requires st.mem.health != Alive && !Hasty(st, newest)
    ensures After(SYSTEM, st, es).mem.health != Alive
    decreases |es|
  {
    if es != [] {
      StepInv(st, es[0]);
      StepHandled(st, es[0]);
      PatientStep(st, es[0], newest);
      PatientRun(Apply(st, es[0]), es[1..], newest);
    }
  }

  lemma ElderWakes(st: State, i: nat) returns (es: seq<Event>)
    requires Inv(st) && st.mem.health == InCooldown && i + 1 < |st.mem.contexts|
    requires Recovery(i) in st.pcs && StepsToWake(st.pcs[Recovery(i)]) > 0
    requires st.mem.mu != Some(Newest(st.mem))
    ensures IsRun(SYSTEM, st, es) && OnlyElders(st, es) && After(SYSTEM, st, es).mem.health == Alive
  {
    var r := Recovery(i);
    if st.mem.mu == Some(r) {
      es := RecoveryWakes(st, r);
    } else {
      es := LetGo(st);
      var second := FreeElderWakes(After(SYSTEM, st, es), r);
      Concat(SYSTEM, st, es, second);
      es := es + second;
    }
    HolderAndElder(st, i, es);
  }

  lemma HolderAndElder(st: State, i: nat, es: seq<Event>)
    requires Agents(st.mem, st.pcs) && Mutex(st.mem, st.pcs) && i + 1 < |st.mem.contexts|
    requires st.mem.mu != Some(Newest(st.mem))
    requires forall k :: 0 <= k < |es| ==>
               (es[k].a == Recovery(i) || st.mem.mu == Some(es[k].a)) && es[k].act != CallReset
    ensures OnlyElders(st, es)
  {
  }

  lemma FreeElderWakes(st: State, r: Agent) returns (es: seq<Event>)
    requires Inv(st) && st.mem.mu == None && st.mem.health != Dead && r in st.pcs && StepsToWake(st.pcs[r]) > 0
    ensures IsRun(SYSTEM, st, es) && After(SYSTEM, st, es).mem.health == Alive
    ensures forall i :: 0 <= i < |es| ==> es[i].a == r && es[i].act != CallReset
  {
    es := [];
    if st.mem.health != Alive {
      assert !Critical(st.pcs[r]);
      es := RecoveryWakes(st, r);
    }
  }

  lemma HastyWakes(st: State) returns (es: seq<Event>)
    requires Inv(st) && st.mem.health == InCooldown && st.mem.contexts != [] && Hasty(st, |st.mem.contexts| - 1)
    ensures IsRun(SYSTEM, st, es) && OnlyElders(st, es) && After(SYSTEM, st, es).mem.health == Alive
  {
    if a :| a in st.pcs && st.pcs[a].RstState? {
      es := SoloStep(st, a, Advance, []);
    } else {
      var i: nat :| i + 1 < |st.mem.contexts| && Recovery(i) in st.pcs && StepsToWake(st.pcs[Recovery(i)]) > 0;
      es := ElderWakes(st, i);
    }
  }

  /**
    The source means a superseded recovery not to recover. Without the newest recovery and without a new reset,
    a cooldown can end exactly when an older recovery is past its select or has not reached it and the newest
    does not hold mu, or when a reset has already begun.
  */
  lemma EndsEarlyIff(st: State)
    requires Reachable(st) && st.mem.health == InCooldown && st.mem.contexts != []
    ensures (exists es :: IsRun(SYSTEM, st, es) && OnlyElders(st, es) && After(SYSTEM, st, es).mem.health == Alive)
            <==> Hasty(st, |st.mem.contexts| - 1)
  {
    ReachableInv(st);
    ReachableHandled(st);
    var newest := |st.mem.contexts| - 1;
    if Hasty(st, newest) {
      var es := HastyWakes(st);
    } else {
      forall es | IsRun(SYSTEM, st, es) && OnlyElders(st, es) ensures After(SYSTEM, st, es).mem.health != Alive {
        PatientRun(st, es, newest);
      }
    }
  }

  // ---------------------------------------------------------------------------
  // Retirement

  /** May still count one more failure; one at its availability check only if the endpoint is open to it. */
  predicate MayCount(pc: Pc, open: bool) {
    pc.InFlight? || pc.Counting? || (open && pc.Checking?)
  }

  function Pending(pcs: map<Agent, Pc>, open: bool): set<Agent> {
    set a | a in pcs && MayCount(pcs[a], open)
  }

  /** Failures still to be read can add up to the threshold. */
  ghost predicate MayFail(m: Memory, pcs: map<Agent, Pc>, open: bool) {
    && (exists a :: a in pcs && (pcs[a].Reading? || MayCount(pcs[a], open)))
    && m.fails + |Pending(pcs, open)| >= m.threshold
  }

  lemma PendingUpdate(pcs: map<Agent, Pc>, a: Agent, pc: Pc, open: bool)
    requires a in pcs
    ensures |Pending(pcs[a := pc], open)| == |Pending(pcs, open)|
              + (if MayCount(pc, open) then 1 else 0)
              - (if MayCount(pcs[a], open) then 1 else 0)
  {
    var p, p' := Pending(pcs, open), Pending(pcs[a := pc], open);
    assert p' - {a} == p - {a};
    assert a in p ==> |p| == |p - {a}| + 1;
    assert a in p' ==> |p'| == |p' - {a}| + 1;
    assert a !in p ==> p - {a} == p;
    assert a !in p' ==> p' - {a} == p';
  }

  /** How a step touches the failures counted and to be counted. */
  predicate FailShape(m: Memory, before: Pc, after: Pc, op: Op, open: bool) {
    && (MayCount(after, open) ==> MayCount(before, open))
    && (after.Reading? ==> before.Counting? && op.IncFails?)
    && (op.IncFails? ==> before.Counting? && after.Reading?)
    && (op.Spawn? ==> after.MfUnlock?)
  }

  lemma NextFailShape(st: State, e: Event, open: bool)
    requires Enabled(st, e) && (st.mem.health == Alive ==> open)
    requires open ==> !e.act.CallRequest? && !e.act.CallProbe?
    ensures FailShape(st.mem, st.pcs[e.a], Next(st, e).0, Next(st, e).1, open)
  {
  }

  lemma MovePending(m: Memory, pcs: map<Agent, Pc>, a: Agent, pc: Pc, op: Op, open: bool)
    requires a in pcs && Recovery(|m.contexts|) !in pcs && FailShape(m, pcs[a], pc, op, open)
    requires !MayFail(m, pcs, open)
    ensures !MayFail(Perform(m, a, op), Move(m, pcs, a, pc, op), open)
  {
    var pcs' := Move(m, pcs, a, pc, op);
    PendingUpdate(pcs, a, pc, open);
    assert Pending(pcs', open) == Pending(pcs[a := pc], open);
    if b :| b in pcs' && (pcs'[b].Reading? || MayCount(pcs'[b], open)) {
      assert if b == a then MayCount(pcs[a], open) else b in pcs && pcs'[b] == pcs[b];
    }
  }

  /**
    The failures that attempts already admitted, or still admissible, can add up to do not come to reach the
    threshold later.
  */
  lemma StepPending(st: State, e: Event, open: bool)
    requires Inv(st) && Enabled(st, e) && (st.mem.health == Alive ==> open)
    requires open ==> !e.act.CallRequest? && !e.act.CallProbe?
    requires !MayFail(st.mem, st.pcs, open)
    ensures !MayFail(Apply(st, e).mem, Apply(st, e).pcs, open)
  {
    NextFailShape(st, e, open);
    var (pc, op) := Next(st, e);
    MovePending(st.mem, st.pcs, e.a, pc, op, open);
  }

  /**
    About to overwrite the state: a recovery past its test, a markFailed on its way to the store, a reset
    already begun.
  */
  predicate Writer(pc: Pc) {
    pc.Waking? || pc.MfLock? || pc.MfSet? || pc.RstState?
  }

  ghost predicate Restless(st: State) {
    (exists a :: a in st.pcs && Writer(st.pcs[a])) || MayFail(st.mem, st.pcs, false)
  }

  /** Nobody becomes a writer but a reader of the threshold, a recovery that finds a cooldown, and a reset. */
  lemma CalmShape(st: State, e: Event)
    requires Enabled(st, e) && !Writer(st.pcs[e.a]) && e.act != CallReset && st.mem.health == Dead
    requires st.pcs[e.a].Reading? ==> st.mem.fails < st.mem.threshold
    ensures !Writer(Next(st, e).0) && Perform(st.mem, e.a, Next(st, e).1).health == Dead
  {
  }

  lemma CalmStep(st: State, e: Event)
    requires Inv(st) && st.mem.health == Dead && !Restless(st) && Enabled(st, e) && e.act != CallReset
    ensures Apply(st, e).mem.health == Dead && !Restless(Apply(st, e))
  {
    assert !Writer(st.pcs[e.a]);
    CalmShape(st, e);
    StepPending(st, e, false);
    var (pc, op) := Next(st, e);
    assert Apply(st, e).pcs == Move(st.mem, st.pcs, e.a, pc, op);
  }

  lemma {:induction false} CalmRun(st: State, es: seq<Event>)
    requires Inv(st) && st.mem.health == Dead && !Restless(st) && IsRun(SYSTEM, st, es) && NoReset(es)
    ensures After(SYSTEM, st, es).mem.health == Dead
    decreases |es|
  {
    if es != [] {
      StepInv(st, es[0]);
      CalmStep(st, es[0]);
      CalmRun(Apply(st, es[0]), es[1..]);
    }
  }

  /** A markFailed that waits for mu can end a retirement; its recovery is then live. */
  lemma LockRevives(st: State, a: Agent) returns (es: seq<Event>)
    requires Inv(st) && a in st.pcs && st.pcs[a].MfLock?
    ensures IsRun(SYSTEM, st, es) && NoCalls(es)
    ensures After(SYSTEM, st, es).mem.health == InCooldown && Live in After(SYSTEM, st, es).mem.contexts
  {
    var first := [];
    if st.mem.mu.Some? {
      first := HolderFinishes(st, st.mem.mu.value);
      assert !Critical(st.pcs[a]);
    }
    var second := SoloMarkFailed(After(SYSTEM, st, first), a);
    Concat(SYSTEM, st, first, second);
    es := first + second;
    var m := After(SYSTEM, st, es).mem;
    assert m.contexts[|m.contexts| - 1] == Live;
  }

  /** One that may still count a failure does. */
  lemma PendingCounts(st: State, a: Agent, open: bool) returns (es: seq<Event>)
    requires a in Pending(st.pcs, open) && (open ==> st.mem.health == Alive)
    ensures IsRun(SYSTEM, st, es) && NoCalls(es)
    ensures After(SYSTEM, st, es) == State(st.mem.(fails := st.mem.fails + 1), st.pcs[a := Reading])
  {
    if st.pcs[a].Counting? {
      es := SoloStep(st, a, Advance, []);
    } else if st.pcs[a].InFlight? {
      es := InFlightCounts(st, a);
    } else {
      var st' := Apply(st, Event(a, Advance));
      es := InFlightCounts(st', a);
      assert st'.pcs[a := Reading] == st.pcs[a := Reading];
      es := SoloStep(st, a, Advance, es);
    }
  }

  /** Pending failures that can add up to the threshold can all come in, and one goroutine reads the sum. */
  lemma {:induction false} FailuresAddUp(st: State, open: bool) returns (es: seq<Event>, a: Agent)
    requires MayFail(st.mem, st.pcs, open) && (open ==> st.mem.health == Alive)
    ensures IsRun(SYSTEM, st, es) && NoCalls(es)
    ensures var end := After(SYSTEM, st, es);
            && end.mem == st.mem.(fails := end.mem.fails) && end.pcs.Keys == st.pcs.Keys
            && a in end.pcs && end.pcs[a].MfLock?
    decreases |Pending(st.pcs, open)|
  {
    if b :| b in st.pcs && st.pcs[b].Reading? && st.mem.fails >= st.mem.threshold {
      es := SoloStep(st, b, Advance, []);
      a := b;
    } else {
      var b :| b in st.pcs && (st.pcs[b].Reading? || MayCount(st.pcs[b], open));
      assert Pending(st.pcs, open) == {} ==> st.pcs[b].Reading? by {
        assert b in Pending(st.pcs, open) || st.pcs[b].Reading?;
      }
      var next :| next in Pending(st.pcs, open);
      var first := PendingCounts(st, next, open);
      PendingUpdate(st.pcs, next, Reading, open);
      var mid := After(SYSTEM, st, first);
      assert next in mid.pcs && mid.pcs[next].Reading?;
      var second;
      second, a := FailuresAddUp(mid, open);
      Concat(SYSTEM, st, first, second);
      es := first + second;
    }
  }

  lemma FailuresRevive(st: State) returns (es: seq<Event>)
    requires Inv(st) && MayFail(st.mem, st.pcs, false)
    ensures IsRun(SYSTEM, st, es) && NoReset(es) && After(SYSTEM, st, es).mem.health == InCooldown
  {
    var first, a := FailuresAddUp(st, false);
    RunInv(st, first);
    var second := LockRevives(After(SYSTEM, st, first), a);
    Concat(SYSTEM, st, first, second);
    es := first + second;
  }

  lemma RestlessRevives(st: State) returns (es: seq<Event>)
    requires Inv(st) && Restless(st)
    ensures IsRun(SYSTEM, st, es) && NoReset(es) && After(SYSTEM, st, es).mem.health != Dead
  {
    if a :| a in st.pcs && Writer(st.pcs[a]) {
      if st.pcs[a].MfLock? {
        es := LockRevives(st, a);
      } else {
        Cons(SYSTEM, st, Event(a, Advance), []);
        es := [Event(a, Advance)] + [];
      }
    } else {
      es := FailuresRevive(st);
    }
  }

  /**
    MarkEndpointDead is documented as permanent until ResetEndpoint. The code keeps that promise exactly
    when nothing past its availability check can still write the state or count up to the threshold.
  */
  lemma DeadIsFinalIff(st: State)
    requires Reachable(st) && st.mem.health == Dead
    ensures (forall es :: IsRun(SYSTEM, st, es) && NoReset(es) ==> After(SYSTEM, st, es).mem.health == Dead)
            <==> !Restless(st)
  {
    ReachableInv(st);
    if Restless(st) {
      var es := RestlessRevives(st);
    } else {
      forall es | IsRun(SYSTEM, st, es) && NoReset(es) ensures After(SYSTEM, st, es).mem.health == Dead {
        CalmRun(st, es);
      }
    }
  }

  /** In particular when no attempt or probe is in flight and no recovery or reset is between its test and its store. */
  lemma DeadIsFinalWhenQuiet(st: State, es: seq<Event>)
    requires Reachable(st) && st.mem.health == Dead && IsRun(SYSTEM, st, es) && NoReset(es)
    requires forall a :: a in st.pcs ==>
               st.pcs[a].Idle? || st.pcs[a].Checking? || (RecoveryPc(st.pcs[a]) && !st.pcs[a].Waking?)
    ensures After(SYSTEM, st, es).mem.health == Dead
  {
    DeadIsFinalIff(st);
  }

  /** One attempt through a cooldown it causes alone, up to the moment its recovery's timer has fired. */
  lemma FirstCooldown(st: State, a: Agent) returns (es: seq<Event>)
    requires a.Caller? && a in st.pcs && st.pcs[a] == InFlight(Request) && st.mem.fails + 1 >= st.mem.threshold
    requires st.mem.mu == None && st.mem.contexts == [] && st.mem.handle == None
    ensures IsRun(SYSTEM, st, es)
    ensures var m := After(SYSTEM, st, es).mem;
            m.health == InCooldown && m.mu == None && m.contexts == [Live] && m.handle == Some(0)
            && m.fails == st.mem.fails + 1 && m.threshold == st.mem.threshold
    ensures After(SYSTEM, st, es).pcs == st.pcs[a := Idle][Recovery(0) := WantLock]
  {
    var first := SoloPenalise(st, a);
    var st1 := After(SYSTEM, st, first);
    var st2 := Apply(st1, Event(Recovery(0), TimerFires));
    assert st2.pcs == st.pcs[a := Idle][Recovery(0) := WantLock];
    var last := SoloStep(st1, Recovery(0), TimerFires, []);
    Concat(SYSTEM, st, first, last);
    es := first + last;
  }

  lemma SecondCooldown(st: State, b: Agent) returns (es: seq<Event>)
    requires b.Caller? && b in st.pcs && st.pcs[b] == InFlight(Request) && st.mem.fails + 1 >= st.mem.threshold
    requires st.mem.mu == None && st.mem.contexts == [Live] && st.mem.handle == Some(0)
    requires Recovery(0) in st.pcs && st.pcs[Recovery(0)] == WantLock
    ensures IsRun(SYSTEM, st, es)
    ensures var end := After(SYSTEM, st, es);
            && end.mem.health == Alive && end.mem.contexts == [Superseded, Live]
            && Recovery(1) in end.pcs && end.pcs[Recovery(1)] == Starting
  {
    es := SoloPenalise(st, b);
    var fs := RecoveryWakes(After(SYSTEM, st, es), Recovery(0));
    Concat(SYSTEM, st, es, fs);
    es := es + fs;
  }

  /**
    The newest recovery is not the only one that can wake the endpoint: two overlapping attempts drive it
    into cooldown twice, and the first recovery, superseded but already past its timer, ends the second
    cooldown while the second recovery is still waiting.
  */
  lemma SupersededRecoveryWakes(init: State, a: Agent, b: Agent) returns (es: seq<Event>)
    requires Init(init) && init.mem.threshold == 1 && a in init.pcs && b in init.pcs && a != b
    ensures IsRun(SYSTEM, init, es)
    ensures var end := After(SYSTEM, init, es);
            && end.mem.health == Alive && end.mem.contexts == [Superseded, Live]
            && Recovery(1) in end.pcs && end.pcs[Recovery(1)] == Starting
  {
    es := SoloAdmission(init, a, Request);
    var st := After(SYSTEM, init, es);
    var fs := SoloAdmission(st, b, Request);
    Concat(SYSTEM, init, es, fs);
    es, st := es + fs, After(SYSTEM, st, fs);
    fs := FirstCooldown(st, a);
    Concat(SYSTEM, init, es, fs);
    es, st := es + fs, After(SYSTEM, st, fs);
    fs := SecondCooldown(st, b);
    Concat(SYSTEM, init, es, fs);
    es := es + fs;
  }

  /** An attempt admitted before the endpoint was retired. */
  lemma RetiredUnderway(init: State, a: Agent, b: Agent) returns (es: seq<Event>)
    requires Init(init) && a in init.pcs && b in init.pcs && a != b
    ensures IsRun(SYSTEM, init, es) && NoReset(es)
    ensures After(SYSTEM, init, es) == State(init.mem.(health := Dead), init.pcs[a := InFlight(Request)])
  {
    var admit := SoloAdmission(init, a, Request);
    var retire := SoloRetire(After(SYSTEM, init, admit), b);
    Concat(SYSTEM, init, admit, retire);
    es := admit + retire;
  }

  /** And a retirement does get undone: an attempt that was in flight puts the dead endpoint into cooldown. */
  lemma RetirementUndone(init: State, a: Agent, b: Agent) returns (es: seq<Event>, fs: seq<Event>)
    requires Init(init) && init.mem.threshold == 1 && a in init.pcs && b in init.pcs && a != b
    ensures IsRun(SYSTEM, init, es + fs) && NoReset(es + fs)
    ensures After(SYSTEM, init, es).mem.health == Dead && After(SYSTEM, init, es + fs).mem.health == InCooldown
  {
    es := RetiredUnderway(init, a, b);
    var st := After(SYSTEM, init, es);
    assert a in Pending(st.pcs, false);
    RunInv(init, es);
    fs := FailuresRevive(st);
    Concat(SYSTEM, init, es, fs);
  }
}
