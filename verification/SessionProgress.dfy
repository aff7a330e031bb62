/**
  Every operation on the session pool comes to its end: a measure that each step of an operation already begun
  lowers (endpoint.go:57-185).
*/
module SessionProgress {
  import opened Runs
  import opened SessionProtocol

  /** How much an operation has still to do, with what its session costs once it is in the channel. */
  function Rank(pc: Pc): nat {
    match pc
    case Idle => 0
    case Building => 8
    case BuildSend(_) => 12
    case AcqEntry => 12
    case AcqLimiter => 11
    case AcqLimiterFailed => 1
    case AcqSelect => 10
    case AcqTaken(_) => 9
    case AcqReject(_) => 1
    case Holding(_) => 8
    case RelLock(_) => 7
    case RelTest(_) => 6
    case RelSend(_) => 5
    case RelClose(_) => 2
    case RelUnlock => 1
    case ClsOnce => 6
    case ClsRecovery => 5
    case ClsLock => 4
    case ClsFlag => 3
    case ClsDrain => 2
    case ClsDrop(_) => 4
    case ClsUnlock => 1
  }

  ghost function Load(pcs: map<Thread, Pc>): nat {
    if pcs == map[] then 0
    else
      var t :| t in pcs;
      Load(pcs - {t}) + Rank(pcs[t])
  }

  /** What all operations under way, the sessions in the channel and those not yet made can still give rise to. */
  ghost function Measure(st: State): int {
    Load(st.pcs) + 3 * |st.mem.chan| + 5 * (st.mem.capacity - |st.mem.created|)
  }

  lemma {:induction false} LoadWithout(pcs: map<Thread, Pc>, t: Thread)
    requires t in pcs
    ensures Load(pcs) == Load(pcs - {t}) + Rank(pcs[t])
    decreases |pcs|
  {
    var u :| u in pcs && Load(pcs) == Load(pcs - {u}) + Rank(pcs[u]);
    if u != t {
      LoadWithout(pcs - {u}, t);
      LoadWithout(pcs - {t}, u);
      assert pcs - {u} - {t} == pcs - {t} - {u};
    }
  }

  lemma LoadUpdate(pcs: map<Thread, Pc>, t: Thread, pc: Pc)
    requires t in pcs
    ensures Load(pcs[t := pc]) + Rank(pcs[t]) == Load(pcs) + Rank(pc)
  {
    LoadWithout(pcs, t);
    LoadWithout(pcs[t := pc], t);
    assert pcs[t := pc] - {t} == pcs - {t};
  }

  /** What an operation on the shared memory adds to the measure. */
  function Effect(op: Op): int {
    match op
    case Make(_) => -5
    case Receive => -3
    case Send(_) => 3
    case _ => 0
  }

  lemma NextRank(st: State, e: Event)
    requires Enabled(st, e) && Continues(st, e)
    ensures Rank(Next(st, e).0) + Effect(Next(st, e).1) < Rank(st.pcs[e.t])
  {
  }

  lemma PerformEffect(m: Memory, t: Thread, op: Op)
    requires op.Receive? ==> m.chan != []
    requires op.Make? ==> op.s !in m.created
    ensures var m' := Perform(m, t, op);
            3 * |m'.chan| - 5 * |m'.created| == 3 * |m.chan| - 5 * |m.created| + Effect(op)
            && m'.capacity == m.capacity
  {
  }

  lemma StepLowers(st: State, e: Event)
    requires Inv(st) && Enabled(st, e) && Continues(st, e)
    ensures Inv(Apply(st, e)) && 0 <= Measure(Apply(st, e)) < Measure(st)
  {
    StepInv(st, e);
    var (pc, op) := Next(st, e);
    NextSharedShape(st, e);
    NextRank(st, e);
    PerformEffect(st.mem, e.t, op);
    LoadUpdate(st.pcs, e.t, pc);
  }

  /** No new acquire and no new Close. */
  ghost predicate NoCalls(es: seq<Event>) {
    forall i :: 0 <= i < |es| ==> es[i].act != CallAcquire && es[i].act != CallClose
  }

  lemma {:induction false} RunLowers(st: State, es: seq<Event>)
    requires Inv(st) && IsRun(SYSTEM, st, es) && NoCalls(es)
    ensures Inv(After(SYSTEM, st, es)) && |es| + Measure(After(SYSTEM, st, es)) <= Measure(st)
    decreases |es|
  {
    if es != [] {
      StepLowers(st, es[0]);
      RunLowers(Apply(st, es[0]), es[1..]);
    }
  }

  /** Every session is idle in an open endpoint, or has been closed once. */
  ghost predicate Settled(m: Memory) {
    forall s :: s in m.created ==>
      s in m.closes && m.closes[s] == (if m.closed then 1 else 0) && (s in m.chan <==> !m.closed)
  }

  lemma IdleIsSettled(st: State)
    requires Inv(st) && forall t :: t in st.pcs ==> st.pcs[t] == Idle
    ensures Settled(st.mem)
  {
    assert Hands(st.pcs) == map[];
    assert !st.mem.once.Running?;
  }

  /** Nothing can step but into a new call, unless a context ends. */
  ghost predicate AtRest(st: State) {
    forall e: Event :: Enabled(st, e) && Continues(st, e) ==> e.act == SelectContext
  }

  lemma ReachableAfter(st: State, es: seq<Event>)
    requires Reachable(st) && IsRun(SYSTEM, st, es)
    ensures Reachable(After(SYSTEM, st, es))
  {
    var init: State, builder: Thread, fs: seq<Event> :|
      Init(init, builder) && IsRun(SYSTEM, init, fs) && After(SYSTEM, init, fs) == st;
    Concat(SYSTEM, init, fs, es);
  }

  /**
    Operations end, whatever the interleaving. From any reachable state no more steps than the measure are taken
    without a new acquire or Close, and when none is left, context ends aside, every operation has returned and
    every session is idle in the open endpoint or closed exactly once.
  */
  lemma OperationsEnd(st: State, es: seq<Event>)
    requires Reachable(st) && IsRun(SYSTEM, st, es) && NoCalls(es)
    ensures |es| <= Measure(st)
    ensures var end := After(SYSTEM, st, es);
            AtRest(end) <==> forall t :: t in end.pcs ==> end.pcs[t] == Idle
    ensures AtRest(After(SYSTEM, st, es)) ==> Settled(After(SYSTEM, st, es).mem)
  {
    ReachableInv(st);
    RunLowers(st, es);
    ReachableAfter(st, es);
    var end := After(SYSTEM, st, es);
    if AtRest(end) {
      forall t | t in end.pcs ensures end.pcs[t] == Idle {
        if end.pcs[t] != Idle {
          NoDeadlock(end, t);
        }
      }
      IdleIsSettled(end);
    }
  }

  lemma NoCallContinues(st: State, e: Event)
    requires Enabled(st, e) && Continues(st, e)
    ensures e.act != CallAcquire && e.act != CallClose
  {
  }

  lemma ReachableStep(st: State, e: Event)
    requires Reachable(st) && Enabled(st, e)
    ensures Reachable(Apply(st, e))
  {
    Cons(SYSTEM, st, e, []);
    ReachableAfter(st, [e] + []);
  }

  lemma SomeoneSteps(st: State, t: Thread) returns (e: Event)
    requires Reachable(st) && t in st.pcs && st.pcs[t] != Idle
    ensures Enabled(st, e) && Continues(st, e) && e.act != SelectContext
  {
    NoDeadlock(st, t);
    e :| Enabled(st, e) && Continues(st, e) && e.act != SelectContext;
  }

  /** From a state in which somebody is busy, one step to a smaller one, which any run of that one may follow. */
  lemma StepOn(st: State, t: Thread) returns (e: Event, st': State)
    requires Reachable(st) && t in st.pcs && st.pcs[t] != Idle
    ensures Reachable(st') && 0 <= Measure(st') < Measure(st)
    ensures e.act != CallAcquire && e.act != CallClose && e.act != SelectContext
    ensures forall es :: IsRun(SYSTEM, st', es) ==>
              IsRun(SYSTEM, st, [e] + es) && After(SYSTEM, st, [e] + es) == After(SYSTEM, st', es)
  {
    e := SomeoneSteps(st, t);
    st' := Apply(st, e);
    ReachableInv(st);
    StepLowers(st, e);
    NoCallContinues(st, e);
    ReachableStep(st, e);
    forall es | IsRun(SYSTEM, st', es)
      ensures IsRun(SYSTEM, st, [e] + es) && After(SYSTEM, st, [e] + es) == After(SYSTEM, st', es)
    {
      Cons(SYSTEM, st, e, es);
    }
  }

  /** And any run can be taken to that point, without a new call and without any context ending. */
  lemma {:induction false} EverythingReturns(st: State) returns (es: seq<Event>)
    requires Reachable(st)
    ensures IsRun(SYSTEM, st, es) && NoCalls(es) && (forall i :: 0 <= i < |es| ==> es[i].act != SelectContext)
    ensures forall t :: t in After(SYSTEM, st, es).pcs ==> After(SYSTEM, st, es).pcs[t] == Idle
    decreases Measure(st)
  {
    es := [];
    if t :| t in st.pcs && st.pcs[t] != Idle {
      var e, st' := StepOn(st, t);
      var rest := EverythingReturns(st');
      es := [e] + rest;
    }
  }
}
