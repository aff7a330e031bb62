/**
  The session pool of one endpoint as a concurrent protocol (endpoint.go:57-185).

  Any number of threads call `acquireSession`, `releaseSession` and `Close`. Every channel operation,
  every test of `closed`, every lock operation and every `Session.Close` is one step of its own, so a
  run is an arbitrary interleaving of those steps. The thread that builds the endpoint runs
  first; the others may call only once construction has returned an endpoint.
*/
module SessionProtocol {
  import opened Basics
  import opened Runs

  type Thread = nat
  type Session = nat

  datatype Pc =
    | Idle
    // newEndpointWithFactory
    | Building
    | BuildSend(s: Session)
    // acquireSession
    | AcqEntry
    | AcqLimiter
    | AcqLimiterFailed
    | AcqSelect
    | AcqTaken(s: Session)
    | AcqReject(s: Session)
    // between a successful acquireSession and the matching releaseSession
    | Holding(s: Session)
    // releaseSession
    | RelLock(s: Session)
    | RelTest(s: Session)
    | RelSend(s: Session)
    | RelClose(s: Session)
    | RelUnlock
    // Close
    | ClsOnce
    | ClsRecovery
    | ClsLock
    | ClsFlag
    | ClsDrain
    | ClsDrop(s: Session)
    | ClsUnlock

  /** The state of `closeOnce`. */
  datatype Once = Fresh | Running(t: Thread) | Done

  /**
    What the threads share: the endpoint's fields, plus which sessions the factory made and how often each
    was closed.
  */
  datatype Memory = Memory(
    capacity: nat,
    chan: seq<Session>,
    closed: bool,
    mu: Option<Thread>,
    once: Once,
    published: bool,
    created: set<Session>,
    closes: map<Session, nat>)

  datatype State = State(mem: Memory, pcs: map<Thread, Pc>)

  /** What a thread does next; where the program counter leaves a choice, the choice made. */
  datatype Act =
    | Advance                          // the only continuation of a deterministic step
    | FactoryOk(made: Session) | FactoryErr
    | CallAcquire | CallRelease | CallClose
    | LimiterOk | LimiterErr
    | SelectClosed | SelectSession | SelectContext

  datatype Event = Event(t: Thread, act: Act)

  /** The atomic operations on the shared memory. */
  datatype Op =
    | Local
    | Make(s: Session)
    | Publish
    | Receive
    | Send(s: Session)
    | CloseSession(s: Session)
    | Lock
    | Unlock
    | StartOnce
    | SetClosed
    | FinishOnce

  predicate Init(st: State, builder: Thread) {
    && st.mem.chan == [] && !st.mem.closed && st.mem.mu == None && st.mem.once == Fresh
    && !st.mem.published && st.mem.created == {} && st.mem.closes == map[]
    && 0 < st.mem.capacity
    && builder in st.pcs && st.pcs[builder] == Building
    && forall t :: t in st.pcs && t != builder ==> st.pcs[t] == Idle
  }

  predicate Enabled(st: State, e: Event) {
    e.t in st.pcs &&
    match st.pcs[e.t]
    case Idle =>
      // callers have the endpoint only after newEndpointWithFactory returned it
      st.mem.published && (e.act == CallAcquire || e.act == CallClose)
    case Building =>
      if |st.mem.chan| == st.mem.capacity then e.act == Advance
      else e.act == FactoryErr || (e.act.FactoryOk? && e.act.made !in st.mem.created)
    case BuildSend(_) => e.act == Advance && |st.mem.chan| < st.mem.capacity
    case AcqLimiter => e.act == LimiterOk || e.act == LimiterErr
    case AcqSelect =>
      || (e.act == SelectClosed && st.mem.closed)
      || (e.act == SelectSession && st.mem.chan != [])
      || e.act == SelectContext
    case Holding(_) => e.act == CallRelease
    case RelLock(_) => e.act == Advance && st.mem.mu == None
    // Once.Do makes later callers wait for the first
    case ClsOnce => e.act == Advance && !st.mem.once.Running?
    case ClsLock => e.act == Advance && st.mem.mu == None
    case _ => e.act == Advance
  }

  /** Where the acting thread goes and the one shared operation it performs on the way. */
  function Next(st: State, e: Event): (Pc, Op)
    requires Enabled(st, e)
  {
    match st.pcs[e.t]
    case Idle => (if e.act == CallAcquire then AcqEntry else ClsOnce, Local)
    case Building =>
      if e.act == Advance then (Idle, Publish)
      else if e.act == FactoryErr then (ClsOnce, Local)
      else (BuildSend(e.act.made), Make(e.act.made))
    case BuildSend(s) => (Building, Send(s))
    case AcqEntry => (if st.mem.closed then Idle else AcqLimiter, Local)
    case AcqLimiter => (if e.act == LimiterOk then AcqSelect else AcqLimiterFailed, Local)
    case AcqLimiterFailed => (Idle, Local)
    case AcqSelect => if e.act == SelectSession then (AcqTaken(st.mem.chan[0]), Receive) else (Idle, Local)
    case AcqTaken(s) => (if st.mem.closed then AcqReject(s) else Holding(s), Local)
    case AcqReject(s) => (Idle, CloseSession(s))
    case Holding(s) => (RelLock(s), Local)
    case RelLock(s) => (RelTest(s), Lock)
    case RelTest(s) => (if st.mem.closed then RelClose(s) else RelSend(s), Local)
    case RelSend(s) => if |st.mem.chan| < st.mem.capacity then (RelUnlock, Send(s)) else (RelClose(s), Local)
    case RelClose(s) => (RelUnlock, CloseSession(s))
    case RelUnlock => (Idle, Unlock)
    case ClsOnce => if st.mem.once.Fresh? then (ClsRecovery, StartOnce) else (Idle, Local)
    case ClsRecovery => (ClsLock, Local)
    case ClsLock => (ClsFlag, Lock)
    case ClsFlag => (ClsDrain, SetClosed)
    case ClsDrain => if st.mem.chan == [] then (ClsUnlock, Local) else (ClsDrop(st.mem.chan[0]), Receive)
    case ClsDrop(s) => (ClsDrain, CloseSession(s))
    case ClsUnlock => (Idle, FinishOnce)
  }

  function Perform(m: Memory, t: Thread, op: Op): Memory
    requires op.Receive? ==> m.chan != []
  {
    match op
    case Local => m
    case Make(s) => m.(created := m.created + {s}, closes := m.closes[s := 0])
    case Publish => m.(published := true)
    case Receive => m.(chan := m.chan[1..])
    case Send(s) => m.(chan := m.chan + [s])
    case CloseSession(s) => m.(closes := m.closes[s := (if s in m.closes then m.closes[s] else 0) + 1])
    case Lock => m.(mu := Some(t))
    case Unlock => m.(mu := None)
    case StartOnce => m.(once := Running(t))
    case SetClosed => m.(closed := true)
    case FinishOnce => m.(mu := None, once := Done)
  }

  function Apply(st: State, e: Event): State {
    if Enabled(st, e) then
      var (pc, op) := Next(st, e);
      State(Perform(st.mem, e.t, op), st.pcs[e.t := pc])
    else
      st
  }

  const SYSTEM: System<State, Event> := System(Enabled, Apply)

  // ---------------------------------------------------------------------------
  // Where a session can be

  function Carried(pc: Pc): Option<Session> {
    match pc
    case BuildSend(s) => Some(s)
    case AcqTaken(s) => Some(s)
    case AcqReject(s) => Some(s)
    case Holding(s) => Some(s)
    case RelLock(s) => Some(s)
    case RelTest(s) => Some(s)
    case RelSend(s) => Some(s)
    case RelClose(s) => Some(s)
    case ClsDrop(s) => Some(s)
    case _ => None
  }

  /** The sessions threads have in hand, by thread. */
  function Hands(pcs: map<Thread, Pc>): map<Thread, Session> {
    map t | t in pcs && Carried(pcs[t]).Some? :: Carried(pcs[t]).value
  }

  lemma HandsUpdate(pcs: map<Thread, Pc>, t: Thread, pc: Pc)
    ensures Hands(pcs[t := pc]) ==
            match Carried(pc) case Some(s) => Hands(pcs)[t := s] case None => Hands(pcs) - {t}
  {
  }

  // ---------------------------------------------------------------------------
  // Ownership: the channel, the hands and the closed sessions partition what was created

  ghost predicate Owned(m: Memory, hands: map<Thread, Session>) {
    && Distinct(m.chan)
    && m.closes.Keys == m.created
    && (forall s :: s in m.chan ==> s in m.created && m.closes[s] == 0)
    && (forall t :: t in hands ==> hands[t] in m.created && m.closes[hands[t]] == 0 && hands[t] !in m.chan)
    && (forall t, u :: t in hands && u in hands && hands[t] == hands[u] ==> t == u)
    && (forall s :: s in m.created ==> m.closes[s] <= 1)
    && (forall s :: s in m.created && m.closes[s] == 0 && s !in m.chan ==> exists t :: t in hands && hands[t] == s)
  }

  lemma OwnedMake(m: Memory, hands: map<Thread, Session>, t: Thread, s: Session)
    requires Owned(m, hands) && t !in hands && s !in m.created
    ensures Owned(Perform(m, t, Make(s)), hands[t := s])
  {
    var hands' := hands[t := s];
    assert t in hands' && hands'[t] == s;
    assert forall u :: u in hands ==> u in hands' && hands'[u] == hands[u];
  }

  lemma OwnedReceive(m: Memory, hands: map<Thread, Session>, t: Thread)
    requires Owned(m, hands) && t !in hands && m.chan != []
    ensures Owned(Perform(m, t, Receive), hands[t := m.chan[0]])
  {
    var hands' := hands[t := m.chan[0]];
    assert t in hands' && hands'[t] == m.chan[0];
    assert forall u :: u in hands ==> u in hands' && hands'[u] == hands[u];
    assert m.chan == [m.chan[0]] + m.chan[1..];
    assert forall s :: s in m.chan <==> s == m.chan[0] || s in m.chan[1..];
  }

  lemma OwnedSend(m: Memory, hands: map<Thread, Session>, t: Thread)
    requires Owned(m, hands) && t in hands
    ensures Owned(Perform(m, t, Send(hands[t])), hands - {t})
  {
    var hands' := hands - {t};
    assert forall u :: u in hands && u != t ==> u in hands' && hands'[u] == hands[u];
  }

  lemma OwnedClose(m: Memory, hands: map<Thread, Session>, t: Thread)
    requires Owned(m, hands) && t in hands
    ensures Owned(Perform(m, t, CloseSession(hands[t])), hands - {t})
  {
    var hands' := hands - {t};
    assert forall u :: u in hands && u != t ==> u in hands' && hands'[u] == hands[u];
  }

  /** How a step changes what the acting thread has in hand. */
  predicate HandShape(before: Option<Session>, after: Option<Session>, op: Op, m: Memory) {
    match op
    case Make(s) => before == None && after == Some(s) && s !in m.created
    case Receive => m.chan != [] && before == None && after == Some(m.chan[0])
    case Send(s) => before == Some(s) && after == None
    case CloseSession(s) => before == Some(s) && after == None
    case _ => before == after
  }

  lemma NextHandShape(st: State, e: Event)
    requires Enabled(st, e)
    ensures HandShape(Carried(st.pcs[e.t]), Carried(Next(st, e).0), Next(st, e).1, st.mem)
  {
  }

  lemma MoveOwned(m: Memory, pcs: map<Thread, Pc>, t: Thread, pc: Pc, op: Op)
    requires t in pcs && Owned(m, Hands(pcs)) && HandShape(Carried(pcs[t]), Carried(pc), op, m)
    ensures Owned(Perform(m, t, op), Hands(pcs[t := pc]))
  {
    var hands := Hands(pcs);
    HandsUpdate(pcs, t, pc);
    if op.Make? {
      OwnedMake(m, hands, t, op.s);
    } else if op.Receive? {
      OwnedReceive(m, hands, t);
    } else if op.Send? {
      OwnedSend(m, hands, t);
    } else if op.CloseSession? {
      OwnedClose(m, hands, t);
    } else {
      assert Hands(pcs[t := pc]) == hands;
      OwnedSame(m, hands, t, op);
    }
  }

  lemma OwnedSame(m: Memory, hands: map<Thread, Session>, t: Thread, op: Op)
    requires Owned(m, hands) && !op.Make? && !op.Receive? && !op.Send? && !op.CloseSession?
    ensures Owned(Perform(m, t, op), hands)
  {
    assert Perform(m, t, op).(mu := m.mu, once := m.once, closed := m.closed, published := m.published) == m;
  }

  // ---------------------------------------------------------------------------
  // Locking, the close-once gate and the closed flag

  predicate Critical(pc: Pc) {
    pc.RelTest? || pc.RelSend? || pc.RelClose? || pc.RelUnlock? || pc.ClsFlag? || pc.ClsDrain?
    || pc.ClsDrop? || pc.ClsUnlock?
  }

  predicate Closing(pc: Pc) {
    pc.ClsRecovery? || pc.ClsLock? || pc.ClsFlag? || pc.ClsDrain? || pc.ClsDrop? || pc.ClsUnlock?
  }

  predicate Constructing(pc: Pc) {
    pc.Building? || pc.BuildSend?
  }

  ghost predicate Gates(m: Memory, pcs: map<Thread, Pc>) {
    && (forall t :: t in pcs ==> (Critical(pcs[t]) <==> m.mu == Some(t)))
    && (m.mu.Some? ==> m.mu.value in pcs)
    && (forall t :: t in pcs ==> (Closing(pcs[t]) <==> m.once == Running(t)))
    && (m.once.Running? ==> m.once.t in pcs)
  }

  /** How a step moves the acting thread through the two gates. */
  predicate GateShape(m: Memory, t: Thread, before: Pc, after: Pc, op: Op) {
    match op
    case Lock => m.mu == None && Critical(after) && (Closing(before) <==> Closing(after))
    case Unlock => Critical(before) && !Critical(after) && (Closing(before) <==> Closing(after))
    case StartOnce => m.once == Fresh && Closing(after) && !Critical(before) && !Critical(after)
    case FinishOnce => Closing(before) && !Closing(after) && Critical(before) && !Critical(after)
    case _ => (Critical(before) <==> Critical(after)) && (Closing(before) <==> Closing(after))
  }

  lemma NextGateShape(st: State, e: Event)
    requires Enabled(st, e)
    ensures GateShape(st.mem, e.t, st.pcs[e.t], Next(st, e).0, Next(st, e).1)
  {
  }

  lemma MoveGates(m: Memory, pcs: map<Thread, Pc>, t: Thread, pc: Pc, op: Op)
    requires t in pcs && Gates(m, pcs) && GateShape(m, t, pcs[t], pc, op) && (op.Receive? ==> m.chan != [])
    ensures Gates(Perform(m, t, op), pcs[t := pc])
  {
  }

  /** What each program point knows about the closed flag and the channel. */
  ghost predicate Knows(m: Memory, pc: Pc) {
    match pc
    case Building => m.created == Elements(m.chan) && !m.closed && !m.published
    case BuildSend(s) => m.created == Elements(m.chan) + {s} && !m.closed && !m.published
    case AcqEntry => m.published
    case AcqLimiter => m.published
    case AcqSelect => m.published
    case RelSend(_) => !m.closed
    case RelClose(_) => m.closed
    case AcqReject(_) => m.closed
    case ClsRecovery => !m.closed
    case ClsLock => !m.closed
    case ClsFlag => !m.closed
    case ClsDrain => m.closed
    case ClsDrop(_) => m.closed
    case ClsUnlock => m.closed && m.chan == []
    case _ => true
  }

  ghost predicate Shared(m: Memory) {
    && (m.once == Fresh ==> !m.closed)
    && (m.once == Done ==> m.closed && m.chan == [])
    && (!m.closed ==> forall s :: s in m.closes ==> m.closes[s] == 0)
    && 0 < m.capacity && |m.created| <= m.capacity
    && (m.published ==> |m.created| == m.capacity)
  }

  /** Before construction ends, only one thread is doing anything. */
  ghost predicate Alone(m: Memory, pcs: map<Thread, Pc>) {
    !m.published ==> forall t, u :: t in pcs && u in pcs && pcs[t] != Idle && pcs[u] != Idle ==> t == u
  }

  ghost predicate Inv(st: State) {
    && Owned(st.mem, Hands(st.pcs))
    && Gates(st.mem, st.pcs)
    && Shared(st.mem)
    && Alone(st.mem, st.pcs)
    && (forall t :: t in st.pcs ==> Knows(st.mem, st.pcs[t]))
  }

  lemma InitInv(st: State, builder: Thread)
    requires Init(st, builder)
    ensures Inv(st)
  {
    assert Hands(st.pcs) == map[];
    assert Elements(st.mem.chan) == {};
  }

  /** A session in hand is outside the channel, so the channel has room for it. */
  lemma RoomForHands(st: State, t: Thread)
    requires Owned(st.mem, Hands(st.pcs)) && Shared(st.mem)
    requires t in st.pcs && Carried(st.pcs[t]).Some?
    ensures |st.mem.chan| < st.mem.capacity
  {
    var m, s := st.mem, Hands(st.pcs)[t];
    DistinctCardinality(m.chan);
    SubsetCardinality(Elements(m.chan) + {s}, m.created);
  }

  lemma StepKnowsBuilding(st: State, e: Event)
    requires Enabled(st, e) && Constructing(st.pcs[e.t]) && Knows(st.mem, st.pcs[e.t])
    ensures Knows(Apply(st, e).mem, Next(st, e).0)
  {
    var m := st.mem;
    if st.pcs[e.t].BuildSend? {
      var s := st.pcs[e.t].s;
      assert Elements(m.chan + [s]) == Elements(m.chan) + {s};
    }
  }

  lemma StepKnowsSelf(st: State, e: Event)
    requires Inv(st) && Enabled(st, e)
    ensures Knows(Apply(st, e).mem, Next(st, e).0)
  {
    assert Knows(st.mem, st.pcs[e.t]);
    if Constructing(st.pcs[e.t]) {
      StepKnowsBuilding(st, e);
    } else if st.pcs[e.t].RelSend? {
      RoomForHands(st, e.t);
    }
  }

  lemma StepKnowsOther(st: State, e: Event, u: Thread)
    requires Inv(st) && Enabled(st, e) && u in st.pcs && u != e.t
    ensures Knows(Apply(st, e).mem, st.pcs[u])
  {
    assert Knows(st.mem, st.pcs[u]) && Knows(st.mem, st.pcs[e.t]);
    assert !st.mem.published ==> st.pcs[u] == Idle;
    assert Critical(st.pcs[u]) ==> !Critical(st.pcs[e.t]) && st.mem.mu != None;
    assert Closing(st.pcs[u]) ==> !Closing(st.pcs[e.t]) && st.mem.once != Fresh;
  }

  lemma MoveShared(m: Memory, t: Thread, op: Op)
    requires Shared(m) && Distinct(m.chan) && (op.Receive? ==> m.chan != [])
    requires Elements(m.chan) <= m.created
    requires SharedShape(m, op)
    ensures Shared(Perform(m, t, op))
  {
    DistinctCardinality(m.chan);
  }

  /** What a step may assume of the memory when it performs its operation. */
  ghost predicate SharedShape(m: Memory, op: Op) {
    match op
    case Make(s) => !m.published && s !in m.created && m.created == Elements(m.chan) && |m.chan| != m.capacity
    case Publish => m.created == Elements(m.chan) && |m.chan| == m.capacity
    case Send(_) => !m.closed
    case CloseSession(_) => m.closed
    case StartOnce => m.once == Fresh
    case SetClosed => m.once.Running?
    case FinishOnce => m.closed && m.chan == []
    case _ => true
  }

  lemma NextSharedShape(st: State, e: Event)
    requires Inv(st) && Enabled(st, e)
    ensures SharedShape(st.mem, Next(st, e).1) && (Next(st, e).1.Receive? ==> st.mem.chan != [])
  {
    assert Knows(st.mem, st.pcs[e.t]);
    if st.pcs[e.t].BuildSend? || st.pcs[e.t].RelSend? {
      assert !st.mem.closed;
    }
  }

  lemma StepShared(st: State, e: Event)
    requires Inv(st) && Enabled(st, e)
    ensures Shared(Apply(st, e).mem)
  {
    NextSharedShape(st, e);
    MoveShared(st.mem, e.t, Next(st, e).1);
  }

  lemma StepAlone(st: State, e: Event)
    requires Alone(st.mem, st.pcs) && Enabled(st, e)
    ensures Alone(Apply(st, e).mem, Apply(st, e).pcs)
  {
    assert st.mem.published || st.pcs[e.t] != Idle;
  }

  lemma StepInv(st: State, e: Event)
    requires Inv(st) && Enabled(st, e)
    ensures Inv(Apply(st, e))
  {
    NextHandShape(st, e);
    NextGateShape(st, e);
    var (pc, op) := Next(st, e);
    MoveOwned(st.mem, st.pcs, e.t, pc, op);
    MoveGates(st.mem, st.pcs, e.t, pc, op);
    StepShared(st, e);
    StepAlone(st, e);
    StepKnowsSelf(st, e);
    forall u | u in st.pcs && u != e.t
      ensures Knows(Apply(st, e).mem, st.pcs[u])
    {
      StepKnowsOther(st, e, u);
    }
  }

  lemma RunInv(st: State, es: seq<Event>)
    requires Inv(st) && IsRun(SYSTEM, st, es)
    ensures Inv(After(SYSTEM, st, es))
  {
    forall s: State, e: Event | Inv(s) && SYSTEM.enabled(s, e) ensures Inv(SYSTEM.apply(s, e)) {
      StepInv(s, e);
    }
    Invariant(SYSTEM, (s: State) => Inv(s), st, es);
  }

  // ---------------------------------------------------------------------------
  // What holds in every reachable state

  ghost predicate Reachable(st: State) {
    exists init: State, builder: Thread, es: seq<Event> ::
      Init(init, builder) && IsRun(SYSTEM, init, es) && After(SYSTEM, init, es) == st
  }

  lemma ReachableInv(st: State)
    requires Reachable(st)
    ensures Inv(st)
  {
    var init: State, builder: Thread, es: seq<Event> :|
      Init(init, builder) && IsRun(SYSTEM, init, es) && After(SYSTEM, init, es) == st;
    InitInv(init, builder);
    RunInv(init, es);
  }

  function Holders(st: State, s: Session): set<Thread> {
    set t | t in st.pcs && Carried(st.pcs[t]) == Some(s)
  }

  /** Slots of the channel, threads holding it and closings add up to one, for every session created. */
  lemma ExactlyOnePlace(st: State, s: Session)
    requires Reachable(st) && s in st.mem.created
    ensures s in st.mem.closes
    ensures multiset(st.mem.chan)[s] + |Holders(st, s)| + st.mem.closes[s] == 1
  {
    ReachableInv(st);
    DistinctCount(st.mem.chan, s);
    var hands := Hands(st.pcs);
    assert forall t :: t in Holders(st, s) <==> t in hands && hands[t] == s;
    if s !in st.mem.chan && st.mem.closes[s] == 0 {
      var t :| t in hands && hands[t] == s;
      assert Holders(st, s) == {t};
    } else {
      assert Holders(st, s) == {};
    }
  }

  lemma {:induction false} InjectiveValues(hands: map<Thread, Session>)
    requires forall t, u :: t in hands && u in hands && hands[t] == hands[u] ==> t == u
    ensures |hands.Values| == |hands|
    decreases |hands|
  {
    if hands == map[] {
      assert hands.Values == {};
    } else {
      var t :| t in hands;
      var rest := hands - {t};
      InjectiveValues(rest);
      assert forall u :: u in rest ==> rest[u] == hands[u];
      assert hands.Values == rest.Values + {hands[t]} by {
        forall s | s in hands.Values ensures s in rest.Values + {hands[t]} {
          var u :| u in hands && hands[u] == s;
          assert u == t || u in rest;
        }
      }
      assert hands[t] !in rest.Values;
    }
  }

  function ClosedSessions(m: Memory): set<Session> {
    set s | s in m.closes && m.closes[s] > 0
  }

  lemma PartitionCount(a: set<Session>, b: set<Session>, c: set<Session>)
    requires a !! b && (a + b) !! c
    ensures |a| + |b| + |c| == |a + b + c|
  {
    assert |a + b| == |a| + |b|;
    assert |(a + b) + c| == |a + b| + |c|;
  }

  lemma OwnedPartition(m: Memory, hands: map<Thread, Session>)
    requires Owned(m, hands)
    ensures Elements(m.chan) !! hands.Values
    ensures (Elements(m.chan) + hands.Values) !! ClosedSessions(m)
    ensures Elements(m.chan) + hands.Values + ClosedSessions(m) == m.created
  {
    forall s | s in hands.Values ensures s in m.created && m.closes[s] == 0 && s !in m.chan {
      var t :| t in hands && hands[t] == s;
    }
    forall s | s in m.created && m.closes[s] == 0 && s !in m.chan ensures s in hands.Values {
      var t :| t in hands && hands[t] == s;
    }
  }

  /** Nothing is lost or duplicated: the three kinds of place always add up to what was created. */
  lemma Conservation(st: State)
    requires Reachable(st)
    ensures |st.mem.chan| + |Hands(st.pcs)| + |ClosedSessions(st.mem)| == |st.mem.created|
  {
    ReachableInv(st);
    var m, hands := st.mem, Hands(st.pcs);
    DistinctCardinality(m.chan);
    InjectiveValues(hands);
    OwnedPartition(m, hands);
    PartitionCount(Elements(m.chan), hands.Values, ClosedSessions(m));
  }

  /** While the endpoint is open, idle and borrowed sessions always make up the whole pool. */
  lemma OpenCapacity(st: State)
    requires Reachable(st) && st.mem.published && !st.mem.closed
    ensures |st.mem.chan| + |Hands(st.pcs)| == st.mem.capacity
  {
    ReachableInv(st);
    Conservation(st);
    assert ClosedSessions(st.mem) == {};
  }

  /** The "pool full" branch of releaseSession is dead code for borrowers that release once. */
  lemma PoolNeverFull(st: State, t: Thread)
    requires Reachable(st) && t in st.pcs && st.pcs[t].RelSend?
    ensures Next(st, Event(t, Advance)) == (RelUnlock, Send(st.pcs[t].s))
  {
    ReachableInv(st);
    RoomForHands(st, t);
    SendWithRoom(st, t);
  }

  lemma SendWithRoom(st: State, t: Thread)
    requires t in st.pcs && st.pcs[t].RelSend? && |st.mem.chan| < st.mem.capacity
    ensures Enabled(st, Event(t, Advance)) && Next(st, Event(t, Advance)) == (RelUnlock, Send(st.pcs[t].s))
  {
  }

  /** Nothing has entered the channel and nobody has acquired a session on the way from one state to another. */
  ghost predicate OnlyDrained(st: State, end: State) {
    && end.mem.closed
    && |end.mem.chan| <= |st.mem.chan| && end.mem.chan == st.mem.chan[|st.mem.chan| - |end.mem.chan|..]
    && forall t :: t in end.pcs && end.pcs[t].Holding? ==> t in st.pcs && st.pcs[t] == end.pcs[t]
  }

  /** Once `closed` is closed it stays so, nothing enters the channel, and no acquire succeeds any more. */
  lemma NothingReturnsAfterClose(st: State, es: seq<Event>)
    requires Reachable(st) && st.mem.closed && IsRun(SYSTEM, st, es)
    ensures OnlyDrained(st, After(SYSTEM, st, es))
  {
    ReachableInv(st);
    ClosedRun(st, es);
  }

  lemma ClosedStep(st: State, e: Event)
    requires Inv(st) && st.mem.closed && Enabled(st, e)
    ensures Apply(st, e).mem.closed
    ensures Apply(st, e).mem.chan == st.mem.chan || (st.mem.chan != [] && Apply(st, e).mem.chan == st.mem.chan[1..])
    ensures !Next(st, e).0.Holding?
  {
    assert Knows(st.mem, st.pcs[e.t]);
  }

  lemma OneDrained(st: State, end: State, t: Thread)
    requires t in st.pcs && t in end.pcs && end.pcs == st.pcs[t := end.pcs[t]] && !end.pcs[t].Holding?
    requires end.mem.closed
    requires end.mem.chan == st.mem.chan || (st.mem.chan != [] && end.mem.chan == st.mem.chan[1..])
    ensures OnlyDrained(st, end)
  {
  }

  lemma DrainedFurther(st: State, mid: State, end: State)
    requires OnlyDrained(st, mid) && OnlyDrained(mid, end)
    ensures OnlyDrained(st, end)
  {
  }

  lemma {:induction false} ClosedRun(st: State, es: seq<Event>)
    requires Inv(st) && st.mem.closed && IsRun(SYSTEM, st, es)
    ensures OnlyDrained(st, After(SYSTEM, st, es))
    decreases |es|
  {
    if es != [] {
      StepInv(st, es[0]);
      ClosedStep(st, es[0]);
      OneDrained(st, Apply(st, es[0]), es[0].t);
      ClosedRun(Apply(st, es[0]), es[1..]);
      DrainedFurther(st, Apply(st, es[0]), After(SYSTEM, st, es));
    }
  }

  /** When Close has returned and no thread has a session in hand, every session is closed, once. */
  lemma AllClosedAtTheEnd(st: State)
    requires Reachable(st) && st.mem.once == Done && Hands(st.pcs) == map[]
    ensures forall s :: s in st.mem.created ==> s in st.mem.closes && st.mem.closes[s] == 1
  {
    ReachableInv(st);
  }

  // ---------------------------------------------------------------------------
  // Progress

  /** A step of an operation already begun, not a new call. */
  predicate Continues(st: State, e: Event) {
    e.t in st.pcs && st.pcs[e.t] != Idle
  }

  /** A thread with a session in hand can step, or waits for the holder of sessionMu, which can. */
  lemma CarrierCanStep(st: State, u: Thread)
    requires Inv(st) && u in Hands(st.pcs)
    ensures exists e: Event ::
              Enabled(st, e) && Continues(st, e) && e.act != SelectContext && (e.t == u || st.mem.mu == Some(e.t))
  {
    RoomForHands(st, u);
    if st.pcs[u].RelLock? && st.mem.mu.Some? {
      HolderCanStep(st);
      assert Enabled(st, Event(st.mem.mu.value, Advance));
    } else {
      assert Enabled(st, Event(u, if st.pcs[u].Holding? then CallRelease else Advance));
    }
  }

  /** A caller waiting for a session finds the endpoint closed or a session idle, or some other thread carries one. */
  lemma SomebodyCarries(st: State, t: Thread) returns (u: Thread)
    requires Reachable(st) && t in st.pcs && st.pcs[t].AcqSelect? && !st.mem.closed && st.mem.chan == []
    ensures u in Hands(st.pcs) && u != t
  {
    ReachableInv(st);
    assert Knows(st.mem, st.pcs[t]);
    OpenCapacity(st);
    assert Hands(st.pcs) != map[];
    u :| u in Hands(st.pcs);
  }

  /**
    A thread outside Idle can step, or waits for a lock whose holder can, or waits for a session that
    another thread is on its way to give back. No thread needs a new call or its context to end.
  */
  lemma NoDeadlock(st: State, t: Thread)
    requires Reachable(st) && t in st.pcs && st.pcs[t] != Idle
    ensures exists e: Event :: Enabled(st, e) && Continues(st, e) && e.act != SelectContext &&
              (e.t == t || st.mem.mu == Some(e.t) || st.mem.once == Running(e.t)
               || (st.pcs[t].AcqSelect? && e.t in Hands(st.pcs)))
  {
    ReachableInv(st);
    if st.pcs[t].AcqSelect? {
      if st.mem.closed {
        assert Enabled(st, Event(t, SelectClosed));
      } else if st.mem.chan != [] {
        assert Enabled(st, Event(t, SelectSession));
      } else {
        var u := SomebodyCarries(st, t);
        CarrierCanStep(st, u);
      }
    } else {
      WorkerCanStep(st, t);
    }
  }

  lemma WorkerCanStep(st: State, t: Thread)
    requires Inv(st) && t in st.pcs && st.pcs[t] != Idle && !st.pcs[t].AcqSelect?
    ensures exists e: Event :: Enabled(st, e) && Continues(st, e) && e.act != SelectContext &&
              (e.t == t || st.mem.mu == Some(e.t) || st.mem.once == Running(e.t))
  {
    if st.pcs[t].RelLock? || st.pcs[t].ClsLock? || st.pcs[t].ClsOnce? {
      WaiterCanStep(st, t);
    } else {
      if Carried(st.pcs[t]).Some? {
        RoomForHands(st, t);
      }
      var e := FreeCanStep(st, t);
    }
  }

  /** One that waits for a lock or the gate can step, or the holder of sessionMu or the one inside the gate can. */
  lemma WaiterCanStep(st: State, t: Thread)
    requires Inv(st) && t in st.pcs && (st.pcs[t].RelLock? || st.pcs[t].ClsLock? || st.pcs[t].ClsOnce?)
    ensures exists e: Event :: Enabled(st, e) && Continues(st, e) && e.act != SelectContext &&
              (e.t == t || st.mem.mu == Some(e.t) || st.mem.once == Running(e.t))
  {
    if st.mem.mu.Some? {
      HolderCanStep(st);
    } else {
      var u := if st.pcs[t].ClsOnce? && st.mem.once.Running? then st.mem.once.t else t;
      assert u != t ==> Closing(st.pcs[u]);
      assert Enabled(st, Event(u, Advance)) && Continues(st, Event(u, Advance));
    }
  }

  lemma FreeCanStep(st: State, t: Thread) returns (e: Event)
    requires t in st.pcs && st.pcs[t] != Idle && !st.pcs[t].AcqSelect?
    requires !st.pcs[t].RelLock? && !st.pcs[t].ClsLock? && !st.pcs[t].ClsOnce?
    requires st.pcs[t].BuildSend? ==> |st.mem.chan| < st.mem.capacity
    ensures e.t == t && Enabled(st, e) && Continues(st, e) && e.act != SelectContext
  {
    var act := match st.pcs[t]
      case Building => if |st.mem.chan| == st.mem.capacity then Advance else FactoryErr
      case AcqLimiter => LimiterOk
      case Holding(_) => CallRelease
      case _ => Advance;
    e := Event(t, act);
  }

  lemma HolderCanStep(st: State)
    requires Inv(st) && st.mem.mu.Some?
    ensures Enabled(st, Event(st.mem.mu.value, Advance)) && Continues(st, Event(st.mem.mu.value, Advance))
  {
    assert Critical(st.pcs[st.mem.mu.value]);
  }

  /** How many steps the holder of sessionMu still needs before it unlocks. */
  function StepsToUnlock(m: Memory, pc: Pc): nat {
    match pc
    case RelTest(_) => 3
    case RelSend(_) => 2
    case RelClose(_) => 2
    case RelUnlock => 1
    case ClsFlag => 2 * |m.chan| + 3
    case ClsDrain => 2 * |m.chan| + 2
    case ClsDrop(_) => 2 * |m.chan| + 3
    case ClsUnlock => 1
    case _ => 0
  }

  lemma CriticalStep(st: State, t: Thread)
    requires t in st.pcs && Critical(st.pcs[t]) && st.mem.mu == Some(t)
    requires st.pcs[t].RelSend? ==> |st.mem.chan| < st.mem.capacity
    requires st.pcs[t].ClsUnlock? ==> st.mem.chan == []
    ensures Enabled(st, Event(t, Advance))
    ensures var (pc, op) := Next(st, Event(t, Advance));
            var m' := Perform(st.mem, t, op);
            if op == Unlock || op == FinishOnce
            then pc == Idle && m'.mu == None && StepsToUnlock(st.mem, st.pcs[t]) == 1
                 && (Closing(st.pcs[t]) ==> m'.once == Done && m'.chan == [])
            else m'.mu == Some(t) && StepsToUnlock(st.mem, st.pcs[t]) == StepsToUnlock(m', pc) + 1
                 && Closing(pc) == Closing(st.pcs[t])
  {
  }

  lemma HolderStep(st: State, t: Thread)
    requires Inv(st) && st.mem.mu == Some(t)
    ensures Enabled(st, Event(t, Advance))
    ensures var (pc, op) := Next(st, Event(t, Advance));
            var m' := Perform(st.mem, t, op);
            if op == Unlock || op == FinishOnce
            then pc == Idle && m'.mu == None && StepsToUnlock(st.mem, st.pcs[t]) == 1
                 && (Closing(st.pcs[t]) ==> m'.once == Done && m'.chan == [])
            else m'.mu == Some(t) && StepsToUnlock(st.mem, st.pcs[t]) == StepsToUnlock(m', pc) + 1
                 && Closing(pc) == Closing(st.pcs[t])
  {
    assert Critical(st.pcs[t]) && Knows(st.mem, st.pcs[t]);
    if st.pcs[t].RelSend? {
      RoomForHands(st, t);
    }
    CriticalStep(st, t);
  }

  /**
    Left to itself, the holder of sessionMu releases it in a known number of steps, and a closing holder
    finishes Close.
  */
  lemma {:induction false} HolderFinishes(st: State, t: Thread) returns (es: seq<Event>)
    requires Inv(st) && st.mem.mu == Some(t)
    ensures IsRun(SYSTEM, st, es) && (forall i :: 0 <= i < |es| ==> es[i] == Event(t, Advance))
    ensures |es| == StepsToUnlock(st.mem, st.pcs[t])
    ensures After(SYSTEM, st, es).mem.mu == None && After(SYSTEM, st, es).pcs == st.pcs[t := Idle]
    ensures Closing(st.pcs[t]) ==> After(SYSTEM, st, es).mem.once == Done && After(SYSTEM, st, es).mem.chan == []
    decreases StepsToUnlock(st.mem, st.pcs[t])
  {
    var e := Event(t, Advance);
    HolderStep(st, t);
    StepInv(st, e);
    var st' := Apply(st, e);
    var rest := [];
    if st'.mem.mu.Some? {
      rest := HolderFinishes(st', t);
    }
    es := [e] + rest;
    Cons(SYSTEM, st, e, rest);
    assert st'.pcs[t := Idle] == st.pcs[t := Idle];
  }
}
