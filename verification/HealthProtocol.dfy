/**
  The health of one endpoint at the granularity of single atomic operations
  (endpoint.go:187-192, 214-218, 237-285; client.go:171-204, 238-244, 354-383; health.go:62-86).

  `state`, `failCount` and `cooldownTier` are separate atomics; only markFailed, the recovery
  goroutines and Close take `mu`. Any number of request attempts, health probes, manual controls and
  recoveries interleave freely. Counters are unbounded here: runs end before one reaches 2^31.
*/
module HealthProtocol {
  import opened Basics
  import opened Runs
  import opened Cooldown
  import opened Vitals

  /** The goroutines: callers of the package, and the recovery goroutines markFailed has started. */
  datatype Agent = Caller(id: nat) | Recovery(id: nat)

  datatype Kind = Request | Probe

  /** A tier just counted by markFailed. */
  type Tier = k: nat | k >= 1 witness 1

  datatype Pc =
    | Idle
    // a request attempt or health probe: availability check, then work on the endpoint
    | Checking(kind: Kind)
    | InFlight(kind: Kind)
    | ZeroingTier                    // recordSuccess
    | ZeroingFails                   // resetFailCount after a success
    | Counting                       // incrementFailCount
    | Reading                        // getFailCount >= failThreshold
    // markFailed
    | MfLock | MfSet | MfCancel | MfTier | MfSpawn(tier: Tier) | MfUnlock
    // MarkEndpointDead, ResetEndpoint, Close
    | Retiring
    | RstState | RstFails | RstTier
    | ClsLock | ClsCancel | ClsUnlock
    // a recovery goroutine
    | Starting | Parked | WantLock | Testing | Waking | Forgetting | Leaving | Finished

  /** The context of a recovery: live, or cancelled by the markFailed that supersedes it or by Close. */
  datatype Context = Live | Superseded | ByClose

  datatype Memory = Memory(
    threshold: nat,
    base: int,
    max: int,
    health: Health,
    fails: nat,
    tier: nat,
    mu: Option<Agent>,
    handle: Option<nat>,             // cancelCooldown: the recovery it would cancel
    contexts: seq<Context>,          // of the recoveries started so far, oldest first
    delays: seq<int>,
    closing: bool)                   // closeOnce has been used

  datatype State = State(mem: Memory, pcs: map<Agent, Pc>)

  datatype Act =
    | Advance
    | CallRequest | CallProbe | CallRetire | CallReset | CallClose
    | NotChosen | Succeeded | Blocked | OtherError
    | TimerFires | SeesCancel

  datatype Event = Event(a: Agent, act: Act)

  datatype Op =
    | Local
    | Store(h: Health)
    | ZeroFails | IncFails
    | ZeroTier | IncTier
    | Lock | Unlock
    | Cancel(why: Context)
    | Spawn(delay: int)
    | UseCloseOnce

  ghost predicate Init(st: State) {
    && st.mem.threshold >= 1 && 0 < st.mem.base && 0 < st.mem.max
    && st.mem.health == Alive && st.mem.fails == 0 && st.mem.tier == 0
    && st.mem.mu == None && st.mem.handle == None && st.mem.contexts == [] && st.mem.delays == []
    && !st.mem.closing
    && (forall a :: a in st.pcs ==> a.Caller? && st.pcs[a] == Idle)
  }

  /** The context of a recovery has not been cancelled. */
  predicate IsLive(m: Memory, a: Agent) {
    a.id < |m.contexts| && m.contexts[a.id] == Live
  }

  predicate Enabled(st: State, e: Event) {
    e.a in st.pcs &&
    match st.pcs[e.a]
    case Idle =>
      e.act.CallRequest? || e.act.CallProbe? || e.act.CallRetire? || e.act.CallReset?
      || (e.act.CallClose? && !st.mem.closing)
    case InFlight(Request) => e.act.NotChosen? || e.act.Succeeded? || e.act.Blocked? || e.act.OtherError?
    case InFlight(Probe) => e.act.Succeeded? || e.act.OtherError?
    case MfLock => e.act == Advance && st.mem.mu == None
    case ClsLock => e.act == Advance && st.mem.mu == None
    // not in its select yet: by the time it gets there the timer may have fired, the context ended, or both
    case Starting =>
      || e.act.TimerFires?
      || (e.act == Advance && IsLive(st.mem, e.a))
      || (e.act.SeesCancel? && !IsLive(st.mem, e.a))
    // blocked in its select: whatever comes first decides
    case Parked => if IsLive(st.mem, e.a) then e.act.TimerFires? else e.act.SeesCancel?
    case WantLock => e.act == Advance && st.mem.mu == None
    case Finished => false
    case _ => e.act == Advance
  }

  /** Where the acting goroutine goes and the one shared operation it performs on the way. */
  function Next(st: State, e: Event): (Pc, Op)
    requires Enabled(st, e)
  {
    var m := st.mem;
    match st.pcs[e.a]
    case Idle =>
      (match e.act
       case CallRequest => (Checking(Request), Local)
       case CallProbe => (Checking(Probe), Local)
       case CallRetire => (Retiring, Local)
       case CallReset => (RstState, Local)
       case _ => (ClsLock, UseCloseOnce))
    case Checking(kind) => (if m.health == Alive then InFlight(kind) else Idle, Local)
    case InFlight(Request) =>
      (if e.act.Succeeded? then ZeroingTier else if e.act.Blocked? then Counting else Idle, Local)
    case InFlight(Probe) => (if e.act.Succeeded? then ZeroingFails else Counting, Local)
    case ZeroingTier => (ZeroingFails, ZeroTier)
    case ZeroingFails => (Idle, ZeroFails)
    case Counting => (Reading, IncFails)
    case Reading => (if m.fails >= m.threshold then MfLock else Idle, Local)
    case MfLock => (MfSet, Lock)
    case MfSet => (MfCancel, Store(InCooldown))
    case MfCancel => (MfTier, if m.handle.Some? then Cancel(Superseded) else Local)
    case MfTier => (MfSpawn(m.tier + 1), IncTier)
    case MfSpawn(k) => (MfUnlock, Spawn(Delay(m.base, m.max, k)))
    case MfUnlock => (Idle, Unlock)
    case Retiring => (Idle, Store(Dead))
    case RstState => (RstFails, Store(Alive))
    case RstFails => (RstTier, ZeroFails)
    case RstTier => (Idle, ZeroTier)
    case ClsLock => (ClsCancel, Lock)
    case ClsCancel => (ClsUnlock, if m.handle.Some? then Cancel(ByClose) else Local)
    case ClsUnlock => (Idle, Unlock)
    case Starting =>
      (if e.act.TimerFires? then WantLock else if e.act.SeesCancel? then Finished else Parked, Local)
    case Parked => (if e.act.TimerFires? then WantLock else Finished, Local)
    case WantLock => (Testing, Lock)
    case Testing => (if m.health == InCooldown then Waking else Leaving, Local)
    case Waking => (Forgetting, Store(Alive))
    case Forgetting => (Leaving, ZeroFails)
    case Leaving => (Finished, Unlock)
  }

  function Perform(m: Memory, a: Agent, op: Op): Memory {
    match op
    case Local => m
    case Store(h) => m.(health := h)
    case ZeroFails => m.(fails := 0)
    case IncFails => m.(fails := m.fails + 1)
    case ZeroTier => m.(tier := 0)
    case IncTier => m.(tier := m.tier + 1)
    case Lock => m.(mu := Some(a))
    case Unlock => m.(mu := None)
    case Cancel(why) =>
      if m.handle.Some? && m.handle.value < |m.contexts| then
        m.(contexts := m.contexts[m.handle.value := why], handle := if why == ByClose then None else m.handle)
      else m
    case Spawn(d) =>
      m.(handle := Some(|m.contexts|), contexts := m.contexts + [Live], delays := m.delays + [d])
    case UseCloseOnce => m.(closing := true)
  }

  /** The goroutines after a step: the acting one has moved, and Spawn has started one more. */
  function Move(m: Memory, pcs: map<Agent, Pc>, a: Agent, pc: Pc, op: Op): map<Agent, Pc> {
    if op.Spawn? then pcs[a := pc][Recovery(|m.contexts|) := Starting] else pcs[a := pc]
  }

  function Apply(st: State, e: Event): State {
    if Enabled(st, e) then
      var (pc, op) := Next(st, e);
      State(Perform(st.mem, e.a, op), Move(st.mem, st.pcs, e.a, pc, op))
    else
      st
  }

  const SYSTEM: System<State, Event> := System(Enabled, Apply)

  // ---------------------------------------------------------------------------
  // Goroutines and the mutex

  predicate RecoveryPc(pc: Pc) {
    || pc.Starting? || pc.Parked? || pc.WantLock? || pc.Testing? || pc.Waking? || pc.Forgetting? || pc.Leaving?
    || pc.Finished?
  }

  predicate Critical(pc: Pc) {
    pc.MfSet? || pc.MfCancel? || pc.MfTier? || pc.MfSpawn? || pc.MfUnlock? || pc.ClsCancel? || pc.ClsUnlock?
    || pc.Testing? || pc.Waking? || pc.Forgetting? || pc.Leaving?
  }

  ghost predicate Agents(m: Memory, pcs: map<Agent, Pc>) {
    && |m.delays| == |m.contexts|
    && (forall i: nat :: Recovery(i) in pcs <==> i < |m.contexts|)
    && (forall a :: a in pcs ==> (a.Recovery? <==> RecoveryPc(pcs[a])))
    && (m.handle.Some? ==> m.handle.value + 1 == |m.contexts|)
  }

  ghost predicate Mutex(m: Memory, pcs: map<Agent, Pc>) {
    HeldBy(m.mu, pcs)
  }

  ghost predicate HeldBy(mu: Option<Agent>, pcs: map<Agent, Pc>) {
    && (forall a :: a in pcs ==> (Critical(pcs[a]) <==> mu == Some(a)))
    && (mu.Some? ==> mu.value in pcs)
  }

  predicate Shape(m: Memory, before: Pc, after: Pc, op: Op) {
    && (RecoveryPc(before) <==> RecoveryPc(after))
    && LockShape(m, before, after, op)
    && (op.Cancel? || op.Spawn? ==> Critical(before))
  }

  predicate LockShape(m: Memory, before: Pc, after: Pc, op: Op) {
    match op
    case Lock => m.mu == None && !Critical(before) && Critical(after)
    case Unlock => Critical(before) && !Critical(after)
    case _ => Critical(before) <==> Critical(after)
  }

  lemma NextShape(st: State, e: Event)
    requires Enabled(st, e)
    ensures Shape(st.mem, st.pcs[e.a], Next(st, e).0, Next(st, e).1)
  {
    NextLockShape(st, e);
  }

  lemma NextLockShape(st: State, e: Event)
    requires Enabled(st, e)
    ensures LockShape(st.mem, st.pcs[e.a], Next(st, e).0, Next(st, e).1)
  {
  }

  lemma MoveAgents(m: Memory, pcs: map<Agent, Pc>, a: Agent, pc: Pc, op: Op)
    requires a in pcs && Agents(m, pcs) && Shape(m, pcs[a], pc, op)
    ensures Agents(Perform(m, a, op), Move(m, pcs, a, pc, op))
  {
    if !op.Spawn? {
      assert |Perform(m, a, op).contexts| == |m.contexts| && Perform(m, a, op).delays == m.delays;
    }
  }

  lemma HandOver(mu: Option<Agent>, mu': Option<Agent>, pcs: map<Agent, Pc>, a: Agent, pc: Pc)
    requires a in pcs && HeldBy(mu, pcs)
    requires mu' == (if Critical(pc) then Some(a) else if Critical(pcs[a]) then None else mu)
    requires Critical(pc) && !Critical(pcs[a]) ==> mu == None
    ensures HeldBy(mu', pcs[a := pc])
  {
  }

  lemma MoveMutex(m: Memory, pcs: map<Agent, Pc>, a: Agent, pc: Pc, op: Op)
    requires a in pcs && Agents(m, pcs) && Mutex(m, pcs) && Shape(m, pcs[a], pc, op)
    ensures Mutex(Perform(m, a, op), Move(m, pcs, a, pc, op))
  {
    PerformMu(m, a, op);
    HandOver(m.mu, MuAfter(m.mu, a, op), pcs, a, pc);
  }

  function MuAfter(mu: Option<Agent>, a: Agent, op: Op): Option<Agent> {
    match op
    case Lock => Some(a)
    case Unlock => None
    case _ => mu
  }

  lemma PerformMu(m: Memory, a: Agent, op: Op)
    ensures Perform(m, a, op).mu == MuAfter(m.mu, a, op)
    ensures Perform(m, a, op).contexts == m.contexts || op.Cancel? || op.Spawn?
  {
  }

  // ---------------------------------------------------------------------------
  // An endpoint at its threshold has someone about to act on it

  /** Owes a threshold read, a cooldown, or a reset of the failure counter. */
  predicate Owes(pc: Pc) {
    pc.Reading? || pc.MfLock? || pc.MfSet? || pc.RstFails? || pc.Forgetting?
  }

  ghost predicate Debt(m: Memory, pcs: map<Agent, Pc>) {
    m.health == Alive && m.fails >= m.threshold ==> exists a :: a in pcs && Owes(pcs[a])
  }

  lemma StepDebt(st: State, e: Event)
    requires Agents(st.mem, st.pcs) && st.mem.threshold >= 1 && Debt(st.mem, st.pcs) && Enabled(st, e)
    ensures Debt(Apply(st, e).mem, Apply(st, e).pcs)
  {
    var st' := Apply(st, e);
    if st'.mem.health == Alive && st'.mem.fails >= st'.mem.threshold {
      if Owes(Next(st, e).0) {
        assert e.a in st'.pcs && Owes(st'.pcs[e.a]);
      } else {
        var a :| a in st.pcs && Owes(st.pcs[a]);
        assert a in st'.pcs && Owes(st'.pcs[a]);
      }
    }
  }

  // ---------------------------------------------------------------------------
  // An endpoint in cooldown has someone about to bring it back

  /** A markFailed is between its state store and its new recovery, holding mu. */
  ghost predicate Failing(m: Memory, pcs: map<Agent, Pc>) {
    m.mu.Some? && m.mu.value in pcs
    && (pcs[m.mu.value].MfCancel? || pcs[m.mu.value].MfTier? || pcs[m.mu.value].MfSpawn?)
  }

  function Newest(m: Memory): Agent
    requires m.contexts != []
  {
    Recovery(|m.contexts| - 1)
  }

  ghost predicate Rescue(m: Memory, pcs: map<Agent, Pc>) {
    m.contexts != [] && Newest(m) in pcs &&
    match m.contexts[|m.contexts| - 1]
    case Live =>
      var pc := pcs[Newest(m)];
      pc.Starting? || pc.Parked? || pc.WantLock? || pc.Testing? || pc.Waking?
    case ByClose => true
    case Superseded => false
  }

  ghost predicate Rescued(m: Memory, pcs: map<Agent, Pc>) {
    && (m.health == InCooldown ==> Failing(m, pcs) || Rescue(m, pcs))
    && (m.contexts != [] && m.contexts[|m.contexts| - 1] == Superseded ==>
          Failing(m, pcs) && !pcs[m.mu.value].MfCancel?)
  }

  ghost predicate Prompt(m: Memory) {
    && 0 < m.base && 0 < m.max
    && forall i :: 0 <= i < |m.delays| ==> m.delays[i] <= Min(16 * m.base, m.max)
  }

  /** Only Close cancels a recovery for good. */
  ghost predicate CloseOnly(m: Memory, pcs: map<Agent, Pc>) {
    !m.closing ==>
      && ByClose !in m.contexts
      && forall a :: a in pcs ==> !pcs[a].ClsLock? && !pcs[a].ClsCancel?
  }

  ghost predicate Inv(st: State) {
    && st.mem.threshold >= 1
    && CloseOnly(st.mem, st.pcs)
    && Agents(st.mem, st.pcs)
    && Mutex(st.mem, st.pcs)
    && Debt(st.mem, st.pcs)
    && Rescued(st.mem, st.pcs)
    && Prompt(st.mem)
  }

  /** The parts of the invariant that concern the acting goroutine, the holder of mu and the newest recovery. */
  predicate Surroundings(m: Memory, pcs: map<Agent, Pc>, a: Agent) {
    && a in pcs
    && (Critical(pcs[a]) <==> m.mu == Some(a))
    && (m.mu.Some? ==> m.mu.value in pcs && Critical(pcs[m.mu.value]))
    && (m.handle.Some? ==> m.handle.value + 1 == |m.contexts|)
    && (m.contexts != [] ==> Newest(m) in pcs && RecoveryPc(pcs[Newest(m)]))
    && Recovery(|m.contexts|) !in pcs
    && (a.Recovery? <==> RecoveryPc(pcs[a]))
    && (a.Recovery? ==> a.id < |m.contexts|)
  }

  lemma StepRescuedUnlocked(st: State, e: Event)
    requires Enabled(st, e) && Surroundings(st.mem, st.pcs, e.a) && Rescued(st.mem, st.pcs)
    requires !Critical(st.pcs[e.a])
    ensures Rescued(Apply(st, e).mem, Apply(st, e).pcs)
  {
    var (pc, op) := Next(st, e);
    assert op.Local? || op.Store? || op.ZeroFails? || op.IncFails? || op.ZeroTier? || op.Lock? || op.UseCloseOnce?;
    assert op.Store? ==> op.h != InCooldown;
  }

  lemma StepRescuedLocked(st: State, e: Event)
    requires Enabled(st, e) && Surroundings(st.mem, st.pcs, e.a) && Rescued(st.mem, st.pcs)
    requires Critical(st.pcs[e.a])
    ensures Rescued(Apply(st, e).mem, Apply(st, e).pcs)
  {
    var m, m' := st.mem, Apply(st, e).mem;
    var pcs' := Apply(st, e).pcs;
    match st.pcs[e.a] {
      case MfSpawn(_) =>
        assert Newest(m') == Recovery(|m.contexts|) && pcs'[Newest(m')] == Starting;
      case MfSet => assert Failing(m', pcs');
      case MfCancel => assert Failing(m', pcs');
      case MfTier => assert Failing(m', pcs');
      case _ =>
    }
  }

  lemma StepRescued(st: State, e: Event)
    requires Inv(st) && Enabled(st, e)
    ensures Rescued(Apply(st, e).mem, Apply(st, e).pcs)
  {
    assert Surroundings(st.mem, st.pcs, e.a);
    if Critical(st.pcs[e.a]) {
      StepRescuedLocked(st, e);
    } else {
      StepRescuedUnlocked(st, e);
    }
  }

  lemma StepPrompt(st: State, e: Event)
    requires Inv(st) && Enabled(st, e)
    ensures Prompt(Apply(st, e).mem)
  {
    if st.pcs[e.a].MfSpawn? {
      DelayBounded(st.mem.base, st.mem.max, st.pcs[e.a].tier);
    }
  }

  lemma StepCloseOnly(st: State, e: Event)
    requires CloseOnly(st.mem, st.pcs) && Enabled(st, e)
    ensures CloseOnly(Apply(st, e).mem, Apply(st, e).pcs)
  {
  }

  lemma StepInv(st: State, e: Event)
    requires Inv(st) && Enabled(st, e)
    ensures Inv(Apply(st, e))
  {
    NextShape(st, e);
    var (pc, op) := Next(st, e);
    MoveAgents(st.mem, st.pcs, e.a, pc, op);
    MoveMutex(st.mem, st.pcs, e.a, pc, op);
    StepDebt(st, e);
    StepRescued(st, e);
    StepPrompt(st, e);
    StepCloseOnly(st, e);
  }

  lemma RunInv(st: State, es: seq<Event>)
    requires Inv(st) && IsRun(SYSTEM, st, es)
    ensures Inv(After(SYSTEM, st, es))
  {
    forall s: State, e: Event | Inv(s) && SYSTEM.enabled(s, e) ensures Inv(SYSTEM.apply(s, e)) {
      StepInv(s, e);
    }
    Invariant(SYSTEM, (s: State) => Inv(s), st, es);
  }

  // ---------------------------------------------------------------------------
  // What holds in every reachable state

  ghost predicate Reachable(st: State) {
    exists init: State, es: seq<Event> :: Init(init) && IsRun(SYSTEM, init, es) && After(SYSTEM, init, es) == st
  }

  lemma ReachableInv(st: State)
    requires Reachable(st)
    ensures Inv(st)
  {
    var init: State, es: seq<Event> :| Init(init) && IsRun(SYSTEM, init, es) && After(SYSTEM, init, es) == st;
    assert Inv(init);
    RunInv(init, es);
  }

  /**
    At the threshold and still alive, some goroutine owes the endpoint a threshold read, a cooldown or a
    fail-count reset.
  */
  lemma ThresholdIsOwed(st: State)
    requires Reachable(st) && st.mem.health == Alive && st.mem.fails >= st.mem.threshold
    ensures exists a :: a in st.pcs && Owes(st.pcs[a])
  {
    ReachableInv(st);
  }

  /** So whenever no operation is in flight, an endpoint that can be selected is below the threshold. */
  lemma QuiescentBelowThreshold(st: State)
    requires Reachable(st) && st.mem.health == Alive
    requires forall a :: a in st.pcs ==>
               st.pcs[a].Idle? || st.pcs[a].Starting? || st.pcs[a].Parked? || st.pcs[a].Finished?
    ensures st.mem.fails < st.mem.threshold
  {
    ReachableInv(st);
  }

  /** No endpoint in cooldown is left without a goroutine that will see to it, unless Close gave it up. */
  lemma NeverStranded(st: State)
    requires Reachable(st) && st.mem.health == InCooldown
    ensures Failing(st.mem, st.pcs) || Rescue(st.mem, st.pcs)
    ensures |st.mem.delays| == |st.mem.contexts|
    ensures forall i :: 0 <= i < |st.mem.delays| ==> st.mem.delays[i] <= Min(16 * st.mem.base, st.mem.max)
  {
    ReachableInv(st);
  }

  // ---------------------------------------------------------------------------
  // Progress of the goroutine that holds mu

  function StepsToUnlock(m: Memory, pc: Pc): nat {
    match pc
    case MfSet => 5
    case MfCancel => 4
    case MfTier => 3
    case MfSpawn(_) => 2
    case MfUnlock => 1
    case ClsCancel => 2
    case ClsUnlock => 1
    case Testing => if m.health == InCooldown then 4 else 2
    case Waking => 3
    case Forgetting => 2
    case Leaving => 1
    case _ => 0
  }

  lemma HolderStep(st: State, a: Agent)
    requires a in st.pcs && Critical(st.pcs[a]) && st.mem.mu == Some(a)
    ensures Enabled(st, Event(a, Advance))
    ensures var (pc, op) := Next(st, Event(a, Advance));
            var m' := Perform(st.mem, a, op);
            && StepsToUnlock(st.mem, st.pcs[a]) == StepsToUnlock(m', pc) + 1
            && (if op == Unlock then m'.mu == None else m'.mu == Some(a))
            && m'.closing == st.mem.closing
  {
  }

  /** Left to itself, the holder of mu unlocks within five steps and disturbs no other goroutine. */
  lemma {:induction false} HolderFinishes(st: State, a: Agent) returns (es: seq<Event>)
    requires Inv(st) && st.mem.mu == Some(a)
    ensures IsRun(SYSTEM, st, es) && |es| == StepsToUnlock(st.mem, st.pcs[a]) <= 5
    ensures forall i :: 0 <= i < |es| ==> es[i] == Event(a, Advance)
    ensures After(SYSTEM, st, es).mem.mu == None && After(SYSTEM, st, es).mem.closing == st.mem.closing
    ensures forall b :: b in st.pcs && b != a ==>
              b in After(SYSTEM, st, es).pcs && After(SYSTEM, st, es).pcs[b] == st.pcs[b]
    decreases StepsToUnlock(st.mem, st.pcs[a])
  {
    var e := Event(a, Advance);
    HolderStep(st, a);
    StepInv(st, e);
    var st' := Apply(st, e);
    assert Recovery(|st.mem.contexts|) !in st.pcs;
    assert forall b :: b in st.pcs && b != a ==> b in st'.pcs && st'.pcs[b] == st.pcs[b];
    var rest := [];
    if st'.mem.mu.Some? {
      rest := HolderFinishes(st', a);
    }
    es := [e] + rest;
    Cons(SYSTEM, st, e, rest);
  }
}
