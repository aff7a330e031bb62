/**
  The request counters and the latency average of a pool's endpoints under concurrent attempts
  (client.go:164-205; endpoint.go:194-218; health.go:62-86).

  One step per atomic operation: the add to `totalReqs`, each load and each compare-and-swap of
  `avgLatency`, the add to `successReqs`. The blend of an old average with a new sample is an arbitrary
  function, so nothing here depends on how the floating-point expression rounds.
*/
module RequestAccounting {
  import opened Basics
  import opened Runs

  type Thread = nat

  /** A callback that returned: where, after how long, and whether with a nil error and no block. */
  datatype Call = Call(ep: nat, ns: int, good: bool)

  datatype Counters = Counters(avg: int, total: nat, successes: nat)

  /**
    The endpoints' counters and the history of calls, which are numbered as they return: those counted
    in totalReqs, those folded into an average in order of successful compare-and-swap, and those
    counted in successReqs.
  */
  datatype Memory = Memory(
    blend: (int, int) -> int,
    eps: seq<Counters>,
    calls: seq<Call>,
    counted: set<nat>,
    folded: seq<nat>,
    credited: set<nat>)

  datatype Pc =
    | Idle
    | Calling(ep: nat)
    | Counting(id: nat)
    | Loading(id: nat)
    | Swapping(id: nat, seen: int)
    | Crediting(id: nat)
    | Probing(ep: nat)               // a health probe: borrows a session, touches no counter

  datatype State = State(mem: Memory, pcs: map<Thread, Pc>)

  datatype Act = Start(ep: nat) | Probe(ep: nat) | Return(ns: int, good: bool) | Advance

  datatype Event = Event(t: Thread, act: Act)

  ghost predicate Init(st: State) {
    && (forall i :: 0 <= i < |st.mem.eps| ==> st.mem.eps[i] == Counters(0, 0, 0))
    && st.mem.calls == [] && st.mem.counted == {} && st.mem.folded == [] && st.mem.credited == {}
    && (forall t :: t in st.pcs ==> st.pcs[t] == Idle)
  }

  predicate Numbered(m: Memory, id: nat) {
    id < |m.calls| && m.calls[id].ep < |m.eps|
  }

  predicate Enabled(st: State, e: Event) {
    e.t in st.pcs &&
    match st.pcs[e.t]
    case Idle => (e.act.Start? || e.act.Probe?) && e.act.ep < |st.mem.eps|
    case Calling(ep) => e.act.Return? && ep < |st.mem.eps|
    case Counting(id) => e.act == Advance && Numbered(st.mem, id)
    case Loading(id) => e.act == Advance && Numbered(st.mem, id)
    case Swapping(id, _) => e.act == Advance && Numbered(st.mem, id)
    case Crediting(id) => e.act == Advance && Numbered(st.mem, id)
    case Probing(_) => e.act == Advance
  }

  /** The update rule: an average of zero means there is none yet. */
  function Update(blend: (int, int) -> int, seen: int, ns: int): int {
    if seen == 0 then ns else blend(seen, ns)
  }

  function Apply(st: State, e: Event): State {
    if !Enabled(st, e) then st else
    var m := st.mem;
    match st.pcs[e.t]
    case Idle => Goto(st, e.t, if e.act.Start? then Calling(e.act.ep) else Probing(e.act.ep))
    case Calling(ep) =>
      Goto(st, e.t, Counting(|m.calls|)).(mem := m.(calls := m.calls + [Call(ep, e.act.ns, e.act.good)]))
    case Counting(id) =>
      var i := m.calls[id].ep;
      Goto(st, e.t, Loading(id))
      .(mem := m.(eps := m.eps[i := m.eps[i].(total := m.eps[i].total + 1)], counted := m.counted + {id}))
    case Loading(id) => Goto(st, e.t, Swapping(id, m.eps[m.calls[id].ep].avg))
    case Swapping(id, seen) =>
      var i := m.calls[id].ep;
      if m.eps[i].avg == seen then
        Goto(st, e.t, if m.calls[id].good then Crediting(id) else Idle)
        .(mem := m.(eps := m.eps[i := m.eps[i].(avg := Update(m.blend, seen, m.calls[id].ns))],
                    folded := m.folded + [id]))
      else
        Goto(st, e.t, Loading(id))
    case Crediting(id) =>
      var i := m.calls[id].ep;
      Goto(st, e.t, Idle)
      .(mem := m.(eps := m.eps[i := m.eps[i].(successes := m.eps[i].successes + 1)], credited := m.credited + {id}))
    case Probing(_) => Goto(st, e.t, Idle)
  }

  function Goto(st: State, t: Thread, pc: Pc): State {
    st.(pcs := st.pcs[t := pc])
  }

  const SYSTEM: System<State, Event> := System(Enabled, Apply)

  // ---------------------------------------------------------------------------
  // What the fields mean in terms of the history

  /** The left fold of the update rule over the samples of one endpoint, in the order given. */
  function Fold(blend: (int, int) -> int, calls: seq<Call>, ids: seq<nat>, ep: nat): int {
    if ids == [] then 0
    else
      var last := ids[|ids| - 1];
      var before := Fold(blend, calls, ids[..|ids| - 1], ep);
      if last < |calls| && calls[last].ep == ep then Update(blend, before, calls[last].ns) else before
  }

  function At(calls: seq<Call>, ids: set<nat>, ep: nat): set<nat> {
    set id | id in ids && id < |calls| && calls[id].ep == ep
  }

  ghost predicate Means(m: Memory) {
    forall i :: 0 <= i < |m.eps| ==>
      && m.eps[i].avg == Fold(m.blend, m.calls, m.folded, i)
      && m.eps[i].total == |At(m.calls, m.counted, i)|
      && m.eps[i].successes == |At(m.calls, m.credited, i)|
  }

  /** The call a thread is still recording. */
  function Open(pc: Pc): Option<nat> {
    match pc
    case Counting(id) => Some(id)
    case Loading(id) => Some(id)
    case Swapping(id, _) => Some(id)
    case Crediting(id) => Some(id)
    case _ => None
  }

  ghost predicate History(m: Memory) {
    && (forall id :: 0 <= id < |m.calls| ==> m.calls[id].ep < |m.eps|)
    && (forall id :: id in m.credited ==> id in m.folded)
    && (forall id :: id in m.folded ==> id in m.counted)
    && (forall id :: id in m.counted ==> id < |m.calls|)
    && (forall id :: id in m.credited ==> id in m.counted && m.calls[id].good)
    && Distinct(m.folded)
  }

  predicate Knows(m: Memory, pc: Pc) {
    match pc
    case Calling(ep) => ep < |m.eps|
    case Counting(id) => id < |m.calls| && id !in m.counted
    case Loading(id) => id < |m.calls| && id in m.counted && id !in m.folded
    case Swapping(id, _) => id < |m.calls| && id in m.counted && id !in m.folded
    case Crediting(id) => id < |m.calls| && id in m.folded && id !in m.credited && m.calls[id].good
    case _ => true
  }

  ghost predicate Threads(m: Memory, pcs: map<Thread, Pc>) {
    && (forall t :: t in pcs ==> Knows(m, pcs[t]))
    && (forall t, u :: t in pcs && u in pcs && Open(pcs[t]).Some? && Open(pcs[t]) == Open(pcs[u]) ==> t == u)
  }

  /** Every call not yet fully recorded is in some thread's hands. */
  ghost predicate Recording(m: Memory, pcs: map<Thread, Pc>) {
    forall id: nat :: id < |m.calls| && (id !in m.folded || (m.calls[id].good && id !in m.credited)) ==>
      exists t :: t in pcs && Open(pcs[t]) == Some(id)
  }

  ghost predicate Inv(st: State) {
    Means(st.mem) && History(st.mem) && Threads(st.mem, st.pcs) && Recording(st.mem, st.pcs)
  }

  lemma {:induction false} FoldAppendCall(blend: (int, int) -> int, calls: seq<Call>, ids: seq<nat>, c: Call, ep: nat)
    requires forall i :: 0 <= i < |ids| ==> ids[i] < |calls|
    ensures Fold(blend, calls + [c], ids, ep) == Fold(blend, calls, ids, ep)
  {
    if ids != [] {
      var last := ids[|ids| - 1];
      assert (calls + [c])[last] == calls[last];
      FoldAppendCall(blend, calls, ids[..|ids| - 1], c, ep);
    }
  }

  lemma AtAppendCall(calls: seq<Call>, ids: set<nat>, c: Call, ep: nat)
    requires forall id :: id in ids ==> id < |calls|
    ensures At(calls + [c], ids, ep) == At(calls, ids, ep)
  {
    assert forall id :: id in ids ==> (calls + [c])[id] == calls[id];
  }

  lemma AtAdd(calls: seq<Call>, ids: set<nat>, id: nat, ep: nat)
    requires id < |calls| && id !in ids
    ensures |At(calls, ids + {id}, ep)| == |At(calls, ids, ep)| + (if calls[id].ep == ep then 1 else 0)
  {
    if calls[id].ep == ep {
      assert At(calls, ids + {id}, ep) == At(calls, ids, ep) + {id};
    } else {
      assert At(calls, ids + {id}, ep) == At(calls, ids, ep);
    }
  }

  lemma FoldAdd(blend: (int, int) -> int, calls: seq<Call>, ids: seq<nat>, id: nat, ep: nat)
    requires id < |calls|
    ensures Fold(blend, calls, ids + [id], ep)
         == if calls[id].ep == ep then Update(blend, Fold(blend, calls, ids, ep), calls[id].ns)
            else Fold(blend, calls, ids, ep)
  {
    assert (ids + [id])[..|ids|] == ids;
  }

  lemma StepMeans(st: State, e: Event)
    requires Inv(st) && Enabled(st, e)
    ensures Means(Apply(st, e).mem)
  {
    var m, m' := st.mem, Apply(st, e).mem;
    forall i | 0 <= i < |m.folded| ensures m.folded[i] < |m.calls| {
      assert m.folded[i] in m.folded;
    }
    forall i | 0 <= i < |m'.eps|
      ensures m'.eps[i].avg == Fold(m'.blend, m'.calls, m'.folded, i)
      ensures m'.eps[i].total == |At(m'.calls, m'.counted, i)|
      ensures m'.eps[i].successes == |At(m'.calls, m'.credited, i)|
    {
      match st.pcs[e.t] {
        case Calling(ep) =>
          var c := Call(ep, e.act.ns, e.act.good);
          FoldAppendCall(m.blend, m.calls, m.folded, c, i);
          AtAppendCall(m.calls, m.counted, c, i);
          AtAppendCall(m.calls, m.credited, c, i);
        case Counting(id) => AtAdd(m.calls, m.counted, id, i);
        case Swapping(id, _) => FoldAdd(m.blend, m.calls, m.folded, id, i);
        case Crediting(id) => AtAdd(m.calls, m.credited, id, i);
        case _ =>
      }
    }
  }

  lemma StepHistory(st: State, e: Event)
    requires Inv(st) && Enabled(st, e)
    ensures History(Apply(st, e).mem)
  {
  }

  lemma StepKnowsSelf(st: State, e: Event)
    requires Enabled(st, e) && History(st.mem) && Knows(st.mem, st.pcs[e.t])
    ensures Knows(Apply(st, e).mem, Apply(st, e).pcs[e.t])
    ensures var before, after := Open(st.pcs[e.t]), Open(Apply(st, e).pcs[e.t]);
            after == before || after == None || (before == None && after == Some(|st.mem.calls|))
  {
  }

  lemma StepKnowsOther(st: State, e: Event, pc: Pc)
    requires Enabled(st, e) && Knows(st.mem, pc) && (Open(pc).Some? ==> Open(pc) != Open(st.pcs[e.t]))
    ensures Knows(Apply(st, e).mem, pc)
  {
  }

  lemma StepThreads(st: State, e: Event)
    requires Inv(st) && Enabled(st, e)
    ensures Threads(Apply(st, e).mem, Apply(st, e).pcs)
  {
    StepKnowsSelf(st, e);
    var pcs' := Apply(st, e).pcs;
    assert pcs' == st.pcs[e.t := pcs'[e.t]];
    forall u | u in st.pcs && u != e.t
      ensures Knows(Apply(st, e).mem, st.pcs[u])
      ensures Open(st.pcs[u]).Some? ==> Open(st.pcs[u]) != Open(pcs'[e.t])
    {
      assert Knows(st.mem, st.pcs[u]);
      StepKnowsOther(st, e, st.pcs[u]);
    }
  }

  lemma StepRecording(st: State, e: Event)
    requires Inv(st) && Enabled(st, e)
    ensures Recording(Apply(st, e).mem, Apply(st, e).pcs)
  {
    var m, m', pcs' := st.mem, Apply(st, e).mem, Apply(st, e).pcs;
    forall id: nat | id < |m'.calls| && (id !in m'.folded || (m'.calls[id].good && id !in m'.credited))
      ensures exists t :: t in pcs' && Open(pcs'[t]) == Some(id)
    {
      if id < |m.calls| {
        var t :| t in st.pcs && Open(st.pcs[t]) == Some(id);
        assert t in pcs' && Open(pcs'[t]) == Some(id);
      } else {
        assert e.t in pcs' && Open(pcs'[e.t]) == Some(id);
      }
    }
  }

  lemma StepInv(st: State, e: Event)
    requires Inv(st) && Enabled(st, e)
    ensures Inv(Apply(st, e))
  {
    StepMeans(st, e);
    StepHistory(st, e);
    StepThreads(st, e);
    StepRecording(st, e);
  }

  lemma InitInv(st: State)
    requires Init(st)
    ensures Inv(st)
  {
    forall i | 0 <= i < |st.mem.eps|
      ensures At(st.mem.calls, st.mem.counted, i) == {} && At(st.mem.calls, st.mem.credited, i) == {}
    {
    }
  }

  lemma RunInv(st: State, es: seq<Event>)
    requires Inv(st) && IsRun(SYSTEM, st, es)
    ensures Inv(After(SYSTEM, st, es))
  {
    forall s: State, e: Event | Inv(s) && SYSTEM.enabled(s, e) ensures Inv(SYSTEM.apply(s, e)) {
      StepInv(s, e);
    }
    Invariant(SYSTEM, (s: State) => Inv(s), st, es);
  }

  // ---------------------------------------------------------------------------
  // What holds in every reachable state

  ghost predicate Reachable(st: State) {
    exists init: State, es: seq<Event> :: Init(init) && IsRun(SYSTEM, init, es) && After(SYSTEM, init, es) == st
  }

  lemma ReachableInv(st: State)
    requires Reachable(st)
    ensures Inv(st)
  {
    var init: State, es: seq<Event> :| Init(init) && IsRun(SYSTEM, init, es) && After(SYSTEM, init, es) == st;
    InitInv(init);
    RunInv(init, es);
  }

  /**
    The compare-and-swap loop loses no sample: each average is the fold of the update rule over the
    folded calls in order, no call is folded twice or without being counted as a request, and a call not
    folded yet is still being recorded.
  */
  lemma NoSampleLost(st: State)
    requires Reachable(st)
    ensures forall i :: 0 <= i < |st.mem.eps| ==>
              st.mem.eps[i].avg == Fold(st.mem.blend, st.mem.calls, st.mem.folded, i)
    ensures forall i :: 0 <= i < |st.mem.eps| ==> st.mem.eps[i].total == |At(st.mem.calls, st.mem.counted, i)|
    ensures Distinct(st.mem.folded) && forall id :: id in st.mem.folded ==> id < |st.mem.calls| && id in st.mem.counted
    ensures forall id: nat :: id < |st.mem.calls| && id !in st.mem.folded ==>
              exists t :: t in st.pcs && Open(st.pcs[t]) == Some(id) && !st.pcs[t].Crediting?
  {
    ReachableInv(st);
    forall id: nat | id < |st.mem.calls| && id !in st.mem.folded
      ensures exists t :: t in st.pcs && Open(st.pcs[t]) == Some(id) && !st.pcs[t].Crediting?
    {
      var t :| t in st.pcs && Open(st.pcs[t]) == Some(id);
      assert Knows(st.mem, st.pcs[t]);
    }
  }

  function AboutToCredit(st: State, ep: nat): set<nat> {
    set t | t in st.pcs && st.pcs[t].Crediting? && st.pcs[t].id < |st.mem.calls| && st.mem.calls[st.pcs[t].id].ep == ep
          :: st.pcs[t].id
  }

  /** In every interleaving, successes counted plus successes about to be counted stay within the requests counted. */
  lemma SuccessesWithinRequests(st: State, ep: nat)
    requires Reachable(st) && ep < |st.mem.eps|
    ensures st.mem.eps[ep].successes + |AboutToCredit(st, ep)| <= st.mem.eps[ep].total
  {
    ReachableInv(st);
    var m := st.mem;
    var credited, coming, counted := At(m.calls, m.credited, ep), AboutToCredit(st, ep), At(m.calls, m.counted, ep);
    forall id | id in coming ensures id in counted && id !in credited {
      var t :| t in st.pcs && st.pcs[t].Crediting? && st.pcs[t].id == id;
      assert Knows(m, st.pcs[t]);
    }
    assert credited !! coming;
    SubsetCardinality(credited + coming, counted);
  }

  function Total(eps: seq<Counters>): nat {
    if eps == [] then 0 else Total(eps[..|eps| - 1]) + eps[|eps| - 1].total
  }

  function Successes(eps: seq<Counters>): nat {
    if eps == [] then 0 else Successes(eps[..|eps| - 1]) + eps[|eps| - 1].successes
  }

  function Below(calls: seq<Call>, ids: set<nat>, n: nat): set<nat> {
    set id | id in ids && id < |calls| && calls[id].ep < n
  }

  lemma BelowNext(calls: seq<Call>, ids: set<nat>, n: nat)
    requires n > 0
    ensures |Below(calls, ids, n)| == |Below(calls, ids, n - 1)| + |At(calls, ids, n - 1)|
  {
    assert Below(calls, ids, n) == Below(calls, ids, n - 1) + At(calls, ids, n - 1);
    assert Below(calls, ids, n - 1) !! At(calls, ids, n - 1);
  }

  lemma {:induction false} SumsCount(m: Memory, n: nat)
    requires Means(m) && n <= |m.eps|
    ensures Total(m.eps[..n]) == |Below(m.calls, m.counted, n)|
    ensures Successes(m.eps[..n]) == |Below(m.calls, m.credited, n)|
    decreases n
  {
    if n == 0 {
      assert Below(m.calls, m.counted, 0) == {} && Below(m.calls, m.credited, 0) == {};
    } else {
      SumsCount(m, n - 1);
      assert m.eps[..n][..n - 1] == m.eps[..n - 1];
      BelowNext(m.calls, m.counted, n);
      BelowNext(m.calls, m.credited, n);
    }
  }

  /** The numbers of the calls that ended with a nil error and no block. */
  function Good(calls: seq<Call>): set<nat> {
    set id: nat | id < |calls| && calls[id].good
  }

  function Range(n: nat): (ids: set<nat>)
    ensures |ids| == n && forall i: nat :: i in ids <==> i < n
  {
    if n == 0 then {} else Range(n - 1) + {n - 1}
  }

  /**
    With no attempt in flight, requests summed over the pool are the callbacks that returned, and successes
    the good ones.
  */
  lemma QuiescentTotals(st: State)
    requires Reachable(st) && forall t :: t in st.pcs ==> st.pcs[t].Idle? || st.pcs[t].Probing?
    ensures Total(st.mem.eps) == |st.mem.calls|
    ensures Successes(st.mem.eps) == |Good(st.mem.calls)|
  {
    ReachableInv(st);
    var m := st.mem;
    assert forall id: nat :: id < |m.calls| ==> id in m.folded && (m.calls[id].good ==> id in m.credited);
    SumsCount(m, |m.eps|);
    assert m.eps[..|m.eps|] == m.eps;
    assert Below(m.calls, m.counted, |m.eps|) == Range(|m.calls|);
    assert Below(m.calls, m.credited, |m.eps|) == Good(m.calls);
  }

  // ---------------------------------------------------------------------------
  // One attempt that nothing interleaves with

  lemma SoloStep(st: State, t: Thread, act: Act, es: seq<Event>) returns (fs: seq<Event>)
    requires Enabled(st, Event(t, act)) && IsRun(SYSTEM, Apply(st, Event(t, act)), es)
    ensures fs == [Event(t, act)] + es
    ensures IsRun(SYSTEM, st, fs) && After(SYSTEM, st, fs) == After(SYSTEM, Apply(st, Event(t, act)), es)
  {
    Cons(SYSTEM, st, Event(t, act), es);
    fs := [Event(t, act)] + es;
  }

  lemma SoloFold(st: State, t: Thread) returns (es: seq<Event>)
    requires t in st.pcs && st.pcs[t].Counting? && Numbered(st.mem, st.pcs[t].id)
    ensures IsRun(SYSTEM, st, es)
    ensures var call := st.mem.calls[st.pcs[t].id];
            var c, end := st.mem.eps[call.ep], After(SYSTEM, st, es);
            && end.mem.eps == st.mem.eps[call.ep := Counters(Update(st.mem.blend, c.avg, call.ns), c.total + 1,
                                                             c.successes)]
            && end.mem.calls == st.mem.calls
            && end.pcs == st.pcs[t := if call.good then Crediting(st.pcs[t].id) else Idle]
  {
    var st1 := Apply(st, Event(t, Advance));
    var st2 := Apply(st1, Event(t, Advance));
    es := SoloStep(st2, t, Advance, []);
    es := SoloStep(st1, t, Advance, es);
    es := SoloStep(st, t, Advance, es);
    assert After(SYSTEM, st, es).pcs
           == st.pcs[t := if st.mem.calls[st.pcs[t].id].good then Crediting(st.pcs[t].id) else Idle];
  }

  lemma SoloCredit(st: State, t: Thread) returns (es: seq<Event>)
    requires t in st.pcs && st.pcs[t].Crediting? && Numbered(st.mem, st.pcs[t].id)
    ensures IsRun(SYSTEM, st, es)
    ensures var i := st.mem.calls[st.pcs[t].id].ep;
            && After(SYSTEM, st, es).mem.eps
               == st.mem.eps[i := st.mem.eps[i].(successes := st.mem.eps[i].successes + 1)]
            && After(SYSTEM, st, es).pcs == st.pcs[t := Idle]
  {
    es := SoloStep(st, t, Advance, []);
  }

  lemma SoloReturn(st: State, t: Thread, ns: int, good: bool) returns (es: seq<Event>)
    requires t in st.pcs && st.pcs[t].Calling? && st.pcs[t].ep < |st.mem.eps|
    ensures IsRun(SYSTEM, st, es)
    ensures var ep, end := st.pcs[t].ep, After(SYSTEM, st, es);
            var c := st.mem.eps[ep];
            && end.mem.eps == st.mem.eps[ep := Counters(if c.avg == 0 then ns else st.mem.blend(c.avg, ns), c.total + 1,
                                                        c.successes + if good then 1 else 0)]
            && end.pcs == st.pcs[t := Idle]
  {
    var st1 := Apply(st, Event(t, Return(ns, good)));
    es := SoloFold(st1, t);
    var st2 := After(SYSTEM, st1, es);
    if good {
      var last := SoloCredit(st2, t);
      Concat(SYSTEM, st1, es, last);
      es := es + last;
    }
    assert After(SYSTEM, st1, es).pcs == st.pcs[t := Idle];
    es := SoloStep(st, t, Return(ns, good), es);
  }

  /** An attempt is counted, its latency enters its endpoint's average, and a good one is credited. */
  lemma SoloAttempt(st: State, t: Thread, ep: nat, ns: int, good: bool) returns (es: seq<Event>)
    requires t in st.pcs && st.pcs[t] == Idle && ep < |st.mem.eps|
    ensures IsRun(SYSTEM, st, es)
    ensures var c, end := st.mem.eps[ep], After(SYSTEM, st, es);
            && end.mem.eps == st.mem.eps[ep := Counters(if c.avg == 0 then ns else st.mem.blend(c.avg, ns), c.total + 1,
                                                        c.successes + if good then 1 else 0)]
            && end.pcs == st.pcs
  {
    var st1 := Apply(st, Event(t, Start(ep)));
    es := SoloReturn(st1, t, ns, good);
    assert st1.pcs[t := Idle] == st.pcs;
    es := SoloStep(st, t, Start(ep), es);
  }

  /** A probe borrows and gives back without touching a counter. */
  lemma SoloProbe(st: State, t: Thread, ep: nat) returns (es: seq<Event>)
    requires t in st.pcs && st.pcs[t] == Idle && ep < |st.mem.eps|
    ensures IsRun(SYSTEM, st, es) && After(SYSTEM, st, es) == st
  {
    var st1 := Apply(st, Event(t, Probe(ep)));
    assert Apply(st1, Event(t, Advance)).pcs == st.pcs;
    es := SoloStep(st1, t, Advance, []);
    es := SoloStep(st, t, Probe(ep), es);
  }
}
