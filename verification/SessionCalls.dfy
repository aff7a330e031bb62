/**
  Calls on the session pool that nothing interleaves with: what construction, an acquire, a release and a Close
  make of the channel when their steps are run alone (endpoint.go:57-185).
*/
module SessionCalls {
  import opened Basics
  import opened Runs
  import opened SessionProtocol

  /** Every step of the run is one of thread t. */
  ghost predicate By(t: Thread, es: seq<Event>) {
    forall i :: 0 <= i < |es| ==> es[i].t == t
  }

  lemma SoloStep(st: State, t: Thread, act: Act, es: seq<Event>) returns (fs: seq<Event>)
    requires Enabled(st, Event(t, act)) && By(t, es)
    requires IsRun(SYSTEM, Apply(st, Event(t, act)), es)
    ensures fs == [Event(t, act)] + es && By(t, fs)
    ensures IsRun(SYSTEM, st, fs) && After(SYSTEM, st, fs) == After(SYSTEM, Apply(st, Event(t, act)), es)
  {
    Cons(SYSTEM, st, Event(t, act), es);
    fs := [Event(t, act)] + es;
  }

  // ---------------------------------------------------------------------------
  // Borrowing and giving back

  lemma SoloTake(st: State, t: Thread) returns (es: seq<Event>)
    requires t in st.pcs && st.pcs[t] == AcqSelect && !st.mem.closed && st.mem.chan != []
    ensures IsRun(SYSTEM, st, es) && By(t, es)
    ensures After(SYSTEM, st, es)
            == State(st.mem.(chan := st.mem.chan[1..]), st.pcs[t := Holding(st.mem.chan[0])])
  {
    var st1 := Apply(st, Event(t, SelectSession));
    var st2 := Apply(st1, Event(t, Advance));
    assert st2.pcs == st.pcs[t := Holding(st.mem.chan[0])];
    es := SoloStep(st1, t, Advance, []);
    es := SoloStep(st, t, SelectSession, es);
  }

  /** An acquire on an open endpoint with a session idle gets the one that has been idle longest. */
  lemma SoloAcquire(st: State, t: Thread) returns (es: seq<Event>)
    requires t in st.pcs && st.pcs[t] == AcqEntry && !st.mem.closed && st.mem.chan != []
    ensures IsRun(SYSTEM, st, es) && By(t, es)
    ensures After(SYSTEM, st, es)
            == State(st.mem.(chan := st.mem.chan[1..]), st.pcs[t := Holding(st.mem.chan[0])])
  {
    var st1 := Apply(st, Event(t, Advance));
    var st2 := Apply(st1, Event(t, LimiterOk));
    assert st2.pcs == st.pcs[t := AcqSelect];
    es := SoloTake(st2, t);
    assert st2.pcs[t := Holding(st.mem.chan[0])] == st.pcs[t := Holding(st.mem.chan[0])];
    es := SoloStep(st1, t, LimiterOk, es);
    es := SoloStep(st, t, Advance, es);
  }

  /** On a closed endpoint the next step of an acquire is its last, and touches nothing. */
  lemma ClosedRefuses(st: State, e: Event)
    requires Enabled(st, e) && st.pcs[e.t] == AcqEntry && st.mem.closed
    ensures Apply(st, e) == State(st.mem, st.pcs[e.t := Idle])
  {
  }

  /** A limiter error ends the acquire and touches nothing. */
  lemma LimiterRefuses(st: State, t: Thread) returns (es: seq<Event>)
    requires t in st.pcs && st.pcs[t] == AcqLimiter
    ensures IsRun(SYSTEM, st, es) && By(t, es) && [Event(t, LimiterErr)] <= es
    ensures After(SYSTEM, st, es) == State(st.mem, st.pcs[t := Idle])
  {
    var st1 := Apply(st, Event(t, LimiterErr));
    var st2 := Apply(st1, Event(t, Advance));
    assert st2.pcs == st.pcs[t := Idle];
    es := SoloStep(st1, t, Advance, []);
    es := SoloStep(st, t, LimiterErr, es);
  }

  /** A wait for a session ends with the context, or with the endpoint's closing, and touches nothing. */
  lemma WaitEnds(st: State, t: Thread)
    requires t in st.pcs && st.pcs[t] == AcqSelect
    ensures Enabled(st, Event(t, SelectContext))
    ensures Apply(st, Event(t, SelectContext)) == State(st.mem, st.pcs[t := Idle])
    ensures Enabled(st, Event(t, SelectClosed)) <==> st.mem.closed
    ensures st.mem.closed ==> Apply(st, Event(t, SelectClosed)) == State(st.mem, st.pcs[t := Idle])
  {
  }

  lemma HandFacts(st: State, t: Thread)
    requires Inv(st) && t in st.pcs && Carried(st.pcs[t]).Some?
    ensures var s := Carried(st.pcs[t]).value;
            s in st.mem.closes && st.mem.closes[s] == 0 && |st.mem.chan| < st.mem.capacity
  {
    RoomForHands(st, t);
    assert t in Hands(st.pcs);
  }

  /** An acquire that finds the endpoint closed after it has taken a session closes that session and fails. */
  lemma LateClose(st: State, t: Thread) returns (es: seq<Event>)
    requires Inv(st) && t in st.pcs && st.pcs[t].AcqTaken? && st.mem.closed
    ensures IsRun(SYSTEM, st, es) && By(t, es)
    ensures st.pcs[t].s in st.mem.closes
    ensures After(SYSTEM, st, es) == State(st.mem.(closes := st.mem.closes[st.pcs[t].s := 1]), st.pcs[t := Idle])
  {
    HandFacts(st, t);
    es := SoloReject(st, t);
  }

  lemma SoloReject(st: State, t: Thread) returns (es: seq<Event>)
    requires t in st.pcs && st.pcs[t].AcqTaken? && st.mem.closed
    requires st.pcs[t].s in st.mem.closes && st.mem.closes[st.pcs[t].s] == 0
    ensures IsRun(SYSTEM, st, es) && By(t, es)
    ensures After(SYSTEM, st, es) == State(st.mem.(closes := st.mem.closes[st.pcs[t].s := 1]), st.pcs[t := Idle])
  {
    var st1 := Apply(st, Event(t, Advance));
    var st2 := Apply(st1, Event(t, Advance));
    assert st2.pcs == st.pcs[t := Idle];
    es := SoloStep(st1, t, Advance, []);
    es := SoloStep(st, t, Advance, es);
  }

  /** What becomes of a released session: the back of the channel while the endpoint is open, else it is closed. */
  function Returned(m: Memory, s: Session): Memory {
    if m.closed then m.(closes := m.closes[s := 1]) else m.(chan := m.chan + [s])
  }

  lemma SoloPut(st: State, t: Thread) returns (es: seq<Event>)
    requires t in st.pcs && st.pcs[t].RelTest? && |st.mem.chan| < st.mem.capacity
    requires st.pcs[t].s in st.mem.closes && st.mem.closes[st.pcs[t].s] == 0
    ensures IsRun(SYSTEM, st, es) && By(t, es)
    ensures After(SYSTEM, st, es) == State(Returned(st.mem, st.pcs[t].s).(mu := None), st.pcs[t := Idle])
  {
    var st1 := Apply(st, Event(t, Advance));
    var st2 := Apply(st1, Event(t, Advance));
    var st3 := Apply(st2, Event(t, Advance));
    assert st3.pcs == st.pcs[t := Idle];
    es := SoloStep(st2, t, Advance, []);
    es := SoloStep(st1, t, Advance, es);
    es := SoloStep(st, t, Advance, es);
  }

  lemma SoloEnter(st: State, t: Thread) returns (es: seq<Event>)
    requires t in st.pcs && st.pcs[t].Holding? && st.mem.mu == None
    ensures IsRun(SYSTEM, st, es) && By(t, es)
    ensures After(SYSTEM, st, es) == State(st.mem.(mu := Some(t)), st.pcs[t := RelTest(st.pcs[t].s)])
  {
    var st1 := Apply(st, Event(t, CallRelease));
    var st2 := Apply(st1, Event(t, Advance));
    assert st2.pcs == st.pcs[t := RelTest(st.pcs[t].s)];
    es := SoloStep(st1, t, Advance, []);
    es := SoloStep(st, t, CallRelease, es);
  }

  lemma FreeRelease(st: State, t: Thread) returns (es: seq<Event>)
    requires t in st.pcs && st.pcs[t].Holding? && st.mem.mu == None && |st.mem.chan| < st.mem.capacity
    requires st.pcs[t].s in st.mem.closes && st.mem.closes[st.pcs[t].s] == 0
    ensures IsRun(SYSTEM, st, es) && By(t, es)
    ensures After(SYSTEM, st, es) == State(Returned(st.mem, st.pcs[t].s), st.pcs[t := Idle])
  {
    es := SoloEnter(st, t);
    var mid := After(SYSTEM, st, es);
    var rest := SoloPut(mid, t);
    assert mid.pcs[t := Idle] == st.pcs[t := Idle];
    Concat(SYSTEM, st, es, rest);
    es := es + rest;
  }

  /** A release, called by the borrower when nobody is inside sessionMu. */
  lemma SoloRelease(st: State, t: Thread) returns (es: seq<Event>)
    requires Inv(st) && t in st.pcs && st.pcs[t].Holding? && st.mem.mu == None
    ensures IsRun(SYSTEM, st, es) && By(t, es)
    ensures var s := st.pcs[t].s;
            After(SYSTEM, st, es)
            == State(if st.mem.closed then st.mem.(closes := st.mem.closes[s := 1])
                     else st.mem.(chan := st.mem.chan + [s]),
                     st.pcs[t := Idle])
  {
    HandFacts(st, t);
    es := FreeRelease(st, t);
  }

  lemma FrontFacts(st: State)
    requires Inv(st) && st.mem.chan != []
    ensures var s := st.mem.chan[0];
            s in st.mem.closes && st.mem.closes[s] == 0 && |st.mem.chan[1..]| < st.mem.capacity
  {
    DistinctCardinality(st.mem.chan);
    SubsetCardinality(Elements(st.mem.chan), st.mem.created);
    assert st.mem.chan[0] in st.mem.chan;
  }

  lemma FreeBorrowing(st: State, t: Thread) returns (es: seq<Event>)
    requires t in st.pcs && st.pcs[t] == AcqEntry && st.mem.mu == None && !st.mem.closed && st.mem.chan != []
    requires st.mem.chan[0] in st.mem.closes && st.mem.closes[st.mem.chan[0]] == 0
    requires |st.mem.chan[1..]| < st.mem.capacity
    ensures IsRun(SYSTEM, st, es) && By(t, es)
    ensures After(SYSTEM, st, es)
            == State(st.mem.(chan := st.mem.chan[1..] + [st.mem.chan[0]]), st.pcs[t := Idle])
  {
    es := SoloAcquire(st, t);
    var mid := After(SYSTEM, st, es);
    var rest := FreeRelease(mid, t);
    assert mid.pcs[t := Idle] == st.pcs[t := Idle];
    Concat(SYSTEM, st, es, rest);
    es := es + rest;
  }

  /** A whole borrowing on an open endpoint moves one session from the front of the channel to its back. */
  lemma SoloBorrowing(st: State, t: Thread) returns (es: seq<Event>)
    requires Inv(st) && t in st.pcs && st.pcs[t] == Idle && st.mem.published && st.mem.mu == None
    requires !st.mem.closed && st.mem.chan != []
    ensures IsRun(SYSTEM, st, es) && By(t, es)
    ensures After(SYSTEM, st, es) == State(st.mem.(chan := st.mem.chan[1..] + [st.mem.chan[0]]), st.pcs)
  {
    FrontFacts(st);
    var st1 := Apply(st, Event(t, CallAcquire));
    es := FreeBorrowing(st1, t);
    assert st1.pcs[t := Idle] == st.pcs;
    es := SoloStep(st, t, CallAcquire, es);
  }

  // ---------------------------------------------------------------------------
  // Closing

  /** The counts of closings when every session of the channel has been closed once more. */
  function Closed(m: Memory): map<Session, nat> {
    map s | s in m.closes :: m.closes[s] + (if s in m.chan then 1 else 0)
  }

  lemma ClosedFirst(m: Memory)
    requires m.chan != [] && Distinct(m.chan) && m.chan[0] in m.closes
    ensures Closed(m.(chan := m.chan[1..], closes := m.closes[m.chan[0] := m.closes[m.chan[0]] + 1])) == Closed(m)
  {
    assert m.chan == [m.chan[0]] + m.chan[1..];
    assert m.chan[0] !in m.chan[1..];
    assert forall s :: s != m.chan[0] ==> (s in m.chan[1..] <==> s in m.chan);
  }

  lemma SoloDrop(st: State, t: Thread) returns (es: seq<Event>, mid: State)
    requires t in st.pcs && st.pcs[t] == ClsDrain && st.mem.chan != [] && st.mem.chan[0] in st.mem.closes
    ensures mid == State(st.mem.(chan := st.mem.chan[1..],
                                 closes := st.mem.closes[st.mem.chan[0] := st.mem.closes[st.mem.chan[0]] + 1]), st.pcs)
    ensures IsRun(SYSTEM, st, es) && By(t, es) && After(SYSTEM, st, es) == mid
  {
    var st1 := Apply(st, Event(t, Advance));
    mid := Apply(st1, Event(t, Advance));
    assert mid.pcs == st.pcs;
    es := SoloStep(st1, t, Advance, []);
    es := SoloStep(st, t, Advance, es);
  }

  lemma {:induction false} SoloDrain(st: State, t: Thread) returns (es: seq<Event>)
    requires t in st.pcs && st.pcs[t] == ClsDrain && Distinct(st.mem.chan)
    requires forall s :: s in st.mem.chan ==> s in st.mem.closes
    ensures IsRun(SYSTEM, st, es) && By(t, es)
    ensures After(SYSTEM, st, es) == State(st.mem.(chan := [], closes := Closed(st.mem)), st.pcs[t := ClsUnlock])
    decreases |st.mem.chan|
  {
    if st.mem.chan == [] {
      assert Closed(st.mem) == st.mem.closes;
      es := SoloStep(st, t, Advance, []);
    } else {
      var mid;
      es, mid := SoloDrop(st, t);
      ClosedFirst(st.mem);
      var rest := SoloDrain(mid, t);
      Concat(SYSTEM, st, es, rest);
      es := es + rest;
    }
  }

  lemma SoloUnlock(st: State, t: Thread) returns (es: seq<Event>)
    requires t in st.pcs && st.pcs[t] == ClsUnlock
    ensures IsRun(SYSTEM, st, es) && By(t, es)
    ensures After(SYSTEM, st, es) == State(st.mem.(mu := None, once := Done), st.pcs[t := Idle])
  {
    es := SoloStep(st, t, Advance, []);
  }

  lemma SoloOnce(st: State, t: Thread) returns (es: seq<Event>)
    requires t in st.pcs && st.pcs[t] == ClsOnce && st.mem.once == Fresh
    ensures IsRun(SYSTEM, st, es) && By(t, es)
    ensures After(SYSTEM, st, es) == State(st.mem.(once := Running(t)), st.pcs[t := ClsLock])
  {
    var st1 := Apply(st, Event(t, Advance));
    var st2 := Apply(st1, Event(t, Advance));
    assert st2.pcs == st.pcs[t := ClsLock];
    es := SoloStep(st1, t, Advance, []);
    es := SoloStep(st, t, Advance, es);
  }

  lemma SoloFlag(st: State, t: Thread) returns (es: seq<Event>)
    requires t in st.pcs && st.pcs[t] == ClsLock && st.mem.mu == None
    ensures IsRun(SYSTEM, st, es) && By(t, es)
    ensures After(SYSTEM, st, es) == State(st.mem.(mu := Some(t), closed := true), st.pcs[t := ClsDrain])
  {
    var st1 := Apply(st, Event(t, Advance));
    var st2 := Apply(st1, Event(t, Advance));
    assert st2.pcs == st.pcs[t := ClsDrain];
    es := SoloStep(st1, t, Advance, []);
    es := SoloStep(st, t, Advance, es);
  }

  lemma SoloShut(st: State, t: Thread) returns (es: seq<Event>)
    requires t in st.pcs && st.pcs[t] == ClsDrain && Distinct(st.mem.chan)
    requires forall s :: s in st.mem.chan ==> s in st.mem.closes
    ensures IsRun(SYSTEM, st, es) && By(t, es)
    ensures After(SYSTEM, st, es)
            == State(st.mem.(chan := [], closes := Closed(st.mem), mu := None, once := Done), st.pcs[t := Idle])
  {
    es := SoloDrain(st, t);
    var mid := After(SYSTEM, st, es);
    assert mid.pcs[t := Idle] == st.pcs[t := Idle];
    var last := SoloUnlock(mid, t);
    Concat(SYSTEM, st, es, last);
    es := es + last;
  }

  lemma FreeClose(st: State, t: Thread) returns (es: seq<Event>)
    requires t in st.pcs && st.pcs[t] == ClsOnce && st.mem.once == Fresh && st.mem.mu == None
    requires Distinct(st.mem.chan) && forall s :: s in st.mem.chan ==> s in st.mem.closes
    ensures IsRun(SYSTEM, st, es) && By(t, es)
    ensures After(SYSTEM, st, es)
            == State(st.mem.(closed := true, chan := [], closes := Closed(st.mem), once := Done), st.pcs[t := Idle])
  {
    var first := SoloOnce(st, t);
    var st1 := After(SYSTEM, st, first);
    var second := SoloFlag(st1, t);
    var st2 := After(SYSTEM, st1, second);
    assert Closed(st2.mem) == Closed(st.mem) && st2.pcs[t := Idle] == st.pcs[t := Idle];
    var third := SoloShut(st2, t);
    Concat(SYSTEM, st1, second, third);
    Concat(SYSTEM, st, first, second + third);
    es := first + (second + third);
  }

  lemma ChannelFacts(m: Memory, hands: map<Thread, Session>)
    requires Owned(m, hands)
    ensures Distinct(m.chan) && forall s :: s in m.chan ==> s in m.closes && m.closes[s] == 0
  {
  }

  /** The first Close, run alone: the endpoint is closed and exactly the idle sessions have been closed, each once. */
  lemma SoloClose(st: State, t: Thread) returns (es: seq<Event>)
    requires Inv(st) && t in st.pcs && st.pcs[t] == Idle && st.mem.published
    requires st.mem.once == Fresh && st.mem.mu == None
    ensures IsRun(SYSTEM, st, es) && By(t, es)
    ensures var end := After(SYSTEM, st, es);
            && end.mem == st.mem.(closed := true, chan := [], closes := end.mem.closes, once := Done)
            && end.mem.closes.Keys == st.mem.closes.Keys
            && (forall s :: s in st.mem.closes ==>
                  end.mem.closes[s] == if s in st.mem.chan then 1 else st.mem.closes[s])
            && end.pcs == st.pcs
  {
    ChannelFacts(st.mem, Hands(st.pcs));
    var called := Apply(st, Event(t, CallClose));
    es := FreeClose(called, t);
    assert called.pcs[t := Idle] == st.pcs;
    es := SoloStep(st, t, CallClose, es);
  }

  /** No Close returns before the first has emptied the channel. */
  lemma CloseReturnsDone(st: State, e: Event)
    requires Inv(st) && Enabled(st, e) && st.pcs[e.t] == ClsOnce && Apply(st, e).pcs[e.t] == Idle
    ensures st.mem.once == Done && st.mem.closed && st.mem.chan == []
  {
  }

  /** A later Close does nothing. */
  lemma CloseTwice(st: State, e: Event)
    requires Enabled(st, e) && st.pcs[e.t] == ClsOnce && st.mem.once == Done
    ensures Apply(st, e) == State(st.mem, st.pcs[e.t := Idle])
  {
  }

  // ---------------------------------------------------------------------------
  // Construction

  lemma SoloMake(st: State, b: Thread, s: Session) returns (es: seq<Event>, mid: State)
    requires b in st.pcs && st.pcs[b] == Building && |st.mem.chan| < st.mem.capacity && s !in st.mem.created
    ensures mid == State(st.mem.(chan := st.mem.chan + [s], created := st.mem.created + {s},
                                 closes := st.mem.closes[s := 0]), st.pcs)
    ensures IsRun(SYSTEM, st, es) && By(b, es) && After(SYSTEM, st, es) == mid
  {
    var st1 := Apply(st, Event(b, FactoryOk(s)));
    mid := Apply(st1, Event(b, Advance));
    assert mid.pcs == st.pcs;
    es := SoloStep(st1, b, Advance, []);
    es := SoloStep(st, b, FactoryOk(s), es);
  }

  /** The builder puts the sessions that the factory makes into the channel, in order. */
  lemma {:induction false} SoloFill(st: State, builder: Thread, made: seq<Session>) returns (es: seq<Event>)
    requires Init(st, builder) && |made| <= st.mem.capacity && Distinct(made)
    ensures IsRun(SYSTEM, st, es) && By(builder, es)
    ensures var end := After(SYSTEM, st, es);
            && end.pcs == st.pcs
            && end.mem == st.mem.(chan := made, created := Elements(made), closes := end.mem.closes)
            && end.mem.closes.Keys == Elements(made) && (forall s :: s in end.mem.closes ==> end.mem.closes[s] == 0)
    decreases |made|
  {
    if made == [] {
      es := [];
    } else {
      var n := |made| - 1;
      assert made == made[..n] + [made[n]];
      assert Elements(made) == Elements(made[..n]) + {made[n]};
      es := SoloFill(st, builder, made[..n]);
      var more, mid := SoloMake(After(SYSTEM, st, es), builder, made[n]);
      Concat(SYSTEM, st, es, more);
      es := es + more;
    }
  }

  /** With a full pool of sessions the endpoint is handed out, open and with all of them idle. */
  lemma SoloBuild(st: State, builder: Thread, made: seq<Session>) returns (es: seq<Event>)
    requires Init(st, builder) && |made| == st.mem.capacity && Distinct(made)
    ensures IsRun(SYSTEM, st, es) && By(builder, es)
    ensures var end := After(SYSTEM, st, es);
            && end.mem.published && !end.mem.closed && end.mem.chan == made && end.mem.created == Elements(made)
            && end.mem.mu == None && end.mem.once == Fresh && end.pcs == st.pcs[builder := Idle]
  {
    es := SoloFill(st, builder, made);
    var full := After(SYSTEM, st, es);
    var last := SoloStep(full, builder, Advance, []);
    Concat(SYSTEM, st, es, last);
    es := es + last;
  }

  lemma Abandoned(st: State, b: Thread) returns (es: seq<Event>)
    requires b in st.pcs && st.pcs[b] == Building && |st.mem.chan| < st.mem.capacity
    requires st.mem.once == Fresh && st.mem.mu == None
    requires Distinct(st.mem.chan) && forall s :: s in st.mem.chan ==> s in st.mem.closes
    ensures IsRun(SYSTEM, st, es) && By(b, es)
    ensures After(SYSTEM, st, es)
            == State(st.mem.(closed := true, chan := [], closes := Closed(st.mem), once := Done), st.pcs[b := Idle])
  {
    var failed := Apply(st, Event(b, FactoryErr));
    es := FreeClose(failed, b);
    assert st.pcs[b := Idle] == failed.pcs[b := Idle];
    es := SoloStep(st, b, FactoryErr, es);
  }

  /** When the factory fails, what it made before is closed, once, and nobody gets the endpoint. */
  lemma SoloBuildFails(st: State, builder: Thread, made: seq<Session>) returns (es: seq<Event>)
    requires Init(st, builder) && |made| < st.mem.capacity && Distinct(made)
    ensures IsRun(SYSTEM, st, es) && By(builder, es)
    ensures var end := After(SYSTEM, st, es);
            && !end.mem.published && end.mem.closed && end.mem.chan == [] && end.mem.closes.Keys == Elements(made)
            && (forall s :: s in made ==> s in end.mem.closes && end.mem.closes[s] == 1)
            && end.pcs == st.pcs[builder := Idle]
  {
    es := SoloFill(st, builder, made);
    var close := Abandoned(After(SYSTEM, st, es), builder);
    Concat(SYSTEM, st, es, close);
    es := es + close;
  }
}
