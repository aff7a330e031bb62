/**
  One request on one pool, as a function of what the world does during it: which endpoint each attempt gets and
  how the attempt ends, what it leaves behind, and after which one the retry loop stops (client.go:144-244).
*/
module Requests {
  import opened Basics
  import opened Retry
  import opened Selection
  import opened Tracker
  import opened Vitals
  import opened Weighting
  import MovingAverage
  import Pools

  /**
    What the world does during one attempt: the random draw, the clock readings of the selection and the time
    of the callback's return; whether the rate limiter passes, whether the context has ended while waiting for
    a session, how a ready select falls and whether the context was cancelled rather than timed out; what the
    callback returns and how long it takes; and whether the context ends before the next attempt.
  */
  datatype Weather = Weather(
    draw: real, readings: nat -> int, done: int,
    passes: bool, ended: bool, preferContext: bool, canceled: bool,
    resp: Option<Response>, err: Option<int>, elapsed: nat,
    contextOver: bool)

  /** The state of an endpoint that a request must leave balanced: idle sessions, and what is counted per callback. */
  datatype Books = Books(idle: multiset<nat>, closed: bool, total: nat, successes: nat, latency: int)

  /** All that a request reads or changes of a pool: its endpoints' health and books, the domain log, the origin. */
  datatype Standing = Standing(vitals: seq<Vitals>, books: seq<Books>, log: seq<Block>, index: nat) {
    predicate Even() {
      |vitals| == |books|
    }
  }

  // ---------------------------------------------------------------------------
  // Choosing an endpoint

  function ScoreOf(v: Vitals, b: Books): Option<real> {
    if v.Available() then Some(Base(Weight(true, b.successes, b.total, b.latency))) else None
  }

  function ScoresOf(now: Standing): (scores: seq<Option<real>>)
    requires now.Even()
    ensures |scores| == |now.vitals|
    ensures forall p :: 0 <= p < |scores| ==> scores[p] == ScoreOf(now.vitals[p], now.books[p])
  {
    seq(|now.vitals|, p requires 0 <= p < |now.vitals| => ScoreOf(now.vitals[p], now.books[p]))
  }

  /** Where the scan starts. */
  function StartOf(now: Standing): nat {
    if |now.vitals| > 1 then Origin(Counter(now.index, 1), |now.vitals|) else 0
  }

  /** What blocks by a domain count for: the domain, how long they last and the factor. */
  datatype BlockPolicy = BlockPolicy(domain: string, ttl: int, penalty: real)

  /** The weights the scan finds. */
  function SlotsOf(policy: BlockPolicy, now: Standing, w: Weather): (slots: seq<Option<real>>)
    requires now.Even()
    ensures |slots| == |now.vitals|
  {
    Pools.SeenFrom(ScoresOf(now), now.log, policy.ttl, policy.penalty, policy.domain,
                   Pools.AtPosition(w.readings, StartOf(now), |now.vitals|))
  }

  /** The weighted choice of the attempt's draw. */
  function Choice(policy: BlockPolicy, now: Standing, w: Weather): (chosen: Option<nat>)
    requires now.Even()
  {
    Choose(SlotsOf(policy, now, w), StartOf(now), w.draw)
  }

  /** On an endpoint in service, or on none if there is none. */
  predicate Suits(vs: seq<Vitals>, chosen: Option<nat>) {
    match chosen
    case Some(p) => p < |vs| && vs[p].Available()
    case None => forall p :: 0 <= p < |vs| ==> !vs[p].Available()
  }

  lemma ScoresPositive(now: Standing)
    requires now.Even()
    ensures Weighted(ScoresOf(now))
  {
  }

  lemma ChoiceSuits(policy: BlockPolicy, now: Standing, w: Weather)
    requires now.Even() && policy.penalty > 0.0 && 0.0 <= w.draw < 1.0
    ensures Suits(now.vitals, Choice(policy, now, w))
  {
    var when := Pools.AtPosition(w.readings, StartOf(now), |now.vitals|);
    var scores, slots := ScoresOf(now), SlotsOf(policy, now, w);
    ScoresPositive(now);
    Pools.SeenWeighted(scores, now.log, policy.ttl, policy.penalty, policy.domain, when);
    AlwaysChooses(slots, StartOf(now), w.draw);
    assert forall p :: 0 <= p < |slots| ==> (slots[p].Some? <==> scores[p].Some?);
    assert forall p :: 0 <= p < |slots| ==> (scores[p].Some? <==> now.vitals[p].Available());
  }

  // ---------------------------------------------------------------------------
  // One attempt

  /** What stays fixed during a request; `choose` is how an endpoint is selected. */
  datatype Terms = Terms(
    detector: Detector, threshold: nat, domain: string, choose: (Standing, Weather) -> Option<nat>)

  /** Selection as the pool does it. */
  function ByWeight(policy: BlockPolicy): (Standing, Weather) -> Option<nat> {
    (now: Standing, w: Weather) => if now.Even() then Choice(policy, now, w) else None
  }

  /** How an attempt on an endpoint ends. Nobody else gives a session back, so a wait ends with the context. */
  function AttemptOf(b: Books, p: nat, w: Weather): Attempt {
    if b.closed then NotAcquired(p, ClientClosed)
    else if !w.passes then NotAcquired(p, RateLimited(w.canceled))
    else if |b.idle| == 0 || (w.ended && w.preferContext) then NotAcquired(p, ContextEnded(w.canceled))
    else Called(p, w.resp, w.err)
  }

  function AttemptOn(now: Standing, chosen: Option<nat>, w: Weather): Attempt
    requires now.Even() && Suits(now.vitals, chosen)
  {
    match chosen
    case None => NoEndpoint
    case Some(p) => AttemptOf(now.books[p], p, w)
  }

  /** The books after an attempt. */
  function Enter(d: Detector, bs: seq<Books>, a: Attempt, elapsed: nat): (bs': seq<Books>)
    ensures |bs'| == |bs|
  {
    if a.Called? && a.p < |bs| then
      bs[a.p := bs[a.p].(total := bs[a.p].total + 1,
                         successes := bs[a.p].successes + (if Good(d, a) then 1 else 0),
                         latency := MovingAverage.Update(bs[a.p].latency, elapsed))]
    else bs
  }

  function BlockOf(d: Detector, domain: string, a: Attempt, at: int): seq<Block> {
    if Blocked(d, a) && domain != "" then [Block(Key(a.p + 1, domain), at)] else []
  }

  function NextIndex(n: nat, index: nat): nat {
    if n > 1 then Counter(index, 1) else index
  }

  /** What an attempt leaves behind. */
  function Left(terms: Terms, now: Standing, a: Attempt, w: Weather): (next: Standing)
    ensures |next.vitals| == |now.vitals| && |next.books| == |now.books|
  {
    Standing(Replay(terms.detector, terms.threshold, now.vitals, a), Enter(terms.detector, now.books, a, w.elapsed),
             now.log + BlockOf(terms.detector, terms.domain, a, w.done), NextIndex(|now.vitals|, now.index))
  }

  // ---------------------------------------------------------------------------
  // A whole request

  /** A request on one pool: what is fixed, what the world does during it, and how the pool stands before. */
  datatype Story = Story(terms: Terms, ws: seq<Weather>, start: Standing) {
    predicate Valid() {
      start.Even() && start.index < TWO_64
    }
  }

  /** How the pool stands after the attempts of a trace. */
  ghost function Told(story: Story, trace: seq<Attempt>): (now: Standing)
    requires |trace| <= |story.ws|
    ensures |now.vitals| == |story.start.vitals| && |now.books| == |story.start.books|
  {
    if trace == [] then story.start
    else
      var n := |trace| - 1;
      Left(story.terms, Told(story, trace[..n]), trace[n], story.ws[n])
  }

  /** Every attempt is the one that the pool's standing and the world at that step determine. */
  ghost predicate Plausible(story: Story, trace: seq<Attempt>)
    requires |trace| <= |story.ws| && story.start.Even()
  {
    trace == [] ||
    (var n := |trace| - 1;
     var now, w := Told(story, trace[..n]), story.ws[n];
     && Plausible(story, trace[..n])
     && Happens(story.terms, now, w, trace[n]))
  }

  /** The attempt is made on the endpoint chosen, which is in service. */
  predicate Happens(terms: Terms, now: Standing, w: Weather, a: Attempt)
    requires now.Even()
  {
    Suits(now.vitals, terms.choose(now, w)) && a == AttemptOn(now, terms.choose(now, w), w)
  }

  /**
    Whether the loop ends after its n-th attempt, and with what error: on success, on a final error, at
    MaxAttempts, or because the context ends during the wait.
  */
  function Verdict(d: Detector, maxAttempts: nat, n: nat, a: Attempt, contextOver: bool): Option<Option<Error>> {
    var e := ErrorOf(d, a);
    if e.None? || Final(d, e.value) || n == maxAttempts then Some(e)
    else if contextOver then Some(Some(ContextCause))
    else None
  }

  function VerdictAt(story: Story, maxAttempts: nat, trace: seq<Attempt>, i: nat): Option<Option<Error>>
    requires i < |trace| <= |story.ws|
  {
    Verdict(story.terms.detector, maxAttempts, i + 1, trace[i], story.ws[i].contextOver)
  }

  /** The loop has gone on after every attempt but the last, and that one has the given verdict. */
  ghost predicate Course(story: Story, maxAttempts: nat, trace: seq<Attempt>, verdict: Option<Option<Error>>)
    requires |trace| <= |story.ws|
  {
    && (forall i :: 0 <= i < |trace| - 1 ==> VerdictAt(story, maxAttempts, trace, i) == None)
    && verdict == if trace == [] then None else VerdictAt(story, maxAttempts, trace, |trace| - 1)
  }

  /**
    A request that has ended with `failure`, or well. `over` says that the context had ended before the first
    attempt.
  */
  ghost predicate Request(story: Story, maxAttempts: nat, over: bool, trace: seq<Attempt>, failure: Option<Error>) {
    && story.Valid() && |trace| <= maxAttempts && |trace| <= |story.ws|
    && Plausible(story, trace)
    && if over then trace == [] && failure == Some(ContextCause)
       else Course(story, maxAttempts, trace, Some(failure))
  }

  lemma TellMore(story: Story, trace: seq<Attempt>, a: Attempt)
    requires |trace| < |story.ws| && story.start.Even() && Plausible(story, trace)
    requires Happens(story.terms, Told(story, trace), story.ws[|trace|], a)
    ensures Plausible(story, trace + [a])
    ensures Told(story, trace + [a]) == Left(story.terms, Told(story, trace), a, story.ws[|trace|])
  {
    assert (trace + [a])[..|trace|] == trace;
  }

  lemma CourseMore(story: Story, maxAttempts: nat, trace: seq<Attempt>, a: Attempt)
    requires |trace| < |story.ws| && Course(story, maxAttempts, trace, None)
    ensures Course(story, maxAttempts, trace + [a],
                   Verdict(story.terms.detector, maxAttempts, |trace| + 1, a, story.ws[|trace|].contextOver))
  {
    forall i | 0 <= i < |trace| ensures VerdictAt(story, maxAttempts, trace + [a], i) == None {
      assert VerdictAt(story, maxAttempts, trace, i) == None;
    }
  }

  /** Requests end as the retry loop's contract says; on the context exactly when it ends before or between attempts. */
  lemma RequestEnds(story: Story, maxAttempts: nat, over: bool, trace: seq<Attempt>, failure: Option<Error>)
    requires Request(story, maxAttempts, over, trace, failure)
    ensures Ended(story.terms.detector, maxAttempts, trace, failure)
    ensures !over ==> trace != []
    ensures failure == Some(ContextCause) <==>
              over || (|trace| < maxAttempts && Retryable(story.terms.detector, trace[|trace| - 1])
                       && story.ws[|trace| - 1].contextOver)
  {
    if !over {
      var d := story.terms.detector;
      assert ErrorOf(d, trace[|trace| - 1]) != Some(ContextCause);
      forall i | 0 <= i < |trace| - 1 ensures Retryable(d, trace[i]) {
        assert VerdictAt(story, maxAttempts, trace, i) == None;
      }
    }
  }

  /**
    Which attempts are followed by another: exactly those before MaxAttempts behind which the context goes on and
    that were refused by a closed endpoint, by a limiter or a wait for a session not cancelled, or whose callback
    returned a blocking response or an error that is not a cancellation.
  */
  lemma RetriesIff(story: Story, maxAttempts: nat, trace: seq<Attempt>, failure: Option<Error>, i: nat)
    requires Request(story, maxAttempts, false, trace, failure) && i < |trace|
    ensures i + 1 < |trace| <==>
              && i + 1 < maxAttempts && !story.ws[i].contextOver
              && match trace[i]
                 case NoEndpoint => false
                 case NotAcquired(_, ClientClosed) => true
                 case NotAcquired(_, RateLimited(canceled)) => !canceled
                 case NotAcquired(_, ContextEnded(canceled)) => !canceled
                 case Called(_, resp, None) => resp.Some? && story.terms.detector.blockedResponse(resp.value)
                 case Called(_, _, Some(e)) => !story.terms.detector.final(e)
  {
    RetriedOn(story.terms.detector, trace[i]);
    assert i + 1 < |trace| ==> VerdictAt(story, maxAttempts, trace, i) == None;
    assert i + 1 == |trace| ==> VerdictAt(story, maxAttempts, trace, i) == Some(failure);
  }

  /** The error a request ends on when the context does not end it. */
  lemma EndsOn(story: Story, maxAttempts: nat, trace: seq<Attempt>, failure: Option<Error>)
    requires Request(story, maxAttempts, false, trace, failure) && failure != Some(ContextCause)
    ensures trace != []
    ensures var d := story.terms.detector;
            failure == match trace[|trace| - 1]
                       case NoEndpoint => Some(AllProxiesBlocked)
                       case NotAcquired(_, why) => Some(Acquiring(why))
                       case Called(_, resp, None) =>
                         if resp.Some? && d.blockedResponse(resp.value)
                         then Some(BlockingResponse(resp.value))
                         else None
                       case Called(_, _, Some(e)) =>
                         if d.blockedError(e) then Some(ProxyBlocked(e)) else Some(Callback(e))
  {
    assert VerdictAt(story, maxAttempts, trace, |trace| - 1) == Some(failure);
  }

  lemma {:induction false} PlausiblePrefix(story: Story, trace: seq<Attempt>, n: nat)
    requires story.start.Even() && n <= |trace| <= |story.ws| && Plausible(story, trace)
    ensures Plausible(story, trace[..n])
    decreases |trace|
  {
    if n < |trace| {
      PlausiblePrefix(story, trace[..|trace| - 1], n);
      assert trace[..|trace| - 1][..n] == trace[..n];
    } else {
      assert trace[..n] == trace;
    }
  }

  lemma SameFront(trace: seq<Attempt>, other: seq<Attempt>, n: nat)
    requires |trace| == |other| == n + 1 && trace[..n] == other[..n] && trace[n] == other[n]
    ensures trace == other
  {
    assert trace == trace[..n] + [trace[n]] && other == other[..n] + [other[n]];
  }

  lemma OneAttempt(terms: Terms, now: Standing, w: Weather, a: Attempt, b: Attempt)
    requires now.Even() && Happens(terms, now, w, a) && Happens(terms, now, w, b)
    ensures a == b
  {
  }

  lemma {:induction false} PlausibleTwins(story: Story, trace: seq<Attempt>, other: seq<Attempt>)
    requires story.start.Even() && |trace| == |other| <= |story.ws|
    requires Plausible(story, trace) && Plausible(story, other)
    ensures trace == other
    decreases |trace|
  {
    if trace != [] {
      var n := |trace| - 1;
      var front := trace[..n];
      PlausibleTwins(story, front, other[..n]);
      OneAttempt(story.terms, Told(story, front), story.ws[n], trace[n], other[n]);
      SameFront(trace, other, n);
    }
  }

  /** What the world does determines the request: its attempts one by one, their number and the ending. */
  lemma RequestDetermined(story: Story, maxAttempts: nat, over: bool,
                          trace: seq<Attempt>, failure: Option<Error>, trace': seq<Attempt>, failure': Option<Error>)
    requires Request(story, maxAttempts, over, trace, failure) && Request(story, maxAttempts, over, trace', failure')
    ensures trace == trace' && failure == failure'
  {
    if !over {
      if |trace| <= |trace'| {
        SameEnd(story, maxAttempts, trace, failure, trace', failure');
      } else {
        SameEnd(story, maxAttempts, trace', failure', trace, failure);
      }
    }
  }

  lemma SameEnd(story: Story, maxAttempts: nat,
                trace: seq<Attempt>, failure: Option<Error>, longer: seq<Attempt>, failure': Option<Error>)
    requires |trace| <= |longer| && Request(story, maxAttempts, false, trace, failure)
    requires Request(story, maxAttempts, false, longer, failure')
    ensures trace == longer && failure == failure'
  {
    PlausiblePrefix(story, longer, |trace|);
    PlausibleTwins(story, trace, longer[..|trace|]);
    var n := |trace| - 1;
    assert trace[n] == longer[n];
    assert VerdictAt(story, maxAttempts, longer, n) == VerdictAt(story, maxAttempts, trace, n) == Some(failure);
  }

  // ---------------------------------------------------------------------------
  // What a trace tells

  /** The latencies recorded for the endpoint at position p, oldest first. */
  function SamplesOf(ws: seq<Weather>, trace: seq<Attempt>, p: nat): seq<int>
    requires |trace| <= |ws|
  {
    if trace == [] then []
    else
      var n := |trace| - 1;
      SamplesOf(ws, trace[..n], p) + (if trace[n].Called? && trace[n].p == p then [ws[n].elapsed] else [])
  }

  lemma AverageAppend(start: int, samples: seq<int>, ns: int)
    ensures MovingAverage.Average(start, samples + [ns])
            == MovingAverage.Update(MovingAverage.Average(start, samples), ns)
    ensures MovingAverage.Average(start, samples + []) == MovingAverage.Average(start, samples)
  {
    assert (samples + [ns])[..|samples|] == samples;
    assert samples + [] == samples;
  }

  /** The books of the endpoint at position p after the calls of a trace. */
  function BooksAfter(story: Story, trace: seq<Attempt>, p: nat): Books
    requires |trace| <= |story.ws| && p < |story.start.books|
  {
    var b := story.start.books[p];
    b.(total := b.total + CallsTo(trace, p),
       successes := b.successes + GoodCallsTo(story.terms.detector, trace, p),
       latency := MovingAverage.Average(b.latency, SamplesOf(story.ws, trace, p)))
  }

  lemma BooksMove(story: Story, trace: seq<Attempt>, p: nat)
    requires 0 < |trace| <= |story.ws| && p < |story.start.books| && story.start.Even()
    requires Told(story, trace[..|trace| - 1]).books[p] == BooksAfter(story, trace[..|trace| - 1], p)
    ensures Told(story, trace).books[p] == BooksAfter(story, trace, p)
  {
    var n := |trace| - 1;
    AverageAppend(story.start.books[p].latency, SamplesOf(story.ws, trace[..n], p), story.ws[n].elapsed);
  }

  lemma CounterNext(c: nat, k: nat)
    ensures Counter(Counter(c, k), 1) == Counter(c, k + 1)
  {
  }

  /** What a plausible trace says about the endpoints' health and books and about the origin. */
  lemma {:induction false} TraceMeaning(story: Story, trace: seq<Attempt>)
    requires story.Valid() && |trace| <= |story.ws| && Plausible(story, trace)
    ensures FitsAll(story.terms.detector, story.terms.threshold, story.start.vitals, trace)
    ensures Told(story, trace).vitals
            == ReplayAll(story.terms.detector, story.terms.threshold, story.start.vitals, trace)
    ensures forall p :: 0 <= p < |story.start.books| ==> Told(story, trace).books[p] == BooksAfter(story, trace, p)
    ensures Told(story, trace).index
            == if |story.start.vitals| > 1 then Counter(story.start.index, |trace|) else story.start.index
    decreases |trace|
  {
    if trace != [] {
      var n := |trace| - 1;
      TraceMeaning(story, trace[..n]);
      forall p | 0 <= p < |story.start.books| ensures Told(story, trace).books[p] == BooksAfter(story, trace, p) {
        BooksMove(story, trace, p);
      }
      CounterNext(story.start.index, n);
    }
  }

  /**
    What a trace adds to the domain's memory: in order, one block for each attempt whose callback was blocked, of the
    endpoint it ran on, at the time it returned; none without a domain.
  */
  lemma {:induction false} LogMeaning(story: Story, trace: seq<Attempt>) returns (at: seq<nat>)
    requires |trace| <= |story.ws|
    ensures forall j, k :: 0 <= j < k < |at| ==> at[j] < at[k]
    ensures forall k :: 0 <= k < |at| ==> at[k] < |trace|
    ensures forall i: nat :: i < |trace| ==>
              (i in at <==>
                 && story.terms.domain != "" && trace[i].Called?
                 && match trace[i].err
                    case Some(e) => story.terms.detector.blockedError(e)
                    case None =>
                      trace[i].resp.Some? && story.terms.detector.blockedResponse(trace[i].resp.value))
    ensures story.start.log <= Told(story, trace).log
    ensures |Told(story, trace).log| == |story.start.log| + |at|
    ensures forall k :: 0 <= k < |at| && at[k] < |trace| ==>
              Told(story, trace).log[|story.start.log| + k]
              == Block(Key(trace[at[k]].p + 1, story.terms.domain), story.ws[at[k]].done)
    decreases |trace|
  {
    at := [];
    if trace != [] {
      var n := |trace| - 1;
      var front := trace[..n];
      at := LogMeaning(story, front);
      assert forall i: nat :: i < n ==> front[i] == trace[i];
      var more := BlockOf(story.terms.detector, story.terms.domain, trace[n], story.ws[n].done);
      BlockNoted(story.terms.detector, story.terms.domain, trace[n], story.ws[n].done);
      assert Told(story, trace).log == Told(story, front).log + more;
      if more != [] {
        assert forall i: nat :: i in at + [n] <==> i in at || i == n;
        at := at + [n];
      }
    }
  }

  lemma BlockNoted(d: Detector, domain: string, a: Attempt, at: int)
    ensures BlockOf(d, domain, a, at)
            == if domain != "" && a.Called?
                  && (match a.err
                      case Some(e) => d.blockedError(e)
                      case None => a.resp.Some? && d.blockedResponse(a.resp.value))
               then [Block(Key(a.p + 1, domain), at)] else []
  {
  }

  /**
    A blocked attempt makes its endpoint less likely for the domain: while the block lasts its share of the next
    draws is strictly lower than it would be without, and every other candidate's strictly higher, unless the domain
    held a block against the endpoint already.
  */
  lemma BlockLowersShare(policy: BlockPolicy, terms: Terms, now: Standing, a: Attempt, w: Weather,
                         next: Weather, q: nat)
    requires now.Even() && terms.domain == policy.domain && policy.domain != "" && 0.0 < policy.penalty < 1.0
    requires Blocked(terms.detector, a) && a.p < |now.vitals| && q < |now.vitals| && q != a.p
    requires var after := Left(terms, now, a, w);
             && after.vitals[a.p].Available() && after.vitals[q].Available()
             && Pools.AtPosition(next.readings, StartOf(after), |after.vitals|)(a.p) <= w.done + policy.ttl
    ensures var after := Left(terms, now, a, w);
            var slots, slots' := SlotsOf(policy, after.(log := now.log), next), SlotsOf(policy, after, next);
            var lookup := Pools.AtPosition(next.readings, StartOf(after), |after.vitals|)(a.p);
            if PenaltyAt(now.log, policy.ttl, policy.penalty, Key(a.p + 1, policy.domain), lookup) == 1.0
            then 0.0 < Share(slots', a.p) < Share(slots, a.p) && 0.0 < Share(slots, q) < Share(slots', q)
            else slots' == slots
  {
    var after := Left(terms, now, a, w);
    var when := Pools.AtPosition(next.readings, StartOf(after), |after.vitals|);
    ScoresPositive(after);
    assert ScoresOf(after.(log := now.log)) == ScoresOf(after);
    Pools.DomainBlockShifts(ScoresOf(after), now.log, policy.ttl, policy.penalty, a.p, q, policy.domain, w.done, when);
  }

  /** Every endpoint is open and has a session to lend. */
  ghost predicate Ready(bs: seq<Books>) {
    forall p :: 0 <= p < |bs| ==> !bs[p].closed && |bs[p].idle| > 0
  }

  /** Endpoints ready to lend stay so, and with no limiter or context in the way every selected one lends. */
  lemma {:induction false} StaysReady(story: Story, trace: seq<Attempt>)
    requires story.start.Even() && |trace| <= |story.ws| && Plausible(story, trace) && Ready(story.start.books)
    ensures Ready(Told(story, trace).books)
    ensures (forall i :: 0 <= i < |story.ws| ==> story.ws[i].passes && !story.ws[i].ended) ==>
              forall i :: 0 <= i < |trace| ==> !trace[i].NotAcquired?
    decreases |trace|
  {
    if trace != [] {
      StaysReady(story, trace[..|trace| - 1]);
    }
  }

  lemma {:induction false} CallbacksAsTold(story: Story, trace: seq<Attempt>)
    requires story.start.Even() && |trace| <= |story.ws| && Plausible(story, trace)
    ensures forall i :: 0 <= i < |trace| && trace[i].Called? ==>
              trace[i].resp == story.ws[i].resp && trace[i].err == story.ws[i].err
    decreases |trace|
  {
    if trace != [] {
      CallbacksAsTold(story, trace[..|trace| - 1]);
    }
  }

  /**
    A request that nothing but blocks can end, every callback returning a blocking response or a blocking error that
    is no cancellation: with sessions to lend and no limiter or context in the way,
    the callback runs exactly min(MaxAttempts, potential) times, whatever the draws, and the request fails
    with ErrAllProxiesBlocked exactly when the potential is the smaller; no endpoint is then left in service.
  */
  lemma BlockedRequest(story: Story, maxAttempts: nat, over: bool, trace: seq<Attempt>, failure: Option<Error>)
    requires Request(story, maxAttempts, over, trace, failure) && failure != Some(ContextCause) && maxAttempts > 0
    requires Ready(story.start.books) && BelowThreshold(story.terms.threshold, story.start.vitals)
    requires forall i :: 0 <= i < |story.ws| ==>
               var w := story.ws[i];
               && w.passes && !w.ended
               && match w.err
                  case None => w.resp.Some? && story.terms.detector.blockedResponse(w.resp.value)
                  case Some(e) => story.terms.detector.blockedError(e) && !story.terms.detector.final(e)
    ensures Calls(trace) == Least(maxAttempts, Potential(story.terms.threshold, story.start.vitals))
    ensures failure == Some(AllProxiesBlocked) <==> Potential(story.terms.threshold, story.start.vitals) < maxAttempts
    ensures failure == Some(AllProxiesBlocked) ==> forall v :: v in Told(story, trace).vitals ==> !v.Available()
  {
    var d, threshold, vs := story.terms.detector, story.terms.threshold, story.start.vitals;
    RequestEnds(story, maxAttempts, over, trace, failure);
    TraceMeaning(story, trace);
    StaysReady(story, trace);
    CallbacksAsTold(story, trace);
    forall i | 0 <= i < |trace| ensures trace[i] == NoEndpoint || (Blocked(d, trace[i]) && Retryable(d, trace[i])) {
      RetriedOn(d, trace[i]);
    }
    assert failure.Some?;
    BlockedRequestLength(d, threshold, maxAttempts, vs, trace, failure.value);
  }
}
