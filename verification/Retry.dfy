/**
  The attempts of one request as a trace, and what a trace means for the endpoints and for the caller
  (client.go:131-244). Responses and callback errors are opaque; how the detector and `errors.Is` classify
  them is arbitrary.
*/
module Retry {
  import opened Basics
  import opened Vitals

  datatype Response = Response(id: int)

  /** Uninterpreted classifications: IsBlocked, IsBlockedError, and whether RetryIf gives up on an error. */
  datatype Detector = Detector(blockedResponse: Response -> bool, blockedError: int -> bool, final: int -> bool)

  datatype Refusal = ClientClosed | RateLimited(canceled: bool) | ContextEnded(canceled: bool)

  datatype Error =
    | AllProxiesBlocked
    | Acquiring(why: Refusal)
    | Callback(e: int)
    | ProxyBlocked(e: int)           // a callback error the detector classifies as blocking, wrapped
    | BlockingResponse(resp: Response)
    | ContextCause
    | NilResponse
    | PoolNotFound
    | AmbiguousPool
    | EndpointNotFound

  /** One attempt: no endpoint to select, no session to borrow, or a callback that returned. */
  datatype Attempt =
    | NoEndpoint
    | NotAcquired(p: nat, why: Refusal)
    | Called(p: nat, resp: Option<Response>, err: Option<int>)

  predicate Blocked(d: Detector, a: Attempt) {
    a.Called? &&
    match a.err
    case Some(e) => d.blockedError(e)
    case None => a.resp.Some? && d.blockedResponse(a.resp.value)
  }

  predicate Good(d: Detector, a: Attempt) {
    a.Called? && a.err == None && !Blocked(d, a)
  }

  /** The error of an attempt, as the retry loop sees it. */
  function ErrorOf(d: Detector, a: Attempt): Option<Error> {
    match a
    case NoEndpoint => Some(AllProxiesBlocked)
    case NotAcquired(_, why) => Some(Acquiring(why))
    case Called(_, resp, Some(e)) => Some(if d.blockedError(e) then ProxyBlocked(e) else Callback(e))
    case Called(_, resp, None) => if Blocked(d, a) then Some(BlockingResponse(resp.value)) else None
  }

  /** No endpoint left, or a cancelled context, ends the retries. */
  predicate Final(d: Detector, e: Error) {
    match e
    case AllProxiesBlocked => true
    case Acquiring(RateLimited(canceled)) => canceled
    case Acquiring(ContextEnded(canceled)) => canceled
    case Callback(c) => d.final(c)
    case ProxyBlocked(c) => d.final(c)
    case _ => false
  }

  predicate Retryable(d: Detector, a: Attempt) {
    ErrorOf(d, a).Some? && !Final(d, ErrorOf(d, a).value)
  }

  /** What may be tried again. */
  lemma RetriedOn(d: Detector, a: Attempt)
    ensures Retryable(d, a) <==>
              match a
              case NoEndpoint => false
              case NotAcquired(_, ClientClosed) => true
              case NotAcquired(_, RateLimited(canceled)) => !canceled
              case NotAcquired(_, ContextEnded(canceled)) => !canceled
              case Called(_, resp, None) => resp.Some? && d.blockedResponse(resp.value)
              case Called(_, _, Some(e)) => !d.final(e)
  {
  }

  // ---------------------------------------------------------------------------
  // What attempts do to the endpoints

  function Replay(d: Detector, threshold: nat, vs: seq<Vitals>, a: Attempt): (vs': seq<Vitals>)
    ensures |vs'| == |vs|
  {
    if a.Called? && a.p < |vs| then
      if Good(d, a) then vs[a.p := vs[a.p].Succeeded()]
      else if Blocked(d, a) then vs[a.p := vs[a.p].Penalised(threshold)]
      else vs
    else vs
  }

  /** A good callback clears its endpoint's failures and tier, a blocked one counts, anything else changes nothing. */
  lemma AttemptEffect(d: Detector, threshold: nat, vs: seq<Vitals>, a: Attempt, q: nat)
    requires q < |vs|
    ensures var blocked := a.Called? &&
                           match a.err
                           case Some(e) => d.blockedError(e)
                           case None => a.resp.Some? && d.blockedResponse(a.resp.value);
            var v, v' := vs[q], Replay(d, threshold, vs, a)[q];
            if a.Called? && a.p == q && blocked then
              && v'.fails == v.fails + 1
              && (if v.fails + 1 >= threshold then v'.health == InCooldown && v'.tier == v.tier + 1
                  else v'.health == v.health && v'.tier == v.tier)
            else if a.Called? && a.p == q && a.err == None then
              v' == Vitals(v.health, 0, 0)
            else
              v' == v
  {
  }

  function ReplayAll(d: Detector, threshold: nat, vs: seq<Vitals>, trace: seq<Attempt>): (vs': seq<Vitals>)
    ensures |vs'| == |vs|
  {
    if trace == [] then vs
    else Replay(d, threshold, ReplayAll(d, threshold, vs, trace[..|trace| - 1]), trace[|trace| - 1])
  }

  /** An attempt works on an available endpoint, and finds none only if there is none. */
  predicate Fits(vs: seq<Vitals>, a: Attempt) {
    if a.NoEndpoint? then forall p :: 0 <= p < |vs| ==> !vs[p].Available()
    else a.p < |vs| && vs[a.p].Available()
  }

  predicate FitsAll(d: Detector, threshold: nat, vs: seq<Vitals>, trace: seq<Attempt>) {
    trace == [] ||
    (FitsAll(d, threshold, vs, trace[..|trace| - 1])
     && Fits(ReplayAll(d, threshold, vs, trace[..|trace| - 1]), trace[|trace| - 1]))
  }

  /** How many callbacks an endpoint saw, and how many of those ended well. */
  function CallsTo(trace: seq<Attempt>, p: nat): nat {
    if trace == [] then 0
    else
      var a := trace[|trace| - 1];
      CallsTo(trace[..|trace| - 1], p) + (if a.Called? && a.p == p then 1 else 0)
  }

  function GoodCallsTo(d: Detector, trace: seq<Attempt>, p: nat): nat {
    if trace == [] then 0
    else
      var a := trace[|trace| - 1];
      GoodCallsTo(d, trace[..|trace| - 1], p) + (if Good(d, a) && a.p == p then 1 else 0)
  }

  // ---------------------------------------------------------------------------
  // What the caller gets

  /** The callback that returned last, if any did. */
  function LastCall(trace: seq<Attempt>): (last: Option<Attempt>)
    ensures last.Some? ==> last.value.Called? && last.value in trace
  {
    if trace == [] then None
    else if trace[|trace| - 1].Called? then Some(trace[|trace| - 1])
    else LastCall(trace[..|trace| - 1])
  }

  /** What DoForDomain returns when the retry loop ended with `failure`. */
  function Outcome(trace: seq<Attempt>, failure: Option<Error>): (Option<Response>, Option<Error>) {
    match LastCall(trace)
    case None => (None, if failure.Some? then failure else Some(NilResponse))
    case Some(a) =>
      match failure
      case None => (a.resp, if a.resp.Some? then None else Some(NilResponse))
      case Some(f) =>
        if a.resp.Some? then (a.resp, failure)
        else if a.err.Some? then (None, Some(Callback(a.err.value)))
        else (None, failure)
  }

  /** A trace the retry loop can leave behind, with the error it ended on. */
  predicate Ended(d: Detector, maxAttempts: nat, trace: seq<Attempt>, failure: Option<Error>) {
    && |trace| <= maxAttempts
    && (forall i :: 0 <= i < |trace| - 1 ==> Retryable(d, trace[i]))
    && match failure
       case None => trace != [] && ErrorOf(d, trace[|trace| - 1]) == None
       case Some(ContextCause) => trace == [] || (Retryable(d, trace[|trace| - 1]) && |trace| < maxAttempts)
       case Some(f) =>
         trace != [] && ErrorOf(d, trace[|trace| - 1]) == Some(f) && (Final(d, f) || |trace| == maxAttempts)
  }

  /** A nil error comes only with the last callback's non-nil, unblocked response, after retryable failures alone. */
  lemma NilErrorMeansGood(d: Detector, maxAttempts: nat, trace: seq<Attempt>, failure: Option<Error>)
    requires Ended(d, maxAttempts, trace, failure)
    ensures var (resp, err) := Outcome(trace, failure);
            err == None <==>
              trace != [] && Good(d, trace[|trace| - 1]) && trace[|trace| - 1].resp.Some?
              && resp == trace[|trace| - 1].resp
              && forall i :: 0 <= i < |trace| - 1 ==> Retryable(d, trace[i])
  {
  }

  /**
    The caller gets the last callback's response. On failure its error is the one the loop ended on, except that a
    last callback without a response but with an error passes that error on; success without a response is an error.
  */
  lemma FailureReportsLastCall(d: Detector, maxAttempts: nat, trace: seq<Attempt>, failure: Option<Error>)
    requires Ended(d, maxAttempts, trace, failure)
    ensures var (resp, err) := Outcome(trace, failure);
            && resp == (match LastCall(trace) case Some(a) => a.resp case None => None)
            && (failure.Some? && resp == None && LastCall(trace).Some? && LastCall(trace).value.err.Some? ==>
                  err == Some(Callback(LastCall(trace).value.err.value)))
            && (failure.Some? && (resp.Some? || LastCall(trace) == None || LastCall(trace).value.err == None) ==>
                  err == failure)
            && (failure == None ==> err == if resp.Some? then None else Some(NilResponse))
  {
    if failure == None {
      assert LastCall(trace) == Some(trace[|trace| - 1]);
    }
  }

  /** The last callback is the one after which no attempt ran a callback. */
  lemma {:induction false} LastCallIsLast(trace: seq<Attempt>)
    ensures match LastCall(trace)
            case None => forall i :: 0 <= i < |trace| ==> !trace[i].Called?
            case Some(a) =>
              exists i :: 0 <= i < |trace| && trace[i] == a && a.Called?
                          && forall j :: i < j < |trace| ==> !trace[j].Called?
    decreases |trace|
  {
    if trace != [] && !trace[|trace| - 1].Called? {
      LastCallIsLast(trace[..|trace| - 1]);
    }
  }

  // ---------------------------------------------------------------------------
  // How long blocked attempts can go on

  /** The blocked attempts an endpoint can still take before it leaves service. */
  function Patience(threshold: nat, v: Vitals): nat {
    if v.Available() && v.fails < threshold then threshold - v.fails else 0
  }

  function Potential(threshold: nat, vs: seq<Vitals>): nat {
    if vs == [] then 0 else Potential(threshold, vs[..|vs| - 1]) + Patience(threshold, vs[|vs| - 1])
  }

  predicate BelowThreshold(threshold: nat, vs: seq<Vitals>) {
    forall p :: 0 <= p < |vs| && vs[p].Available() ==> vs[p].fails < threshold
  }

  lemma {:induction false} PotentialUpdate(threshold: nat, vs: seq<Vitals>, p: nat, v: Vitals)
    requires p < |vs|
    ensures Potential(threshold, vs[p := v]) + Patience(threshold, vs[p])
            == Potential(threshold, vs) + Patience(threshold, v)
    decreases |vs|
  {
    var front := vs[..|vs| - 1];
    if p < |vs| - 1 {
      PotentialUpdate(threshold, front, p, v);
      assert vs[p := v][..|vs| - 1] == front[p := v];
    } else {
      assert vs[p := v][..|vs| - 1] == front;
    }
  }

  /** Retiring an endpoint takes exactly its own patience from the pool, a reset gives it the whole threshold. */
  lemma ControlMovesPotential(threshold: nat, vs: seq<Vitals>, p: nat)
    requires p < |vs| && threshold > 0
    ensures Potential(threshold, vs[p := vs[p].Retired()]) + Patience(threshold, vs[p]) == Potential(threshold, vs)
    ensures Potential(threshold, vs[p := FRESH]) + Patience(threshold, vs[p]) == Potential(threshold, vs) + threshold
  {
    PotentialUpdate(threshold, vs, p, vs[p].Retired());
    PotentialUpdate(threshold, vs, p, FRESH);
  }

  lemma {:induction false} NoPotentialIffNone(threshold: nat, vs: seq<Vitals>)
    requires BelowThreshold(threshold, vs)
    ensures Potential(threshold, vs) == 0 <==> forall p :: 0 <= p < |vs| ==> !vs[p].Available()
    decreases |vs|
  {
    if vs != [] {
      NoPotentialIffNone(threshold, vs[..|vs| - 1]);
    }
  }

  /** Each blocked attempt lowers the potential by exactly one, whichever endpoint was drawn. */
  lemma BlockedAttemptCostsOne(d: Detector, threshold: nat, vs: seq<Vitals>, a: Attempt)
    requires BelowThreshold(threshold, vs) && Fits(vs, a) && Blocked(d, a)
    ensures Potential(threshold, Replay(d, threshold, vs, a)) + 1 == Potential(threshold, vs)
    ensures BelowThreshold(threshold, Replay(d, threshold, vs, a))
  {
    PotentialUpdate(threshold, vs, a.p, vs[a.p].Penalised(threshold));
  }

  lemma {:induction false} BlockedRun(d: Detector, threshold: nat, vs: seq<Vitals>, trace: seq<Attempt>)
    requires BelowThreshold(threshold, vs) && FitsAll(d, threshold, vs, trace)
    requires forall i :: 0 <= i < |trace| ==> Blocked(d, trace[i])
    ensures Potential(threshold, ReplayAll(d, threshold, vs, trace)) + |trace| == Potential(threshold, vs)
    ensures BelowThreshold(threshold, ReplayAll(d, threshold, vs, trace))
    decreases |trace|
  {
    if trace != [] {
      var front := trace[..|trace| - 1];
      BlockedRun(d, threshold, vs, front);
      BlockedAttemptCostsOne(d, threshold, ReplayAll(d, threshold, vs, front), trace[|trace| - 1]);
    }
  }

  function Calls(trace: seq<Attempt>): nat {
    if trace == [] then 0 else Calls(trace[..|trace| - 1]) + (if trace[|trace| - 1].Called? then 1 else 0)
  }

  lemma {:induction false} AllCalled(trace: seq<Attempt>)
    requires forall i :: 0 <= i < |trace| ==> trace[i].Called?
    ensures Calls(trace) == |trace|
    decreases |trace|
  {
    if trace != [] {
      AllCalled(trace[..|trace| - 1]);
    }
  }

  function Least(a: nat, b: nat): nat {
    if a <= b then a else b
  }

  /**
    A request whose every attempt is blocked invokes the callback exactly min(MaxAttempts, potential) times,
    and ends with ErrAllProxiesBlocked exactly when the potential runs out first.
  */
  lemma BlockedRequestLength(d: Detector, threshold: nat, maxAttempts: nat, vs: seq<Vitals>,
                             trace: seq<Attempt>, failure: Error)
    requires BelowThreshold(threshold, vs) && FitsAll(d, threshold, vs, trace) && maxAttempts > 0
    requires Ended(d, maxAttempts, trace, Some(failure)) && failure != ContextCause
    requires forall i :: 0 <= i < |trace| ==> trace[i] == NoEndpoint || (Blocked(d, trace[i]) && Retryable(d, trace[i]))
    ensures Calls(trace) == Least(maxAttempts, Potential(threshold, vs))
    ensures failure == AllProxiesBlocked <==> Potential(threshold, vs) < maxAttempts
    ensures failure == AllProxiesBlocked ==>
              forall p :: 0 <= p < |vs| ==> !ReplayAll(d, threshold, vs, trace)[p].Available()
  {
    var last, front := trace[|trace| - 1], trace[..|trace| - 1];
    assert forall i :: 0 <= i < |front| ==> Retryable(d, trace[i]) && front[i] == trace[i];
    if last == NoEndpoint {
      BlockedRun(d, threshold, vs, front);
      AllCalled(front);
      NoPotentialIffNone(threshold, ReplayAll(d, threshold, vs, front));
    } else {
      BlockedRun(d, threshold, vs, trace);
      AllCalled(trace);
    }
  }
}
