/**
  Cooldowns over whole timed runs of failures, successes, resets, retirements and recoveries, one call at a
  time (client.go:354-383; endpoint.go:214-218, 237-285).

  A markFailed cancels the recovery before it. A recovery that is in its select when it is cancelled, with its
  timer still running, sees that and ends. One whose timer has fired, or which has not reached its select, is
  loose: once its timer has fired it may still take that branch and wake the endpoint.
*/
module CooldownRuns {
  import opened Basics
  import opened Cooldown
  import opened Vitals

  /**
    `due` is when the timer of the newest recovery fires, until that recovery has run; `loose` lists those
    times for the superseded recoveries that have not seen their cancellation.
  */
  datatype Timed = Timed(base: int, max: int, now: int, vitals: Vitals, due: Option<int>, loose: seq<int>)

  /** A failure says whether the recovery it supersedes, if any, sees its cancellation at once. */
  datatype Happening =
    | Tick(d: nat)
    | Fail(seen: bool)
    | Success
    | Reset
    | Retire
    | Recover
    | LooseRecover(i: nat)
    | LooseEnd(i: nat)

  predicate Overdue(s: Timed) {
    s.due.Some? && s.due.value <= s.now
  }

  predicate Possible(s: Timed, h: Happening) {
    match h
    case Fail(seen) => seen ==> !Overdue(s)
    case Recover => Overdue(s)
    case LooseRecover(i) => i < |s.loose| && s.loose[i] <= s.now
    case LooseEnd(i) => i < |s.loose|
    case _ => true
  }

  /** The loose recoveries after a failure. */
  function LooseAfter(s: Timed, seen: bool): seq<int> {
    if s.due.Some? && !seen then s.loose + [s.due.value] else s.loose
  }

  function Without(xs: seq<int>, i: nat): (r: seq<int>)
    requires i < |xs|
    ensures forall x :: x in r ==> x in xs
  {
    xs[..i] + xs[i + 1..]
  }

  function Happen(s: Timed, h: Happening): Timed
    requires Possible(s, h)
  {
    match h
    case Tick(d) => s.(now := s.now + d)
    case Fail(seen) =>
      s.(vitals := s.vitals.Failed(),
         due := Some(s.now + Delay(s.base, s.max, s.vitals.tier + 1)),
         loose := LooseAfter(s, seen))
    case Success => s.(vitals := s.vitals.Succeeded())
    case Reset => s.(vitals := FRESH)
    case Retire => s.(vitals := s.vitals.Retired())
    case Recover => s.(vitals := s.vitals.Recovered(), due := None)
    case LooseRecover(i) => s.(vitals := s.vitals.Recovered(), loose := Without(s.loose, i))
    case LooseEnd(i) => s.(loose := Without(s.loose, i))
  }

  ghost predicate IsHistory(s: Timed, hs: seq<Happening>)
    decreases |hs|
  {
    hs == [] || (Possible(s, hs[0]) && IsHistory(Happen(s, hs[0]), hs[1..]))
  }

  ghost function Later(s: Timed, hs: seq<Happening>): Timed
    requires IsHistory(s, hs)
    decreases |hs|
  {
    if hs == [] then s else Later(Happen(s, hs[0]), hs[1..])
  }

  lemma HistoryCons(s: Timed, h: Happening, hs: seq<Happening>)
    requires Possible(s, h) && IsHistory(Happen(s, h), hs)
    ensures IsHistory(s, [h] + hs) && Later(s, [h] + hs) == Later(Happen(s, h), hs)
  {
    assert ([h] + hs)[1..] == hs;
  }

  lemma {:induction false} HistorySnoc(s: Timed, hs: seq<Happening>)
    requires IsHistory(s, hs) && hs != []
    ensures var front, last := hs[..|hs| - 1], hs[|hs| - 1];
            && IsHistory(s, front) && Possible(Later(s, front), last)
            && Later(s, hs) == Happen(Later(s, front), last)
    decreases |hs|
  {
    if |hs| > 1 {
      HistorySnoc(Happen(s, hs[0]), hs[1..]);
      assert hs[1..][..|hs| - 2] == hs[..|hs| - 1][1..];
    }
  }

  // ---------------------------------------------------------------------------
  // Escalation

  predicate Clears(h: Happening) {
    h == Success || h == Reset
  }

  /** How many happenings there are up to the last success or reset, that one included. */
  function Cleared(hs: seq<Happening>): (n: nat)
    ensures n <= |hs|
    ensures n > 0 ==> Clears(hs[n - 1])
    ensures forall i :: n <= i < |hs| ==> !Clears(hs[i])
  {
    if hs == [] then 0
    else if Clears(hs[|hs| - 1]) then |hs|
    else Cleared(hs[..|hs| - 1])
  }

  function Fails(hs: seq<Happening>): nat {
    if hs == [] then 0 else Fails(hs[..|hs| - 1]) + if hs[|hs| - 1].Fail? then 1 else 0
  }

  /** The failures since the last success or reset; a history without one adds to those before it. */
  function Streak(hs: seq<Happening>, before: nat): nat {
    Fails(hs[Cleared(hs)..]) + if Cleared(hs) == 0 then before else 0
  }

  lemma StreakSnoc(hs: seq<Happening>, h: Happening, before: nat)
    ensures Streak(hs + [h], before)
            == if Clears(h) then 0 else Streak(hs, before) + if h.Fail? then 1 else 0
  {
    var all := hs + [h];
    assert all[..|all| - 1] == hs && all[|all| - 1] == h;
    if Clears(h) {
      assert all[Cleared(all)..] == [];
    } else {
      var since := hs[Cleared(hs)..];
      assert all[Cleared(all)..] == since + [h];
      assert (since + [h])[..|since|] == since;
    }
  }

  lemma TierSnoc(s: Timed, h: Happening, hs: seq<Happening>, before: nat)
    requires Possible(s, h) && s.vitals.tier == Streak(hs, before)
    ensures Happen(s, h).vitals.tier == Streak(hs + [h], before)
  {
    StreakSnoc(hs, h, before);
  }

  /** The tier counts the consecutive cooldowns since the last success or reset. */
  lemma {:induction false} TierIsStreak(s: Timed, hs: seq<Happening>)
    requires IsHistory(s, hs)
    ensures Later(s, hs).vitals.tier == Streak(hs, s.vitals.tier)
    decreases |hs|
  {
    if hs != [] {
      var front, last := hs[..|hs| - 1], hs[|hs| - 1];
      assert hs == front + [last];
      HistorySnoc(s, hs);
      TierIsStreak(s, front);
      TierSnoc(Later(s, front), last, front, s.vitals.tier);
    }
  }

  lemma {:induction false} SameConfiguration(s: Timed, hs: seq<Happening>)
    requires IsHistory(s, hs)
    ensures Later(s, hs).base == s.base && Later(s, hs).max == s.max
    decreases |hs|
  {
    if hs != [] {
      SameConfiguration(Happen(s, hs[0]), hs[1..]);
    }
  }

  // ---------------------------------------------------------------------------
  // Manual control, and loose recoveries that are over

  /** A retirement lasts until a failure or a reset, whatever recoveries are still to come. */
  lemma {:induction false} RetirementLasts(s: Timed, hs: seq<Happening>)
    requires s.vitals.health == Dead && IsHistory(s, hs)
    requires forall i :: 0 <= i < |hs| ==> !hs[i].Fail? && !hs[i].Reset?
    ensures Later(s, hs).vitals.health == Dead
    decreases |hs|
  {
    if hs != [] {
      RetirementLasts(Happen(s, hs[0]), hs[1..]);
    }
  }

  lemma ManualControl(s: Timed)
    ensures Happen(s, Retire) == s.(vitals := Vitals(Dead, s.vitals.fails, s.vitals.tier))
    ensures Happen(s, Reset) == s.(vitals := Vitals(Alive, 0, 0))
  {
  }

  /** A recovery whose timer has fired does not see that it is superseded in time: it stays loose. */
  lemma OverdueStaysLoose(s: Timed, seen: bool)
    requires Possible(s, Fail(seen)) && s.due.Some? && s.due.value <= s.now
    ensures !seen && Happen(s, Fail(seen)).loose == s.loose + [s.due.value]
  {
  }

  lemma WithoutOne(xs: seq<int>, i: nat)
    requires i < |xs|
    ensures multiset(Without(xs, i)) == multiset(xs) - multiset{xs[i]}
  {
    assert xs == xs[..i] + [xs[i]] + xs[i + 1..];
  }

  /** A loose recovery takes effect at most once: it wakes an endpoint in cooldown, or has seen its cancellation. */
  lemma LooseOnce(s: Timed, h: Happening)
    requires Possible(s, h) && (h.LooseRecover? || h.LooseEnd?)
    ensures multiset(Happen(s, h).loose) == multiset(s.loose) - multiset{s.loose[h.i]}
    ensures Happen(s, h).vitals.Available() <==>
              s.vitals.Available() || (h.LooseRecover? && s.vitals.health == InCooldown)
  {
    WithoutOne(s.loose, h.i);
  }

  // ---------------------------------------------------------------------------
  // Lasting

  ghost predicate Configured(s: Timed) {
    0 < s.base <= (TWO_63 - 1) / 16 && 0 < s.max < TWO_63
  }

  /** Every recovery that a failure leaves loose comes due at `until` or later. */
  ghost predicate NothingEarly(s: Timed, seen: bool, until: int) {
    forall i :: 0 <= i < |LooseAfter(s, seen)| ==> until <= LooseAfter(s, seen)[i]
  }

  lemma EarlyOnes(s: Timed, seen: bool, until: int)
    ensures NothingEarly(s, seen, until) <==>
              (forall d :: d in s.loose ==> until <= d) && (s.due.Some? && !seen ==> until <= s.due.value)
  {
    var loose := LooseAfter(s, seen);
    if NothingEarly(s, seen, until) {
      forall d | d in s.loose ensures until <= d {
        var i :| 0 <= i < |s.loose| && s.loose[i] == d;
        assert loose[i] == d;
      }
      if s.due.Some? && !seen {
        assert loose[|s.loose|] == s.due.value;
      }
    }
    if (forall d :: d in s.loose ==> until <= d) && (s.due.Some? && !seen ==> until <= s.due.value) {
      forall i | 0 <= i < |loose| ensures until <= loose[i] {
        assert i < |s.loose| ==> s.loose[i] in s.loose;
      }
    }
  }

  /** Out of service until `until`, and no failure yet to come makes for a shorter wait than tier k does. */
  ghost predicate Benched(s: Timed, until: int, k: nat) {
    && 1 <= k <= s.vitals.tier + 1
    && (s.now < until ==> !s.vitals.Available())
    && (forall d :: d in s.loose ==> until <= d)
    && (s.due.Some? ==> until <= s.due.value)
    && until <= s.now + Delay(s.base, s.max, k)
  }

  lemma BenchedStep(s: Timed, h: Happening, until: int, k: nat)
    requires Configured(s) && Possible(s, h) && Benched(s, until, k) && h != Reset && (k == 1 || h != Success)
    ensures Benched(Happen(s, h), until, k)
  {
    match h {
      case Fail(seen) =>
        DelayMonotone(s.base, s.max, k, s.vitals.tier + 1);
        assert forall d :: d in LooseAfter(s, seen) ==> d in s.loose || s.due == Some(d);
      case LooseRecover(i) => assert s.loose[i] in s.loose;
      case _ =>
    }
  }

  lemma {:induction false} StaysBenched(s: Timed, hs: seq<Happening>, until: int, k: nat)
    requires Configured(s) && IsHistory(s, hs) && Benched(s, until, k)
    requires Reset !in hs && (k == 1 || Success !in hs)
    ensures Benched(Later(s, hs), until, k)
    decreases |hs|
  {
    if hs != [] {
      BenchedStep(s, hs[0], until, k);
      assert hs[0] in hs && forall h :: h in hs[1..] ==> h in hs;
      StaysBenched(Happen(s, hs[0]), hs[1..], until, k);
    }
  }

  /** A run without a success or reset that finds the endpoint in service before `until`. */
  ghost predicate Breaks(failed: Timed, hs: seq<Happening>, until: int) {
    IsHistory(failed, hs) && Reset !in hs && Later(failed, hs).now < until && Later(failed, hs).vitals.Available()
  }

  /** One more failure keeps the endpoint out of service until `until`, whatever follows short of a success or reset. */
  ghost predicate Lasting(s: Timed, seen: bool, until: int)
    requires Possible(s, Fail(seen))
  {
    forall hs :: Breaks(Happen(s, Fail(seen)), hs, until) ==> Success in hs
  }

  /** Whatever follows short of a reset. */
  ghost predicate Unbreakable(s: Timed, seen: bool, until: int)
    requires Possible(s, Fail(seen))
  {
    forall hs :: !Breaks(Happen(s, Fail(seen)), hs, until)
  }

  /** When the cooldown of one more failure is documented to end. */
  function DocumentedEnd(s: Timed): int {
    s.now + Documented(s.base, s.max, s.vitals.tier + 1)
  }

  /** A loose recovery that comes due earlier can end the cooldown when it does. */
  lemma LooseRecoveryBreaks(s: Timed, seen: bool, until: int) returns (hs: seq<Happening>)
    requires Possible(s, Fail(seen)) && s.now < until && !NothingEarly(s, seen, until)
    ensures Breaks(Happen(s, Fail(seen)), hs, until) && Success !in hs
  {
    var failed := Happen(s, Fail(seen));
    var i :| 0 <= i < |failed.loose| && failed.loose[i] < until;
    var wait := Tick(if failed.loose[i] <= s.now then 0 else failed.loose[i] - s.now);
    HistoryCons(Happen(failed, wait), LooseRecover(i), []);
    HistoryCons(failed, wait, [LooseRecover(i)] + []);
    hs := [wait] + ([LooseRecover(i)] + []);
  }

  lemma LastsWhile(s: Timed, seen: bool, k: nat, hs: seq<Happening>)
    requires Configured(s) && Possible(s, Fail(seen)) && 1 <= k <= s.vitals.tier + 1
    requires s.now + Delay(s.base, s.max, k) == DocumentedEnd(s) && NothingEarly(s, seen, DocumentedEnd(s))
    requires k == 1 || Success !in hs
    ensures !Breaks(Happen(s, Fail(seen)), hs, DocumentedEnd(s))
  {
    var failed := Happen(s, Fail(seen));
    DelayIsExact(s.base, s.max, s.vitals.tier + 1);
    forall d | d in failed.loose ensures DocumentedEnd(s) <= d {
    }
    if IsHistory(failed, hs) && Reset !in hs {
      StaysBenched(failed, hs, DocumentedEnd(s), k);
    }
  }

  lemma EndsLater(s: Timed)
    requires Configured(s)
    ensures s.now < DocumentedEnd(s) == s.now + Delay(s.base, s.max, s.vitals.tier + 1)
  {
    DelayIsExact(s.base, s.max, s.vitals.tier + 1);
    DelayMonotone(s.base, s.max, s.vitals.tier + 1, s.vitals.tier + 1);
  }

  /**
    The k-th markFailed since the last success or reset keeps the endpoint unselectable for the documented
    time, whatever failures, retirements and recoveries follow, exactly when no loose recovery comes due
    before.
  */
  lemma CooldownLasts(start: Timed, before: seq<Happening>, seen: bool)
    requires Configured(start) && IsHistory(start, before) && Possible(Later(start, before), Fail(seen))
    ensures var s := Later(start, before);
            var end := s.now + Documented(start.base, start.max, Streak(before, start.vitals.tier) + 1);
            Lasting(s, seen, end) <==>
              (forall d :: d in s.loose ==> end <= d) && (s.due.Some? && !seen ==> end <= s.due.value)
  {
    SameConfiguration(start, before);
    TierIsStreak(start, before);
    var s := Later(start, before);
    EndsLater(s);
    EarlyOnes(s, seen, DocumentedEnd(s));
    if NothingEarly(s, seen, DocumentedEnd(s)) {
      forall hs | Breaks(Happen(s, Fail(seen)), hs, DocumentedEnd(s)) ensures Success in hs {
        if Success !in hs {
          LastsWhile(s, seen, s.vitals.tier + 1, hs);
        }
      }
    } else {
      var hs := LooseRecoveryBreaks(s, seen, DocumentedEnd(s));
    }
  }

  /** Left alone, the endpoint's newest recovery can run the moment the documented time has passed, and not before. */
  lemma RecoversOnTime(s: Timed, seen: bool, wait: nat)
    requires Configured(s) && Possible(s, Fail(seen))
    ensures var failed := Happen(s, Fail(seen));
            IsHistory(failed, [Tick(wait), Recover]) <==> DocumentedEnd(s) <= s.now + wait
    ensures var failed := Happen(s, Fail(seen));
            IsHistory(failed, [Tick(wait), Recover]) ==> Later(failed, [Tick(wait), Recover]).vitals.Available()
  {
    EndsLater(s);
    var failed := Happen(s, Fail(seen));
    var ticked := Happen(failed, Tick(wait));
    assert [Tick(wait), Recover][1..] == [Recover];
    assert [Recover][1..] == [];
    if Possible(ticked, Recover) {
      HistoryCons(ticked, Recover, []);
      assert [Recover] + [] == [Recover];
    }
  }

  /**
    A success that was still in flight resets the tier, and the next failure then replaces a long cooldown by
    a short one.
  */
  lemma LateSuccessShortensCooldown(s: Timed, seen: bool) returns (hs: seq<Happening>)
    requires Configured(s) && Possible(s, Fail(seen)) && s.vitals.tier >= 1 && s.base < s.max
    ensures hs == [Success] + ([Fail(true)] + ([Tick(s.base)] + ([Recover] + [])))
    ensures Breaks(Happen(s, Fail(seen)), hs, DocumentedEnd(s))
    ensures Later(Happen(s, Fail(seen)), hs).now == s.now + Documented(s.base, s.max, 1) < DocumentedEnd(s)
  {
    var k := s.vitals.tier + 1;
    EndsLater(s);
    DelayIsExact(s.base, s.max, k);
    DelayIsExact(s.base, s.max, 1);
    assert s.base * Multiplier(k) >= 2 * s.base;
    var s0 := Happen(s, Fail(seen));
    var s1 := Happen(s0, Success);
    var s2 := Happen(s1, Fail(true));
    assert s2.due == Some(s.now + s.base);
    var s3 := Happen(s2, Tick(s.base));
    HistoryCons(s3, Recover, []);
    HistoryCons(s2, Tick(s.base), [Recover] + []);
    HistoryCons(s1, Fail(true), [Tick(s.base)] + ([Recover] + []));
    HistoryCons(s0, Success, [Fail(true)] + ([Tick(s.base)] + ([Recover] + [])));
    hs := [Success] + ([Fail(true)] + ([Tick(s.base)] + ([Recover] + [])));
  }

  /**
    Successes allowed, a cooldown lasts its documented time exactly when no loose recovery comes due before and
    either it is the first, or the maximum leaves no room to escalate.
  */
  lemma UnbreakableIff(s: Timed, seen: bool)
    requires Configured(s) && Possible(s, Fail(seen))
    ensures Unbreakable(s, seen, DocumentedEnd(s))
            <==> && (forall d :: d in s.loose ==> DocumentedEnd(s) <= d)
                 && (s.due.Some? && !seen ==> DocumentedEnd(s) <= s.due.value)
                 && (s.vitals.tier == 0 || s.max <= s.base)
  {
    EndsLater(s);
    EarlyOnes(s, seen, DocumentedEnd(s));
    if !NothingEarly(s, seen, DocumentedEnd(s)) {
      var hs := LooseRecoveryBreaks(s, seen, DocumentedEnd(s));
    } else if s.vitals.tier == 0 || s.max <= s.base {
      FirstDelay(s);
      forall hs ensures !Breaks(Happen(s, Fail(seen)), hs, DocumentedEnd(s)) {
        LastsWhile(s, seen, 1, hs);
      }
    } else {
      var hs := LateSuccessShortensCooldown(s, seen);
    }
  }

  lemma FirstDelay(s: Timed)
    requires Configured(s) && (s.vitals.tier == 0 || s.max <= s.base)
    ensures s.now + Delay(s.base, s.max, 1) == DocumentedEnd(s)
  {
    DelayIsExact(s.base, s.max, 1);
    DelayIsExact(s.base, s.max, s.vitals.tier + 1);
    assert s.base * Multiplier(s.vitals.tier + 1) >= s.base;
  }
}
