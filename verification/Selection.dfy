/**
  Weighted random selection as a function of what the scan sees: per position, nothing if the endpoint is
  unavailable, otherwise its weight for the request's domain (pool.go:98-156). Weights are exact reals.
*/
module Selection {
  import opened Basics

  datatype Candidate = Candidate(pos: nat, weight: real)

  ghost predicate Weighted(slots: seq<Option<real>>) {
    forall p :: 0 <= p < |slots| && slots[p].Some? ==> slots[p].value > 0.0
  }

  /** The k-th position a scan from `start` visits. */
  function Position(start: nat, k: nat, n: nat): nat
    requires n > 0
  {
    (start + k) % n
  }

  /** The candidates among the first i positions of a scan that starts at `start`. */
  function Scan(slots: seq<Option<real>>, start: nat, i: nat): seq<Candidate>
    requires slots != []
  {
    if i == 0 then []
    else
      var p := Position(start, i - 1, |slots|);
      Scan(slots, start, i - 1) + match slots[p] case Some(w) => [Candidate(p, w)] case None => []
  }

  function Sum(cs: seq<Candidate>): real {
    if cs == [] then 0.0 else Sum(cs[..|cs| - 1]) + cs[|cs| - 1].weight
  }

  /** The walk along the cumulative sum; past the end it falls through to the last candidate. */
  function Walk(cs: seq<Candidate>, r: real, k: nat): nat
    decreases |cs| - k
  {
    if k >= |cs| then (if cs == [] then 0 else |cs| - 1)
    else if r <= Sum(cs[..k + 1]) then k
    else Walk(cs, r, k + 1)
  }

  function Pick(cs: seq<Candidate>, r: real): Option<nat> {
    if cs == [] then None
    else if |cs| == 1 then Some(cs[0].pos)
    else if Walk(cs, r, 0) < |cs| then Some(cs[Walk(cs, r, 0)].pos)
    else None
  }

  /** The endpoint selected when the scaled draw is r, or none when all are unavailable. */
  function Spin(slots: seq<Option<real>>, start: nat, r: real): Option<nat> {
    if slots == [] then None
    else if |slots| == 1 then (if slots[0].Some? then Some(0) else None)
    else
      Pick(Scan(slots, start, |slots|), r)
  }

  /** The sum of all weights. */
  function Total(slots: seq<Option<real>>): real {
    if slots == [] then 0.0 else Around(slots, 0, |slots|)
  }

  function Scaled(draw: real, total: real): real {
    draw * total
  }

  /** The selection for a draw from [0, 1). */
  function Choose(slots: seq<Option<real>>, start: nat, draw: real): Option<nat> {
    Spin(slots, start, Scaled(draw, Total(slots)))
  }

  // ---------------------------------------------------------------------------
  // The candidates are the available endpoints, each once, whatever the origin

  lemma {:induction false} MultipleIsLarge(d: int, n: int)
    requires n > 0 && d != 0
    ensures d * n >= n || d * n <= -n
    decreases if d > 0 then d else -d
  {
    if d > 1 {
      MultipleIsLarge(d - 1, n);
      assert d * n == (d - 1) * n + n;
    } else if d < -1 {
      MultipleIsLarge(d + 1, n);
      assert d * n == (d + 1) * n - n;
    }
  }

  /** Division with remainder has one answer. */
  lemma RemainderUnique(q: nat, r: nat, n: nat)
    requires r < n
    ensures (q * n + r) % n == r
  {
    var m := q * n + r;
    var d := q - m / n;
    assert m == (m / n) * n + m % n;
    assert d * n == m % n - r;
    if d != 0 {
      MultipleIsLarge(d, n);
    }
  }

  lemma PositionsDiffer(start: nat, i: nat, j: nat, n: nat)
    requires i < j < n
    ensures Position(start, i, n) != Position(start, j, n)
  {
    var d := (start + j) / n - (start + i) / n;
    assert start + i == ((start + i) / n) * n + (start + i) % n;
    assert start + j == ((start + j) / n) * n + (start + j) % n;
    assert d * n == (j - i) + (start + i) % n - (start + j) % n;
    if d != 0 {
      MultipleIsLarge(d, n);
    }
  }

  lemma {:induction false} ScanSound(slots: seq<Option<real>>, start: nat, i: nat)
    requires slots != [] && i <= |slots|
    ensures forall c :: c in Scan(slots, start, i) ==>
              && c.pos < |slots| && slots[c.pos] == Some(c.weight)
              && exists k: nat :: k < i && c.pos == Position(start, k, |slots|)
    ensures forall k: nat :: k < i && slots[Position(start, k, |slots|)].Some? ==>
              Candidate(Position(start, k, |slots|), slots[Position(start, k, |slots|)].value) in Scan(slots, start, i)
    ensures forall x, y :: 0 <= x < y < |Scan(slots, start, i)| ==>
              Scan(slots, start, i)[x].pos != Scan(slots, start, i)[y].pos
    decreases i
  {
    if i > 0 {
      ScanSound(slots, start, i - 1);
      var front, p := Scan(slots, start, i - 1), Position(start, i - 1, |slots|);
      forall x | 0 <= x < |front| ensures front[x].pos != p {
        assert front[x] in front;
        var k: nat :| k < i - 1 && front[x].pos == Position(start, k, |slots|);
        PositionsDiffer(start, k, i - 1, |slots|);
      }
      forall c | c in Scan(slots, start, i)
        ensures c.pos < |slots| && slots[c.pos] == Some(c.weight)
        ensures exists k: nat :: k < i && c.pos == Position(start, k, |slots|)
      {
        if c in front {
          var k: nat :| k < i - 1 && c.pos == Position(start, k, |slots|);
          assert k < i;
        } else {
          assert c.pos == Position(start, i - 1, |slots|);
        }
      }
    }
  }

  /** The step at which a scan visits a position. */
  function StepOf(start: nat, p: nat, n: nat): nat {
    if n == 0 then p
    else if start % n <= p then p - start % n
    else n + p - start % n
  }

  /** Every position is visited by a full scan. */
  lemma Visits(start: nat, p: nat, n: nat)
    requires p < n
    ensures StepOf(start, p, n) < n && Position(start, StepOf(start, p, n), n) == p
  {
    var q, r := start / n, start % n;
    assert start == q * n + r;
    if r <= p {
      assert start + StepOf(start, p, n) == q * n + p;
      RemainderUnique(q, p, n);
    } else {
      assert start + StepOf(start, p, n) == (q + 1) * n + p;
      RemainderUnique(q + 1, p, n);
    }
  }

  lemma VisitedOnce(start: nat, i: nat, n: nat)
    requires i < n
    ensures StepOf(start, Position(start, i, n), n) == i
  {
    var k := StepOf(start, Position(start, i, n), n);
    Visits(start, Position(start, i, n), n);
    if i < k {
      PositionsDiffer(start, i, k, n);
    } else if k < i {
      PositionsDiffer(start, k, i, n);
    }
  }

  /** A full scan finds exactly the available endpoints, each once and with its own weight. */
  lemma CandidatesAreTheAvailable(slots: seq<Option<real>>, start: nat)
    requires slots != []
    ensures forall c :: c in Scan(slots, start, |slots|) <==> c.pos < |slots| && slots[c.pos] == Some(c.weight)
    ensures forall x, y :: 0 <= x < y < |Scan(slots, start, |slots|)| ==>
              Scan(slots, start, |slots|)[x].pos != Scan(slots, start, |slots|)[y].pos
  {
    var n := |slots|;
    ScanSound(slots, start, n);
    forall c: Candidate | c.pos < n && slots[c.pos] == Some(c.weight) ensures c in Scan(slots, start, n) {
      Visits(start, c.pos, n);
      var k := StepOf(start, c.pos, n);
      assert slots[Position(start, k, n)].Some?;
    }
  }

  // ---------------------------------------------------------------------------
  // The total does not depend on the origin

  function WeightAt(slots: seq<Option<real>>, p: nat): real
    requires p < |slots|
  {
    match slots[p] case Some(w) => w case None => 0.0
  }

  /** The weights at i consecutive positions of the rotation. */
  function Around(slots: seq<Option<real>>, start: nat, i: nat): real
    requires slots != []
  {
    if i == 0 then 0.0 else Around(slots, start, i - 1) + WeightAt(slots, Position(start, i - 1, |slots|))
  }

  lemma SumAppend(cs: seq<Candidate>, ds: seq<Candidate>)
    requires |ds| <= 1
    ensures Sum(cs + ds) == Sum(cs) + Sum(ds)
  {
    if ds == [] {
      assert cs + ds == cs;
    } else {
      assert (cs + ds)[..|cs|] == cs && ds[..0] == [];
    }
  }

  lemma {:induction false} ScanSum(slots: seq<Option<real>>, start: nat, i: nat)
    requires slots != []
    ensures Sum(Scan(slots, start, i)) == Around(slots, start, i)
    decreases i
  {
    if i > 0 {
      ScanSum(slots, start, i - 1);
      var p := Position(start, i - 1, |slots|);
      SumAppend(Scan(slots, start, i - 1), match slots[p] case Some(w) => [Candidate(p, w)] case None => []);
    }
  }

  lemma {:induction false} AroundFront(slots: seq<Option<real>>, start: nat, i: nat)
    requires slots != []
    ensures Around(slots, start, i + 1) == WeightAt(slots, Position(start, 0, |slots|)) + Around(slots, start + 1, i)
    decreases i
  {
    if i > 0 {
      AroundFront(slots, start, i - 1);
    }
  }

  lemma Wraps(start: nat, n: nat)
    requires n > 0
    ensures Position(start, n, n) == Position(start, 0, n)
  {
    RemainderUnique(start / n + 1, start % n, n);
    assert start + n == (start / n + 1) * n + start % n;
  }

  lemma {:induction false} TotalFromAnywhere(slots: seq<Option<real>>, start: nat)
    requires slots != []
    ensures Around(slots, start, |slots|) == Total(slots)
    decreases start
  {
    if start > 0 {
      TotalFromAnywhere(slots, start - 1);
      AroundFront(slots, start - 1, |slots|);
      Wraps(start - 1, |slots|);
    }
  }

  /** The total over a scan's candidates is the same from every origin. */
  lemma OriginIsIrrelevant(slots: seq<Option<real>>, start: nat)
    requires slots != []
    ensures Sum(Scan(slots, start, |slots|)) == Total(slots)
  {
    ScanSum(slots, start, |slots|);
    TotalFromAnywhere(slots, start);
  }

  // ---------------------------------------------------------------------------
  // The draws that pick a candidate

  ghost predicate Positive(cs: seq<Candidate>) {
    forall i :: 0 <= i < |cs| ==> cs[i].weight > 0.0
  }

  lemma {:induction false} SumsGrow(cs: seq<Candidate>, j: nat, k: nat)
    requires Positive(cs) && j <= k <= |cs|
    ensures Sum(cs[..j]) <= Sum(cs[..k])
    ensures j < k ==> Sum(cs[..j]) < Sum(cs[..k])
    ensures k < |cs| ==> Sum(cs[..k + 1]) == Sum(cs[..k]) + cs[k].weight
    decreases k - j
  {
    if k < |cs| {
      assert cs[..k + 1][..k] == cs[..k];
    }
    if j < k {
      SumsGrow(cs, j, k - 1);
      assert cs[..k][..k - 1] == cs[..k - 1];
    }
  }

  lemma {:induction false} WalkReaches(cs: seq<Candidate>, r: real, k: nat)
    requires Positive(cs) && cs != [] && k < |cs| && r <= Sum(cs) && (k == 0 || Sum(cs[..k]) < r)
    ensures var m := Walk(cs, r, k); k <= m < |cs| && r <= Sum(cs[..m + 1]) && (m == 0 || Sum(cs[..m]) < r)
    decreases |cs| - k
  {
    assert cs[..|cs|] == cs;
    if r > Sum(cs[..k + 1]) {
      WalkReaches(cs, r, k + 1);
    }
  }

  /**
    The walk stops at candidate k exactly for r in the k-th of consecutive intervals, each as long as its
    candidate's weight; it never falls through. (The first interval includes 0.)
  */
  lemma WalkInterval(cs: seq<Candidate>, r: real, k: nat)
    requires Positive(cs) && k < |cs| && 0.0 <= r <= Sum(cs)
    ensures Walk(cs, r, 0) == k <==> (k == 0 || Sum(cs[..k]) < r) && r <= Sum(cs[..k + 1])
    ensures Sum(cs[..k + 1]) == Sum(cs[..k]) + cs[k].weight
    ensures Walk(cs, r, 0) < |cs| && r <= Sum(cs[..Walk(cs, r, 0) + 1])
  {
    WalkReaches(cs, r, 0);
    SumsGrow(cs, k, k);
    var m := Walk(cs, r, 0);
    if m < k {
      SumsGrow(cs, m + 1, k);
    } else if k < m {
      SumsGrow(cs, k + 1, m);
    }
  }

  ghost predicate Several(slots: seq<Option<real>>) {
    exists p, q :: 0 <= p < q < |slots| && slots[p].Some? && slots[q].Some?
  }

  lemma ScanPositive(slots: seq<Option<real>>, start: nat)
    requires slots != [] && Weighted(slots)
    ensures Positive(Scan(slots, start, |slots|))
  {
    CandidatesAreTheAvailable(slots, start);
    var cs := Scan(slots, start, |slots|);
    forall i | 0 <= i < |cs| ensures cs[i].weight > 0.0 {
      assert cs[i] in cs;
    }
  }

  lemma SeveralCandidates(slots: seq<Option<real>>, start: nat)
    requires slots != []
    ensures Several(slots) <==> |Scan(slots, start, |slots|)| >= 2
  {
    CandidatesAreTheAvailable(slots, start);
    var cs := Scan(slots, start, |slots|);
    if Several(slots) {
      var p, q :| 0 <= p < q < |slots| && slots[p].Some? && slots[q].Some?;
      var c, d := Candidate(p, slots[p].value), Candidate(q, slots[q].value);
      assert c in cs && d in cs && c != d;
    }
    if |cs| >= 2 {
      assert cs[0] in cs && cs[1] in cs && cs[0].pos != cs[1].pos;
    }
  }

  /** Everything about the candidate list of a full scan that selection needs. */
  lemma ScanFacts(slots: seq<Option<real>>, start: nat)
    requires Weighted(slots) && Several(slots)
    ensures var cs := Scan(slots, start, |slots|);
            Positive(cs) && |cs| >= 2 && Sum(cs) == Total(slots) && Total(slots) > 0.0
  {
    OriginIsIrrelevant(slots, start);
    ScanPositive(slots, start);
    SeveralCandidates(slots, start);
    var cs := Scan(slots, start, |slots|);
    SumsGrow(cs, 0, |cs|);
    assert cs[..|cs|] == cs;
  }

  lemma SpinWalks(slots: seq<Option<real>>, start: nat, r: real)
    requires Weighted(slots) && Several(slots) && 0.0 <= r <= Total(slots)
    ensures var cs := Scan(slots, start, |slots|);
            Walk(cs, r, 0) < |cs| && Spin(slots, start, r) == Some(cs[Walk(cs, r, 0)].pos)
  {
    ScanFacts(slots, start);
    WalkReaches(Scan(slots, start, |slots|), r, 0);
  }

  lemma FindCandidate(slots: seq<Option<real>>, start: nat, p: nat) returns (k: nat)
    requires p < |slots| && slots[p].Some?
    ensures var cs := Scan(slots, start, |slots|);
            k < |cs| && cs[k] == Candidate(p, slots[p].value) && forall m :: 0 <= m < |cs| && cs[m].pos == p ==> m == k
  {
    CandidatesAreTheAvailable(slots, start);
    var cs, c := Scan(slots, start, |slots|), Candidate(p, slots[p].value);
    assert c in cs;
    k :| 0 <= k < |cs| && cs[k] == c;
    assert forall m :: 0 <= m < k || k < m < |cs| ==> cs[m].pos != cs[k].pos;
  }

  /** Where the candidate for position p stands in the scan, and where its interval starts. */
  lemma IntervalOf(slots: seq<Option<real>>, start: nat, p: nat) returns (lo: real, k: nat)
    requires Weighted(slots) && Several(slots) && p < |slots| && slots[p].Some?
    ensures IsIntervalOf(slots, start, p, lo, k)
    ensures 0.0 <= lo && lo + slots[p].value <= Total(slots)
  {
    var cs := Scan(slots, start, |slots|);
    ScanFacts(slots, start);
    k := FindCandidate(slots, start, p);
    lo := Sum(cs[..k]);
    SumsGrow(cs, 0, k);
    SumsGrow(cs, k + 1, |cs|);
    SumsGrow(cs, k, k);
    assert cs[..|cs|] == cs && cs[..0] == [];
  }

  ghost predicate IsIntervalOf(slots: seq<Option<real>>, start: nat, p: nat, lo: real, k: nat) {
    slots != [] && p < |slots| &&
    var cs := Scan(slots, start, |slots|);
    && k < |cs| && slots[p] == Some(cs[k].weight) && lo == Sum(cs[..k]) && (lo == 0.0 <==> k == 0)
    && forall m :: 0 <= m < |cs| ==> (cs[m].pos == p <==> m == k)
  }

  /** The walk ends at the only candidate for position p exactly when r lies in its stretch. */
  lemma WalkAt(cs: seq<Candidate>, p: nat, k: nat, r: real)
    requires Positive(cs) && k < |cs| && 0.0 <= r <= Sum(cs)
    requires forall m :: 0 <= m < |cs| ==> (cs[m].pos == p <==> m == k)
    ensures Walk(cs, r, 0) < |cs|
    ensures cs[Walk(cs, r, 0)].pos == p <==> (k == 0 || Sum(cs[..k]) < r) && r <= Sum(cs[..k]) + cs[k].weight
  {
    WalkInterval(cs, r, k);
  }

  lemma SpinInterval(slots: seq<Option<real>>, start: nat, p: nat, r: real, lo: real, k: nat)
    requires Weighted(slots) && Several(slots) && IsIntervalOf(slots, start, p, lo, k) && 0.0 <= r <= Total(slots)
    ensures Spin(slots, start, r) == Some(p) <==> (lo < r || lo == 0.0) && r <= lo + slots[p].value
  {
    ScanFacts(slots, start);
    WalkAt(Scan(slots, start, |slots|), p, k, r);
    SpinWalks(slots, start, r);
  }

  lemma NonNegativeProduct(a: real, b: real)
    requires 0.0 <= a && 0.0 <= b
    ensures 0.0 <= a * b
  {
  }

  lemma DrawInRange(draw: real, t: real)
    requires 0.0 <= draw < 1.0 && 0.0 <= t
    ensures 0.0 <= Scaled(draw, t) <= t
  {
    var rest := 1.0 - draw;
    NonNegativeProduct(rest, t);
    NonNegativeProduct(draw, t);
    assert draw * t + rest * t == t;
  }

  /** What a draw chooses, read off the candidates the scan has built. */
  lemma ChooseFromScan(slots: seq<Option<real>>, start: nat, draw: real)
    requires |slots| > 1
    ensures var cs := Scan(slots, start, |slots|); Choose(slots, start, draw) == Pick(cs, Scaled(draw, Sum(cs)))
  {
    OriginIsIrrelevant(slots, start);
  }

  /** The choice is one of the candidates; without a choice there are none. */
  lemma PickChooses(cs: seq<Candidate>, r: real) returns (i: nat)
    requires Positive(cs) && 0.0 <= r <= Sum(cs)
    ensures match Pick(cs, r)
            case Some(p) => i < |cs| && cs[i].pos == p
            case None => cs == []
  {
    i := 0;
    if |cs| > 1 {
      WalkReaches(cs, r, 0);
      i := Walk(cs, r, 0);
    }
  }

  /** The candidate list read back as slots. */
  lemma CandidateIsAvailable(slots: seq<Option<real>>, start: nat, i: nat)
    requires slots != []
    ensures var cs := Scan(slots, start, |slots|);
            && (i < |cs| ==> cs[i].pos < |slots| && slots[cs[i].pos].Some?)
            && (cs == [] ==> forall p :: 0 <= p < |slots| ==> slots[p] == None)
  {
    CandidatesAreTheAvailable(slots, start);
    var cs := Scan(slots, start, |slots|);
    if i < |cs| {
      assert cs[i] in cs;
    }
    forall p | 0 <= p < |slots| && slots[p].Some? ensures cs != [] {
      assert Candidate(p, slots[p].value) in cs;
    }
  }

  lemma SpinChooses(slots: seq<Option<real>>, start: nat, r: real)
    requires Weighted(slots) && 0.0 <= r <= Total(slots)
    ensures match Spin(slots, start, r)
            case Some(p) => p < |slots| && slots[p].Some?
            case None => forall p :: 0 <= p < |slots| ==> slots[p] == None
  {
    if |slots| > 1 {
      ScanPositive(slots, start);
      OriginIsIrrelevant(slots, start);
      var i := PickChooses(Scan(slots, start, |slots|), r);
      CandidateIsAvailable(slots, start, i);
    }
  }

  lemma {:induction false} AroundNonNegative(slots: seq<Option<real>>, start: nat, i: nat)
    requires slots != [] && Weighted(slots)
    ensures Around(slots, start, i) >= 0.0
    decreases i
  {
    if i > 0 {
      AroundNonNegative(slots, start, i - 1);
    }
  }

  /** Every draw chooses an available endpoint, and none is chosen only when all are unavailable. */
  lemma AlwaysChooses(slots: seq<Option<real>>, start: nat, draw: real)
    requires Weighted(slots) && 0.0 <= draw < 1.0
    ensures match Choose(slots, start, draw)
            case Some(p) => p < |slots| && slots[p].Some?
            case None => forall p :: 0 <= p < |slots| ==> slots[p] == None
  {
    if slots != [] {
      AroundNonNegative(slots, 0, |slots|);
      DrawInRange(draw, Total(slots));
    }
    SpinChooses(slots, start, Scaled(draw, Total(slots)));
  }

  // ---------------------------------------------------------------------------
  // A lower weight moves selection to the others

  lemma {:induction false} AroundUpdate(slots: seq<Option<real>>, p: nat, w: real, i: nat)
    requires p < |slots| && slots[p].Some? && i <= |slots|
    ensures Around(slots[p := Some(w)], 0, i) == Around(slots, 0, i) + (if p < i then w - slots[p].value else 0.0)
    decreases i
  {
    if i > 0 {
      AroundUpdate(slots, p, w, i - 1);
      RemainderUnique(0, i - 1, |slots|);
    }
  }

  lemma {:induction false} AroundOthers(slots: seq<Option<real>>, p: nat, q: nat, i: nat)
    requires Weighted(slots) && p < |slots| && q < |slots| && p != q && slots[p].Some? && slots[q].Some? && i <= |slots|
    ensures Around(slots, 0, i) >= (if p < i then slots[p].value else 0.0) + (if q < i then slots[q].value else 0.0)
    decreases i
  {
    if i > 0 {
      AroundOthers(slots, p, q, i - 1);
      RemainderUnique(0, i - 1, |slots|);
    }
  }

  /** An endpoint's share of the draws. */
  function Share(slots: seq<Option<real>>, p: nat): real
    requires p < |slots|
  {
    if Total(slots) == 0.0 then 0.0 else WeightAt(slots, p) / Total(slots)
  }

  lemma CrossMultiply(a: real, b: real, t: real)
    requires 0.0 < t
    ensures a * t < b * t <==> a < b
    ensures a * t <= b * t <==> a <= b
  {
    var d := b - a;
    assert b * t - a * t == d * t;
    if d > 0.0 {
      assert d * t > 0.0;
    } else if d < 0.0 {
      assert (0.0 - d) * t > 0.0;
    }
  }

  lemma OfTotal(a: real, t: real)
    requires 0.0 < t
    ensures a / t * t == a
  {
  }

  /** A stretch of the cumulative weights is a stretch of draws. */
  lemma StretchOfDraws(draw: real, lo: real, w: real, t: real)
    requires 0.0 < t && 0.0 < w && 0.0 <= lo && lo + w <= t
    ensures lo < draw * t <==> lo / t < draw
    ensures draw * t <= lo + w <==> draw <= lo / t + w / t
    ensures 0.0 <= lo / t && lo / t + w / t <= 1.0
    ensures lo == 0.0 <==> lo / t == 0.0
  {
    var x, y := lo / t, w / t;
    OfTotal(lo, t);
    OfTotal(w, t);
    assert (x + y) * t == lo + w;
    CrossMultiply(x, draw, t);
    CrossMultiply(draw, x + y, t);
    CrossMultiply(0.0, x, t);
    CrossMultiply(x + y, 1.0, t);
    CrossMultiply(x, 0.0, t);
  }

  /** The total is at least every weight in it. */
  lemma ShareOfTotal(slots: seq<Option<real>>, p: nat, lo: real)
    requires p < |slots| && slots[p].Some? && slots[p].value > 0.0
    requires 0.0 <= lo && lo + slots[p].value <= Total(slots)
    ensures Total(slots) > 0.0 && Share(slots, p) == slots[p].value / Total(slots)
  {
  }

  lemma DrawChooses(slots: seq<Option<real>>, start: nat, p: nat, draw: real, from: real, k: nat)
    requires Weighted(slots) && Several(slots) && p < |slots| && slots[p].Some?
    requires IsIntervalOf(slots, start, p, from, k) && 0.0 <= from && from + slots[p].value <= Total(slots)
    requires 0.0 <= draw < 1.0
    ensures var lo := from / Total(slots);
            Choose(slots, start, draw) == Some(p) <==> (lo < draw || lo == 0.0) && draw <= lo + Share(slots, p)
  {
    var t := Total(slots);
    ShareOfTotal(slots, p, from);
    DrawInRange(draw, t);
    SpinInterval(slots, start, p, Scaled(draw, t), from, k);
    StretchOfDraws(draw, from, slots[p].value, t);
  }

  /**
    Selection is exactly proportional: from any origin, the draws that choose an endpoint are one interval within
    [0, 1], as long as the endpoint's share of the total weight.
  */
  lemma ChosenInterval(slots: seq<Option<real>>, start: nat, p: nat) returns (lo: real)
    requires Weighted(slots) && Several(slots) && p < |slots| && slots[p].Some?
    ensures 0.0 <= lo && lo + Share(slots, p) <= 1.0
    ensures forall draw: real :: 0.0 <= draw < 1.0 ==>
              (Choose(slots, start, draw) == Some(p) <==> (lo < draw || lo == 0.0) && draw <= lo + Share(slots, p))
  {
    var from, k := IntervalOf(slots, start, p);
    var t := Total(slots);
    ShareOfTotal(slots, p, from);
    lo := from / t;
    StretchOfDraws(0.0, from, slots[p].value, t);
    forall draw: real | 0.0 <= draw < 1.0
      ensures Choose(slots, start, draw) == Some(p) <==> (lo < draw || lo == 0.0) && draw <= lo + Share(slots, p)
    {
      DrawChooses(slots, start, p, draw, from, k);
    }
  }

  lemma {:induction false} EmptyScan(slots: seq<Option<real>>, start: nat, k: nat)
    requires slots != [] && k <= |slots|
    requires forall j: nat :: j < k ==> slots[Position(start, j, |slots|)] == None
    ensures Scan(slots, start, k) == []
    decreases k
  {
    if k > 0 {
      EmptyScan(slots, start, k - 1);
    }
  }

  lemma {:induction false} ScanExtends(slots: seq<Option<real>>, start: nat, k: nat, i: nat)
    requires slots != [] && k <= i
    ensures Scan(slots, start, k) <= Scan(slots, start, i)
    decreases i
  {
    if k < i {
      ScanExtends(slots, start, k, i - 1);
    }
  }

  lemma PositionFrom(start: nat, j: nat, n: nat)
    requires start < n && j < n
    ensures Position(start, j, n) == if start + j < n then start + j else start + j - n
  {
    if start + j < n {
      RemainderUnique(0, start + j, n);
    } else {
      RemainderUnique(1, start + j - n, n);
    }
  }

  lemma FirstCandidate(slots: seq<Option<real>>, start: nat, k: nat)
    requires k < |slots| && slots[Position(start, k, |slots|)].Some?
    requires forall j: nat :: j < k ==> slots[Position(start, j, |slots|)] == None
    ensures var cs, p := Scan(slots, start, |slots|), Position(start, k, |slots|);
            cs != [] && cs[0] == Candidate(p, slots[p].value)
  {
    EmptyScan(slots, start, k);
    ScanExtends(slots, start, k + 1, |slots|);
  }

  lemma ZeroWalks(cs: seq<Candidate>)
    requires Positive(cs) && cs != []
    ensures Pick(cs, 0.0) == Some(cs[0].pos)
  {
    var first := cs[..1];
    assert first[..0] == [] && Sum(first) == Sum(first[..0]) + cs[0].weight;
    assert Walk(cs, 0.0, 0) == 0;
  }

  /** The intervals follow the order of the scan: the draw 0 takes the first available endpoint from the origin on. */
  lemma ZeroTakesFirst(slots: seq<Option<real>>, start: nat, p: nat)
    requires Weighted(slots) && start < |slots| && p < |slots| && slots[p].Some?
    requires if start <= p then forall q :: start <= q < p ==> slots[q] == None
             else (forall q :: start <= q < |slots| ==> slots[q] == None) && forall q :: 0 <= q < p ==> slots[q] == None
    ensures Choose(slots, start, 0.0) == Some(p)
  {
    var n := |slots|;
    var k := if start <= p then p - start else n + p - start;
    PositionFrom(start, k, n);
    forall j: nat | j < k ensures slots[Position(start, j, n)] == None {
      PositionFrom(start, j, n);
    }
    FirstCandidate(slots, start, k);
    ScanPositive(slots, start);
    ZeroWalks(Scan(slots, start, n));
  }

  /** Shares are in proportion to the weights. */
  lemma SharesAreProportional(slots: seq<Option<real>>, p: nat, q: nat)
    requires Weighted(slots) && p < |slots| && q < |slots| && slots[p].Some? && slots[q].Some?
    ensures Share(slots, p) * slots[q].value == Share(slots, q) * slots[p].value
  {
    var t, a, b := Total(slots), slots[p].value, slots[q].value;
    if t != 0.0 {
      assert a / t * b == b / t * a;
    }
  }

  lemma Quotients(a: real, b: real, s: real, t: real)
    requires 0.0 < s && 0.0 < t && a * t < b * s
    ensures a / s < b / t
  {
    var x, y := a / s, b / t;
    assert x * s == a && y * t == b;
    assert (x * s) * t < (y * t) * s;
    assert (y - x) * (s * t) > 0.0;
  }

  /**
    A smaller weight for one of several candidates lowers its share, raises every other one, and leaves all
    positive.
  */
  lemma LowerWeightShifts(slots: seq<Option<real>>, p: nat, w: real, q: nat)
    requires Weighted(slots) && p < |slots| && q < |slots| && p != q && slots[p].Some? && slots[q].Some?
    requires 0.0 < w < slots[p].value
    ensures 0.0 < Share(slots[p := Some(w)], p) < Share(slots, p)
    ensures 0.0 < Share(slots, q) < Share(slots[p := Some(w)], q)
  {
    var slots' := slots[p := Some(w)];
    AroundUpdate(slots, p, w, |slots|);
    AroundOthers(slots, p, q, |slots|);
    var t, t', v, u := Total(slots), Total(slots'), slots[p].value, slots[q].value;
    assert t' == t + w - v && t >= v + u;
    SharesShift(t, v, w, u);
  }

  lemma SharesShift(t: real, v: real, w: real, u: real)
    requires 0.0 < w < v && 0.0 < u && t >= v + u
    ensures 0.0 < w / (t + w - v) < v / t
    ensures 0.0 < u / t < u / (t + w - v)
  {
    var t' := t + w - v;
    assert w * t < v * t' by {
      assert v * t' - w * t == (v - w) * (t - v);
      assert (v - w) * (t - v) > 0.0;
    }
    Quotients(w, v, t', t);
    assert u * t' < u * t;
    Quotients(u, u, t, t');
    assert 0.0 * t' < w * 1.0;
    Quotients(0.0, w, 1.0, t');
    Quotients(0.0, u, 1.0, t);
  }

  // ---------------------------------------------------------------------------
  // The rotating origin

  /** currentIndex after k more scans. */
  function Counter(c: nat, k: nat): nat {
    (c + k) % TWO_64
  }

  /** Where the scan that brings the counter to `c` starts. */
  function Origin(c: nat, n: nat): nat
    requires n > 0
  {
    c % n
  }

  /** n consecutive scans, after the counter stood at c, start at n different positions. */
  ghost predicate FairWindow(c: nat, n: nat)
    requires n > 0
  {
    forall i, j :: 1 <= i < j <= n ==> Origin(Counter(c, i), n) != Origin(Counter(c, j), n)
  }

  lemma Unwrapped(c: nat, k: nat)
    requires c < TWO_64 && k <= TWO_64
    ensures Counter(c, k) == if c + k < TWO_64 then c + k else c + k - TWO_64
  {
  }

  lemma ConsecutiveDiffer(a: nat, b: nat, n: nat)
    requires a < b < a + n
    ensures a % n != b % n
  {
    PositionsDiffer(a, 0, b - a, n);
  }

  /**
    Any n consecutive scans start at n different positions unless the counter wraps inside the window and n
    does not divide 2^64.
  */
  lemma FairWindowIff(c: nat, n: nat)
    requires c < TWO_64 && 1 < n <= TWO_64
    ensures FairWindow(c, n) <==> (c + n < TWO_64 || c + 1 == TWO_64 || TWO_64 % n == 0)
  {
    if c + n < TWO_64 || c + 1 == TWO_64 || TWO_64 % n == 0 {
      forall i, j | 1 <= i < j <= n ensures Origin(Counter(c, i), n) != Origin(Counter(c, j), n) {
        Unwrapped(c, i);
        Unwrapped(c, j);
        if TWO_64 % n == 0 {
          SameOrigin(c, i, n);
          SameOrigin(c, j, n);
          ConsecutiveDiffer(c + i, c + j, n);
        } else {
          ConsecutiveDiffer(Counter(c, i), Counter(c, j), n);
        }
      }
    } else {
      WrapCollides(c, n);
    }
  }

  /** When n divides 2^64, wrapping does not disturb the rotation. */
  lemma SameOrigin(c: nat, k: nat, n: nat)
    requires c < TWO_64 && 0 < n && k <= TWO_64 && TWO_64 % n == 0
    ensures Origin(Counter(c, k), n) == (c + k) % n
  {
    Unwrapped(c, k);
    if c + k >= TWO_64 {
      var m := c + k - TWO_64;
      var q := TWO_64 / n;
      assert TWO_64 == q * n;
      assert c + k == (q + m / n) * n + m % n;
      RemainderUnique(q + m / n, m % n, n);
    }
  }

  /** A wrap inside the window makes two of its scans start at one position when n does not divide 2^64. */
  lemma WrapCollides(c: nat, n: nat)
    requires c + 1 < TWO_64 <= c + n && 1 < n <= TWO_64 && TWO_64 % n != 0
    ensures !FairWindow(c, n)
  {
    var left, q, r := TWO_64 - 1 - c, TWO_64 / n, TWO_64 % n;
    assert TWO_64 == q * n + r;
    if r >= left {
      // the first scan and the one left + r - left + 1 = r + 1 scans in
      Unwrapped(c, 1);
      Unwrapped(c, r + 1);
      assert c + 1 == q * n + (r - left);
      RemainderUnique(q, r - left, n);
      assert Counter(c, r + 1) == r - left;
      RemainderUnique(0, r - left, n);
      assert Origin(Counter(c, 1), n) == Origin(Counter(c, r + 1), n);
    } else {
      // the scan at q * n, and the first one after the wrap
      Unwrapped(c, left - r + 1);
      Unwrapped(c, left + 1);
      assert Counter(c, left - r + 1) == q * n;
      RemainderUnique(q, 0, n);
      assert Origin(Counter(c, left - r + 1), n) == Origin(Counter(c, left + 1), n);
    }
  }
}
