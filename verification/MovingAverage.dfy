/**
  The latency average idealised as floor((7*old + 3*ns) / 10), with zero meaning "no sample yet"
  (endpoint.go:194-212).
*/
module MovingAverage {
  function Blend(seen: int, ns: int): int {
    (7 * seen + 3 * ns) / 10
  }

  function Update(seen: int, ns: int): int {
    if seen == 0 then ns else Blend(seen, ns)
  }

  /** The first sample is the average; every later one moves it by three tenths of the gap, rounded down. */
  lemma SampleMoves(seen: int, ns: int)
    ensures Update(0, ns) == ns
    ensures seen != 0 ==> 10 * (Update(seen, ns) - seen) <= 3 * (ns - seen) < 10 * (Update(seen, ns) - seen) + 10
  {
  }

  function Average(start: int, samples: seq<int>): int {
    if samples == [] then start
    else Update(Average(start, samples[..|samples| - 1]), samples[|samples| - 1])
  }

  /** The average of samples from an interval stays in the interval. */
  lemma {:induction false} StaysWithin(start: int, samples: seq<int>, lo: int, hi: int)
    requires 0 <= lo && samples != []
    requires forall i :: 0 <= i < |samples| ==> lo <= samples[i] <= hi
    requires start == 0 || lo <= start <= hi
    ensures lo <= Average(start, samples) <= hi
  {
    var front := samples[..|samples| - 1];
    if front != [] {
      StaysWithin(start, front, lo, hi);
    }
  }

  /** How far an average is from the band [s - 3, s] that repeated samples s lead to. */
  function Distance(a: int, s: int): nat {
    if a > s then a - s else if a < s - 3 then s - 3 - a else 0
  }

  /** One more sample s brings the average nearer to the band without jumping over it, and never out of it. */
  lemma SampleApproaches(a: int, s: int)
    requires a >= 0 && s >= 0
    ensures Distance(a, s) > 0 ==> Distance(Update(a, s), s) < Distance(a, s)
    ensures Distance(a, s) == 0 ==> Distance(Update(a, s), s) == 0
    ensures a > s ==> s <= Update(a, s) < a
    ensures 0 < a < s - 3 ==> a < Update(a, s) <= s
    ensures Update(a, s) >= 0
  {
  }

  function Repeat(s: int, n: nat): seq<int> {
    seq(n, i => s)
  }

  /**
    From any start, after at most Distance(start, s) equal samples s the average is in [s - 3, s], and it
    stays there.
  */
  lemma {:induction false} Converges(start: int, s: int, n: nat)
    requires start >= 0 && s >= 0
    ensures Average(start, Repeat(s, n)) >= 0
    ensures Distance(Average(start, Repeat(s, n)), s) <= if n <= Distance(start, s) then Distance(start, s) - n else 0
    ensures n >= Distance(start, s) ==> s - 3 <= Average(start, Repeat(s, n)) <= s
    decreases n
  {
    if n > 0 {
      Converges(start, s, n - 1);
      assert Repeat(s, n)[..n - 1] == Repeat(s, n - 1);
      SampleApproaches(Average(start, Repeat(s, n - 1)), s);
    }
  }
}
