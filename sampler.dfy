/** The interval sampler of `buildGuards`: up to 400 random closed intervals
    over the points 0..n-1, each at least lenMin points long. The random
    number source is injected: every call of p5's `random(0, k)` is given by a
    unit value u in [0, 1), and `floor(random(0, k))` is floor(u * k). */
module Sampler {
  import opened Intervals

  /** Number of intervals drawn per build. */
  const Samples := 400

  /** The two unit values one sampling round consumes, in call order:
      first for the start index, then for the extra length. */
  datatype Draw = Draw(startUnit: real, extraUnit: real)

  predicate UnitDraw(d: Draw) {
    0.0 <= d.startUnit < 1.0 && 0.0 <= d.extraUnit < 1.0
  }

  /** Enough unit values for every sampling round. */
  predicate ValidDraws(draws: seq<Draw>) {
    |draws| >= Samples && forall k :: 0 <= k < |draws| ==> UnitDraw(draws[k])
  }

  /** What the sampler promises of each interval it returns. */
  predicate Fits(J: SampledInterval, n: int, lenMin: int) {
    0 <= J.i && J.j <= n - 1 && J.j - J.i + 1 >= lenMin && !J.covered
  }

  /** `floor(random(0, k))` for the unit value u: an integer in [0, k - 1]. */
  function FloorRandom(u: real, k: int): (r: int)
    requires 0.0 <= u < 1.0 && k >= 1
    ensures 0 <= r < k
  {
    assert u * (k as real) < k as real by {
      assert (1.0 - u) * (k as real) > 0.0;
    }
    (u * (k as real)).Floor
  }

  /** One sampling round: start in [0, n - lenMin], extra in
      [0, n - (start + lenMin)], end = start + lenMin - 1 + extra. */
  function IntervalFrom(n: int, lenMin: int, d: Draw): (J: SampledInterval)
    requires 1 <= lenMin <= n && UnitDraw(d)
    ensures Fits(J, n, lenMin)
  {
    var start := FloorRandom(d.startUnit, n - lenMin + 1);
    var extra := FloorRandom(d.extraUnit, n - (start + lenMin) + 1);
    SampledInterval(start, start + lenMin - 1 + extra, false)
  }

  /** The intervals one build samples, in sample order. */
  function Sampled(n: int, lenMin: int, draws: seq<Draw>): (r: seq<SampledInterval>)
    requires lenMin >= 2 && ValidDraws(draws)
    ensures lenMin > n ==> r == []
    ensures lenMin <= n ==> |r| == Samples
    ensures forall k :: 0 <= k < |r| ==> Fits(r[k], n, lenMin)
  {
    if n - lenMin < 0 then []
    else seq(Samples, k requires 0 <= k < Samples => IntervalFrom(n, lenMin, draws[k]))
  }

  /** The sampling loop: push one interval per round, stopping at once when
      no start index fits. */
  method SampleIntervals(n: int, lenMin: int, draws: seq<Draw>) returns (intervals: seq<SampledInterval>)
    requires lenMin >= 2 && ValidDraws(draws)
    ensures intervals == Sampled(n, lenMin, draws)
    ensures lenMin > n ==> intervals == []
    ensures |intervals| <= Samples
    ensures forall k :: 0 <= k < |intervals| ==> Fits(intervals[k], n, lenMin)
  {
    intervals := [];
    for s := 0 to Samples
      invariant n - lenMin < 0 ==> intervals == []
      invariant n - lenMin >= 0 ==> intervals == Sampled(n, lenMin, draws)[..s]
    {
      var maxStart := n - lenMin;
      if maxStart < 0 {
        break;
      }
      var start := FloorRandom(draws[s].startUnit, maxStart + 1);
      var extra := FloorRandom(draws[s].extraUnit, n - (start + lenMin) + 1);
      var end := start + lenMin - 1 + extra;
      intervals := intervals + [SampledInterval(start, end, false)];
    }
  }
}
