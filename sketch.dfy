/** The sketch's session state: the configuration (n, eps), the guard pairs
    of the last build and the interval currently selected, with the
    operations that rebuild the guards and answer a drag selection. */
module Sketch {
  import opened Intervals
  import opened Sampler
  import opened Covering
  import opened IntervalQuery

  /** The guard pairs one build produces from the given draws. */
  function Guards(n: int, eps: real, draws: seq<Draw>): (r: seq<GuardPair>)
    requires ValidDraws(draws)
    ensures AllWellFormed(r, n)
    ensures |r| <= Budget(n) && |r| <= Samples
  {
    var lenMin := LenMin(eps, n);
    if lenMin > n then []
    else
      var s := Sampled(n, lenMin, draws);
      GreedyPairsWellFormed(s, Budget(n), n);
      GreedyCount(s, Budget(n));
      Greedy(s, Budget(n)).pairs
  }

  /** Every guard pair is two adjacent points among 0..n-1; there are at most
      3n of them and at most one per sampled interval; when lenMin exceeds n,
      and so whenever n <= 1, there are none. */
  lemma GuardsWellFormed(n: int, eps: real, draws: seq<Draw>)
    requires ValidDraws(draws)
    ensures var ps := Guards(n, eps, draws);
      AllWellFormed(ps, n) &&
      (forall g :: 0 <= g < |ps| ==> ps[g].b == ps[g].a + 1) &&
      |ps| <= Budget(n) && |ps| <= Samples &&
      (LenMin(eps, n) > n ==> ps == []) &&
      (n <= 1 ==> ps == [])
  {
    var lenMin := LenMin(eps, n);
    if lenMin <= n {
      var s := Sampled(n, lenMin, draws);
      assert SpansWithin(s, n);
      GreedyPairsWellFormed(s, Budget(n), n);
      GreedyCount(s, Budget(n));
    }
  }

  /** A build samples only intervals that start as uncovered, keeps their
      endpoints, leaves every covered one containing a guard pair, and ends
      with all of them covered unless all 3n rounds were used. */
  lemma GuardsCoverSamples(n: int, eps: real, draws: seq<Draw>)
    requires ValidDraws(draws) && LenMin(eps, n) <= n
    ensures var s := Sampled(n, LenMin(eps, n), draws);
      var r := Greedy(s, Budget(n));
      r.pairs == Guards(n, eps, draws) &&
      Grows(s, r.intervals) &&
      CoveredAreHit(r.pairs, r.intervals) &&
      (AllCovered(r.intervals) || |r.pairs| == 3 * n)
  {
    var s := Sampled(n, LenMin(eps, n), draws);
    GreedyGrows(s, Budget(n));
    CoveredContainsGuard(s, Budget(n));
    GreedyExit(s, Budget(n));
  }

  /** Worked cases: with n = 10 and eps = 0.3 the minimum sampled length is 3,
      a three-point selection is large and a two-point one is not; with the
      guards (2,3), (6,7) the range [1, 4] finds guard 0 and [0, 1] none. */
  lemma DocumentedExamples()
    ensures LenMin(0.3, 10) == 3
    ensures SelectionFor(0, 2, 0.3, 10, []).large
    ensures var r := SelectionFor(1, 0, 0.3, 10, [GuardPair(2, 3), GuardPair(6, 7)]);
      !r.large && r.guardIndex == -1 && r.count == 2
    ensures FirstGuardIn([GuardPair(2, 3), GuardPair(6, 7)], 1, 4) == 0
    ensures FirstGuardIn([GuardPair(2, 3), GuardPair(6, 7)], 0, 1) == -1
  {
  }

  /** The n input's handler: an unparsable value or one below 10 becomes 10,
      one above 200 becomes 200. */
  function ClampPointCount(value: Option<int>): (m: int)
    ensures 10 <= m <= 200
    ensures value.Some? && 10 <= value.value <= 200 ==> m == value.value
    ensures value.Some? && value.value > 200 ==> m == 200
    ensures value.None? || value.value < 10 ==> m == 10
  {
    var v := if value.None? || value.value < 10 then 10 else value.value;
    if v > 200 then 200 else v
  }

  class Session {
    var n: int
    var eps: real
    var guardPairs: seq<GuardPair>
    var currentInterval: Option<Selection>

    /** The stored guard pairs are pairs of distinct points, at most 3n. Every
        rebuild establishes it and the query keeps it. */
    ghost predicate Valid()
      reads this`n, this`guardPairs
    {
      AllWellFormed(guardPairs, n) && |guardPairs| <= Budget(n)
    }

    /** The sketch's setup: n = 40, eps = 0.2, and a first build. */
    constructor (draws: seq<Draw>)
      requires ValidDraws(draws)
      ensures Valid()
      ensures n == 40 && eps == 0.2 && currentInterval == None
      ensures guardPairs == Guards(40, 0.2, draws)
    {
      n := 40;
      eps := 0.2;
      guardPairs := [];
      currentInterval := None;
      new;
      BuildGuards(draws);
    }

    /** `buildGuards`: reset the pairs, give up when lenMin exceeds n,
        otherwise sample the intervals and run the greedy loop over them. */
    method BuildGuards(draws: seq<Draw>)
      requires ValidDraws(draws)
      modifies this`guardPairs
      ensures Valid()
      ensures guardPairs == Guards(n, eps, draws)
    {
      guardPairs := [];
      var lenMin := LenMin(eps, n);
      if lenMin > n {
        GuardsWellFormed(n, eps, draws);
        return;
      }
      var sampled := SampleIntervals(n, lenMin, draws);
      var intervals := new SampledInterval[|sampled|](k requires 0 <= k < |sampled| => sampled[k]);
      assert intervals[..] == sampled;
      guardPairs := CoverGreedily(n, intervals);
      GuardsWellFormed(n, eps, draws);
    }

    /** The eps slider's handler: store the value, rebuild, drop the selection. */
    method SetEps(value: real, draws: seq<Draw>)
      requires ValidDraws(draws)
      modifies this
      ensures Valid()
      ensures eps == value && n == old(n) && currentInterval == None
      ensures guardPairs == Guards(n, value, draws)
    {
      eps := value;
      BuildGuards(draws);
      currentInterval := None;
    }

    /** The n input's handler: clamp the value into [10, 200], store it,
        rebuild, drop the selection. */
    method SetPointCount(value: Option<int>, draws: seq<Draw>)
      requires ValidDraws(draws)
      modifies this
      ensures Valid()
      ensures n == ClampPointCount(value) && eps == old(eps) && currentInterval == None
      ensures guardPairs == Guards(n, eps, draws)
    {
      n := ClampPointCount(value);
      BuildGuards(draws);
      currentInterval := None;
    }

    /** The Regenerate button: a fresh build with new draws. */
    method Regenerate(draws: seq<Draw>)
      requires ValidDraws(draws)
      modifies this
      ensures Valid()
      ensures n == old(n) && eps == old(eps) && currentInterval == None
      ensures guardPairs == Guards(n, eps, draws)
    {
      BuildGuards(draws);
      currentInterval := None;
    }

    /** `updateCurrentInterval`: without a drag start nothing changes;
        otherwise the selection becomes the query's answer for the range
        between the drag start and idx. Only the selection is written. */
    method UpdateCurrentInterval(dragStartIndex: Option<int>, idx: int)
      modifies this`currentInterval
      ensures Valid() <==> old(Valid())
      ensures dragStartIndex.None? ==> currentInterval == old(currentInterval)
      ensures dragStartIndex.Some? ==>
        currentInterval == Some(SelectionFor(dragStartIndex.value, idx, eps, n, guardPairs))
    {
      if dragStartIndex.None? {
        return;
      }
      var i := Min(dragStartIndex.value, idx);
      var j := Max(dragStartIndex.value, idx);
      var count := j - i + 1;
      var large := Large(count, eps, n);
      var guardIndex := -1;
      if large {
        guardIndex := FindGuard(guardPairs, i, j);
      }
      assert Selection(i, j, count, large, guardIndex) == SelectionFor(dragStartIndex.value, idx, eps, n, guardPairs);
      currentInterval := Some(Selection(i, j, count, large, guardIndex));
    }
  }

  /** Asking the same query twice in a row gives the same answer. */
  method QueryTwice(s: Session, dragStartIndex: Option<int>, idx: int)
    returns (first: Option<Selection>, second: Option<Selection>)
    modifies s
    ensures first == second
  {
    s.UpdateCurrentInterval(dragStartIndex, idx);
    first := s.currentInterval;
    s.UpdateCurrentInterval(dragStartIndex, idx);
    second := s.currentInterval;
  }
}
