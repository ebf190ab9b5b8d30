/** The greedy guard construction of `buildGuards`: while some sampled interval
    is uncovered and the budget of 3n rounds lasts, take the first uncovered
    interval, push its midpoint-straddling pair, and mark every uncovered
    interval that contains that pair as covered. */
module Covering {
  import opened Intervals

  /** The rounds the `while (safety-- > 0)` loop allows. */
  function Budget(n: int): (b: nat)
    ensures n >= 0 ==> b == 3 * n
    ensures n < 0 ==> b == 0
  {
    if n > 0 then 3 * n else 0
  }

  /** Index of the first uncovered interval, in sample order. */
  function FirstUncovered(s: seq<SampledInterval>): (r: Option<nat>)
    ensures r.None? ==> AllCovered(s)
    ensures r.Some? ==> r.value < |s| && !s[r.value].covered
    ensures r.Some? ==> forall k :: 0 <= k < r.value ==> s[k].covered
  {
    if s == [] then None
    else if !s[0].covered then Some(0)
    else match FirstUncovered(s[1..])
      case None => None
      case Some(k) => Some(k + 1)
  }

  /** Number of intervals not yet covered. */
  function UncoveredCount(s: seq<SampledInterval>): nat
  {
    if s == [] then 0 else (if s[0].covered then 0 else 1) + UncoveredCount(s[1..])
  }

  /** One marking pass: every uncovered interval that contains p becomes
      covered; positions and covered flags otherwise stay as they were. */
  function MarkCovered(s: seq<SampledInterval>, p: GuardPair): (r: seq<SampledInterval>)
    ensures |r| == |s|
    ensures forall k :: 0 <= k < |s| ==> r[k].i == s[k].i && r[k].j == s[k].j
    ensures forall k :: 0 <= k < |s| ==> (r[k].covered <==> s[k].covered || Inside(p, s[k].i, s[k].j))
  {
    seq(|s|, k requires 0 <= k < |s| =>
      if !s[k].covered && s[k].i <= p.a && s[k].j >= p.b then s[k].(covered := true) else s[k])
  }

  /** What a run of the greedy loop leaves behind: the pushed pairs and the
      intervals with their final flags. */
  datatype Build = Build(pairs: seq<GuardPair>, intervals: seq<SampledInterval>)

  /** The greedy loop as a specification, with `budget` rounds left. */
  function Greedy(s: seq<SampledInterval>, budget: nat): (r: Build)
    ensures |r.intervals| == |s|
    ensures |r.pairs| <= budget
    decreases budget
  {
    if budget == 0 then Build([], s)
    else match FirstUncovered(s)
      case None => Build([], s)
      case Some(k) =>
        var p := GuardPairFor(s[k].i, s[k].j);
        var rest := Greedy(MarkCovered(s, p), budget - 1);
        Build([p] + rest.pairs, rest.intervals)
  }

  /** Some pair among ps lies inside J. */
  predicate Hit(ps: seq<GuardPair>, J: SampledInterval) {
    exists g :: 0 <= g < |ps| && Inside(ps[g], J.i, J.j)
  }

  /** Every covered interval contains some pair of ps. */
  predicate CoveredAreHit(ps: seq<GuardPair>, s: seq<SampledInterval>) {
    forall k :: 0 <= k < |s| && s[k].covered ==> Hit(ps, s[k])
  }

  /** Every interval runs over 0..n-1 and holds at least two points. */
  predicate SpansWithin(s: seq<SampledInterval>, n: int) {
    forall k :: 0 <= k < |s| ==> 0 <= s[k].i < s[k].j <= n - 1
  }

  /** Every interval is covered. */
  predicate AllCovered(s: seq<SampledInterval>) {
    forall k :: 0 <= k < |s| ==> s[k].covered
  }

  /** No interval is covered yet, as the sampler delivers them. */
  predicate NoneCovered(s: seq<SampledInterval>) {
    forall k :: 0 <= k < |s| ==> !s[k].covered
  }

  /** Every pair is two distinct points among 0..n-1, in increasing order. */
  predicate AllWellFormed(ps: seq<GuardPair>, n: int) {
    forall g :: 0 <= g < |ps| ==> WellFormed(ps[g], n)
  }

  /** A set flag stays set, and the endpoints of every interval stay put. */
  predicate Grows(s: seq<SampledInterval>, t: seq<SampledInterval>) {
    |t| == |s| &&
    (forall k :: 0 <= k < |s| ==> t[k].i == s[k].i && t[k].j == s[k].j) &&
    (forall k :: 0 <= k < |s| && s[k].covered ==> t[k].covered)
  }

  // ---------------------------------------------------------------------------
  // One round

  lemma {:induction false} CountShrinks(s: seq<SampledInterval>, t: seq<SampledInterval>, k: nat)
    requires Grows(s, t) && k < |s| && !s[k].covered && t[k].covered
    ensures UncoveredCount(t) < UncoveredCount(s)
    decreases |s|
  {
    if k == 0 {
      CountNoGrowth(s[1..], t[1..]);
    } else {
      CountShrinks(s[1..], t[1..], k - 1);
    }
  }

  lemma {:induction false} CountNoGrowth(s: seq<SampledInterval>, t: seq<SampledInterval>)
    requires Grows(s, t)
    ensures UncoveredCount(t) <= UncoveredCount(s)
    decreases |s|
  {
    if s != [] {
      CountNoGrowth(s[1..], t[1..]);
    }
  }

  /** A round covers the interval it chose, so the number of uncovered
      intervals strictly drops; no flag goes from covered to uncovered. */
  lemma RoundProgress(s: seq<SampledInterval>, k: nat)
    requires FirstUncovered(s) == Some(k)
    ensures var t := MarkCovered(s, GuardPairFor(s[k].i, s[k].j));
      Grows(s, t) && t[k].covered && UncoveredCount(t) < UncoveredCount(s)
  {
    var t := MarkCovered(s, GuardPairFor(s[k].i, s[k].j));
    CountShrinks(s, t, k);
  }

  // ---------------------------------------------------------------------------
  // Whole runs

  lemma GrowsTransitive(s: seq<SampledInterval>, t: seq<SampledInterval>, u: seq<SampledInterval>)
    requires Grows(s, t) && Grows(t, u)
    ensures Grows(s, u)
  {
  }

  /** The loop only sets flags and never moves an interval. */
  lemma {:induction false} GreedyGrows(s: seq<SampledInterval>, budget: nat)
    ensures Grows(s, Greedy(s, budget).intervals)
    decreases budget
  {
    if budget > 0 && FirstUncovered(s).Some? {
      var k := FirstUncovered(s).value;
      var t := MarkCovered(s, GuardPairFor(s[k].i, s[k].j));
      GreedyRound(s, budget, k);
      RoundProgress(s, k);
      GreedyGrows(t, budget - 1);
      GrowsTransitive(s, t, Greedy(t, budget - 1).intervals);
    }
  }

  /** At most one pair per round, and at most one pair per interval that was
      uncovered at the start. */
  lemma {:induction false} GreedyCount(s: seq<SampledInterval>, budget: nat)
    ensures |Greedy(s, budget).pairs| <= budget
    ensures |Greedy(s, budget).pairs| <= UncoveredCount(s) <= |s|
    decreases budget
  {
    UncoveredAtMostLength(s);
    if budget > 0 && FirstUncovered(s).Some? {
      var k := FirstUncovered(s).value;
      var t := MarkCovered(s, GuardPairFor(s[k].i, s[k].j));
      GreedyRound(s, budget, k);
      RoundProgress(s, k);
      GreedyCount(t, budget - 1);
    }
  }

  lemma {:induction false} UncoveredAtMostLength(s: seq<SampledInterval>)
    ensures UncoveredCount(s) <= |s|
  {
    if s != [] {
      UncoveredAtMostLength(s[1..]);
    }
  }

  /** The loop stops only when every interval is covered or the budget is spent. */
  lemma {:induction false} GreedyExit(s: seq<SampledInterval>, budget: nat)
    ensures AllCovered(Greedy(s, budget).intervals) || |Greedy(s, budget).pairs| == budget
    decreases budget
  {
    if budget > 0 && FirstUncovered(s).Some? {
      var k := FirstUncovered(s).value;
      GreedyRound(s, budget, k);
      GreedyExit(MarkCovered(s, GuardPairFor(s[k].i, s[k].j)), budget - 1);
    }
  }

  /** Every pushed pair is two adjacent points inside a sampled interval, so it
      is well formed whenever the intervals run over 0..n-1 and hold at least
      two points each. */
  lemma {:induction false} GreedyPairsWellFormed(s: seq<SampledInterval>, budget: nat, n: int)
    requires SpansWithin(s, n)
    ensures forall g :: 0 <= g < |Greedy(s, budget).pairs| ==>
      WellFormed(Greedy(s, budget).pairs[g], n) &&
      Greedy(s, budget).pairs[g].b == Greedy(s, budget).pairs[g].a + 1
    decreases budget
  {
    if budget > 0 && FirstUncovered(s).Some? {
      var k := FirstUncovered(s).value;
      var p := GuardPairFor(s[k].i, s[k].j);
      var t := MarkCovered(s, p);
      GreedyRound(s, budget, k);
      GreedyPairsWellFormed(t, budget - 1, n);
      var ps := Greedy(s, budget).pairs;
      assert ps == [p] + Greedy(t, budget - 1).pairs;
      forall g | 0 <= g < |ps|
        ensures WellFormed(ps[g], n) && ps[g].b == ps[g].a + 1
      {
        if g > 0 {
          assert ps[g] == Greedy(t, budget - 1).pairs[g - 1];
        }
      }
    }
  }

  /** One marking pass keeps coverage sound once its pair is appended. */
  lemma RoundHits(prior: seq<GuardPair>, s: seq<SampledInterval>, p: GuardPair)
    requires CoveredAreHit(prior, s)
    ensures CoveredAreHit(prior + [p], MarkCovered(s, p))
  {
    var t := MarkCovered(s, p);
    var prior' := prior + [p];
    forall m | 0 <= m < |t| && t[m].covered
      ensures Hit(prior', t[m])
    {
      if s[m].covered {
        var g :| 0 <= g < |prior| && Inside(prior[g], s[m].i, s[m].j);
        assert prior'[g] == prior[g];
      } else {
        assert prior'[|prior|] == p;
      }
    }
  }

  /** Coverage is sound: given pairs `prior` already hitting every covered
      interval, after the loop every covered interval contains a pair of
      `prior` followed by the pushed pairs. */
  lemma {:induction false} GreedyHits(prior: seq<GuardPair>, s: seq<SampledInterval>, budget: nat)
    requires CoveredAreHit(prior, s)
    ensures CoveredAreHit(prior + Greedy(s, budget).pairs, Greedy(s, budget).intervals)
    decreases budget
  {
    if budget > 0 && FirstUncovered(s).Some? {
      var k := FirstUncovered(s).value;
      var p := GuardPairFor(s[k].i, s[k].j);
      var t := MarkCovered(s, p);
      GreedyRound(s, budget, k);
      RoundHits(prior, s, p);
      GreedyHits(prior + [p], t, budget - 1);
      assert (prior + [p]) + Greedy(t, budget - 1).pairs == prior + Greedy(s, budget).pairs;
    } else {
      assert prior + Greedy(s, budget).pairs == prior;
    }
  }

  /** Starting from intervals that are all uncovered, every interval the loop
      covers contains one of the pairs it pushed. */
  lemma CoveredContainsGuard(s: seq<SampledInterval>, budget: nat)
    requires NoneCovered(s)
    ensures CoveredAreHit(Greedy(s, budget).pairs, Greedy(s, budget).intervals)
  {
    GreedyHits([], s, budget);
    assert [] + Greedy(s, budget).pairs == Greedy(s, budget).pairs;
  }

  /** Everything a run with budget 3n guarantees, in one place. */
  lemma GreedySummary(s: seq<SampledInterval>, n: int)
    ensures var r := Greedy(s, Budget(n));
      Grows(s, r.intervals) &&
      |r.pairs| <= Budget(n) && |r.pairs| <= |s| &&
      (AllCovered(r.intervals) || |r.pairs| == Budget(n)) &&
      (NoneCovered(s) ==> CoveredAreHit(r.pairs, r.intervals)) &&
      (SpansWithin(s, n) ==> AllWellFormed(r.pairs, n))
  {
    GreedyGrows(s, Budget(n));
    GreedyCount(s, Budget(n));
    GreedyExit(s, Budget(n));
    if NoneCovered(s) {
      CoveredContainsGuard(s, Budget(n));
    }
    if SpansWithin(s, n) {
      GreedyPairsWellFormed(s, Budget(n), n);
    }
  }

  // ---------------------------------------------------------------------------
  // The loop as the source runs it, over an array of interval records

  /** `intervals.filter((I) => !I.covered)[0]`, as a search for the first
      uncovered record. */
  method FindFirstUncovered(a: array<SampledInterval>) returns (r: Option<nat>)
    ensures r == FirstUncovered(a[..])
  {
    var k := 0;
    while k < a.Length
      invariant 0 <= k <= a.Length
      invariant forall m :: 0 <= m < k ==> a[m].covered
    {
      if !a[k].covered {
        r := Some(k);
        assert forall m :: 0 <= m < k ==> a[..][m].covered;
        return;
      }
      k := k + 1;
    }
    assert forall m :: 0 <= m < a.Length ==> a[..][m].covered;
    r := None;
  }

  /** The marking pass `for (const J of intervals)`, flipping flags in place. */
  method MarkContaining(a: array<SampledInterval>, p: GuardPair)
    modifies a
    ensures a[..] == MarkCovered(old(a[..]), p)
  {
    for k := 0 to a.Length
      invariant forall m :: 0 <= m < k ==> a[m] == MarkCovered(old(a[..]), p)[m]
      invariant forall m :: k <= m < a.Length ==> a[m] == old(a[m])
    {
      if !a[k].covered && a[k].i <= p.a && a[k].j >= p.b {
        a[k] := a[k].(covered := true);
      }
    }
  }

  /** The pairs `ps` pushed before a run, followed by that run. */
  function After(ps: seq<GuardPair>, r: Build): Build {
    Build(ps + r.pairs, r.intervals)
  }

  /** Rounds left on a `safety` counter that is compared with 0 before it is decremented. */
  function RoundsLeft(safety: int): nat {
    if safety > 0 then safety else 0
  }

  lemma GreedyRound(s: seq<SampledInterval>, budget: nat, k: nat)
    requires budget > 0 && FirstUncovered(s) == Some(k)
    ensures Greedy(s, budget) ==
      After([GuardPairFor(s[k].i, s[k].j)], Greedy(MarkCovered(s, GuardPairFor(s[k].i, s[k].j)), budget - 1))
  {
  }

  lemma AfterAfter(ps: seq<GuardPair>, qs: seq<GuardPair>, r: Build)
    ensures After(ps, After(qs, r)) == After(ps + qs, r)
  {
    assert ps + (qs + r.pairs) == (ps + qs) + r.pairs;
  }

  /** The greedy loop with its `safety` counter of 3n rounds. It runs exactly
      as `Greedy` prescribes; hence it only sets flags, pushes at most 3n
      pairs and at most one per interval, stops with everything covered or
      the budget spent, and, from an all-uncovered start, leaves every covered
      interval containing some pushed pair. */
  method CoverGreedily(n: int, a: array<SampledInterval>) returns (pairs: seq<GuardPair>)
    modifies a
    ensures Build(pairs, a[..]) == Greedy(old(a[..]), Budget(n))
    ensures Grows(old(a[..]), a[..])
    ensures |pairs| <= Budget(n) && |pairs| <= a.Length
    ensures AllCovered(a[..]) || |pairs| == Budget(n)
    ensures NoneCovered(old(a[..])) ==> CoveredAreHit(pairs, a[..])
    ensures SpansWithin(old(a[..]), n) ==> AllWellFormed(pairs, n)
  {
    ghost var start := a[..];
    pairs := [];
    var safety := 3 * n;
    assert After(pairs, Greedy(a[..], RoundsLeft(safety))) == Greedy(start, Budget(n));
    while safety > 0
      invariant After(pairs, Greedy(a[..], RoundsLeft(safety))) == Greedy(start, Budget(n))
    {
      ghost var before := a[..];
      safety := safety - 1;
      var first := FindFirstUncovered(a);
      if first.None? {
        assert After(pairs, Build([], a[..])) == Build(pairs, a[..]);
        break;
      }
      var I := a[first.value];
      var p := GuardPairFor(I.i, I.j);
      ghost var rest := Greedy(MarkCovered(before, p), safety);
      GreedyRound(before, safety + 1, first.value);
      AfterAfter(pairs, [p], rest);
      assert After(pairs + [p], rest) == Greedy(start, Budget(n));
      pairs := pairs + [p];
      MarkContaining(a, p);
      assert a[..] == MarkCovered(before, p) && RoundsLeft(safety) == safety;
    }
    assert Build(pairs, a[..]) == Greedy(start, Budget(n));
    GreedySummary(start, n);
  }
}
