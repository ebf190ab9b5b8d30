/** The interval query of `updateCurrentInterval`: normalise the dragged range,
    measure it, decide whether it is large (at least eps * n points), and for a
    large range find the first guard pair, in construction order, inside it. */
module IntervalQuery {
  import opened Intervals

  /** The record the query produces for the selected range [i, j]. */
  datatype Selection = Selection(i: int, j: int, count: int, large: bool, guardIndex: int)

  /** `count >= eps * n`, against the exact threshold rather than lenMin. */
  predicate Large(count: int, eps: real, n: int) {
    count as real >= eps * (n as real)
  }

  /** `large` is measured against eps * n itself, not against the sampler's
      lenMin: every count of at least lenMin is large, and a count below
      lenMin can be large only when lenMin is 2 and the count at most 1. */
  lemma LargeAgainstLenMin(count: int, eps: real, n: int)
    ensures count >= LenMin(eps, n) ==> Large(count, eps, n)
    ensures Large(count, eps, n) && count < LenMin(eps, n) ==> LenMin(eps, n) == 2 && count <= 1
  {
  }

  /** Index of the first pair of ps inside [i, j], or -1 when there is none. */
  function FirstGuardIn(ps: seq<GuardPair>, i: int, j: int): (g: int)
    ensures -1 <= g < |ps|
    ensures g >= 0 ==> Inside(ps[g], i, j)
    ensures g >= 0 ==> forall h :: 0 <= h < g ==> !Inside(ps[h], i, j)
    ensures g == -1 <==> forall h :: 0 <= h < |ps| ==> !Inside(ps[h], i, j)
  {
    if ps == [] then -1
    else if Inside(ps[0], i, j) then 0
    else
      var g := FirstGuardIn(ps[1..], i, j);
      if g == -1 then -1 else g + 1
  }

  /** The guard scan: the first g with `a >= i && b <= j`, leaving the loop at
      once with `break`. */
  method FindGuard(ps: seq<GuardPair>, i: int, j: int) returns (guardIndex: int)
    ensures guardIndex == FirstGuardIn(ps, i, j)
  {
    guardIndex := -1;
    for g := 0 to |ps|
      invariant guardIndex == -1
      invariant forall h :: 0 <= h < g ==> !Inside(ps[h], i, j)
    {
      if ps[g].a >= i && ps[g].b <= j {
        guardIndex := g;
        break;
      }
    }
  }

  /** What the query reports for a drag from `start` to `idx`: the range from
      the smaller to the larger index, its number of points, whether it is
      large, and the first guard inside it when it is large. */
  function SelectionFor(start: int, idx: int, eps: real, n: int, ps: seq<GuardPair>): (r: Selection)
    ensures r.i <= r.j && {r.i, r.j} == {start, idx}
    ensures r.count == r.j - r.i + 1 && r.count >= 1
    ensures r.large <==> r.count as real >= eps * (n as real)
    ensures !r.large ==> r.guardIndex == -1
    ensures r.large ==> r.guardIndex == FirstGuardIn(ps, r.i, r.j)
    ensures r.guardIndex >= 0 <==> r.large && exists g :: 0 <= g < |ps| && Inside(ps[g], r.i, r.j)
  {
    var i := Min(start, idx);
    var j := Max(start, idx);
    var count := j - i + 1;
    var large := Large(count, eps, n);
    Selection(i, j, count, large, if large then FirstGuardIn(ps, i, j) else -1)
  }

  /** Enlarging the range never turns a large range small, and never loses a
      match: the first guard inside the larger range comes no later. */
  lemma EnlargeKeepsMatch(ps: seq<GuardPair>, i: int, j: int, i': int, j': int)
    requires i' <= i && j <= j'
    ensures FirstGuardIn(ps, i, j) >= 0 ==> 0 <= FirstGuardIn(ps, i', j') <= FirstGuardIn(ps, i, j)
  {
  }

  /** The query is monotone: a larger selection is large whenever the smaller
      one is, and then finds a guard no later than the smaller one did. */
  lemma SelectionMonotone(start: int, idx: int, start': int, idx': int, eps: real, n: int, ps: seq<GuardPair>)
    requires Min(start', idx') <= Min(start, idx) && Max(start, idx) <= Max(start', idx')
    ensures var r := SelectionFor(start, idx, eps, n, ps);
      var r' := SelectionFor(start', idx', eps, n, ps);
      (r.large ==> r'.large) &&
      (r.guardIndex >= 0 ==> 0 <= r'.guardIndex <= r.guardIndex)
  {
  }
}
