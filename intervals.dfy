/** Point indices, closed index intervals and guard pairs over the points 0..n-1,
    with the two pieces of pure arithmetic that the builder uses: the minimum
    sampled length and the midpoint-straddling pair of an interval. */
module Intervals {

  datatype Option<T> = None | Some(value: T)

  /** A guard pair [a, b] of point indices, in the order the builder pushes them. */
  datatype GuardPair = GuardPair(a: int, b: int)

  /** A sampled closed interval [i, j] together with the flag the greedy builder flips. */
  datatype SampledInterval = SampledInterval(i: int, j: int, covered: bool)

  /** The pair lies inside the closed index range [i, j]. */
  predicate Inside(p: GuardPair, i: int, j: int) {
    i <= p.a && p.b <= j
  }

  /** A pair of two distinct points among 0..n-1, in increasing order. */
  predicate WellFormed(p: GuardPair, n: int) {
    0 <= p.a < p.b <= n - 1
  }

  /** p5's `max` on integers. */
  function Max(x: int, y: int): (m: int)
    ensures m >= x && m >= y && (m == x || m == y)
  {
    if x >= y then x else y
  }

  /** p5's `min` on integers. */
  function Min(x: int, y: int): (m: int)
    ensures m <= x && m <= y && (m == x || m == y)
  {
    if x <= y then x else y
  }

  /** `Math.ceil` on an exact real: the least integer not below x. */
  function Ceil(x: real): (c: int)
    ensures x <= c as real < x + 1.0
  {
    -((-x).Floor)
  }

  /** `lenMin = max(2, ceil(eps * n))`: the least integer that is at least 2
      and at least eps * n. */
  function LenMin(eps: real, n: int): (m: int)
    ensures 2 <= m && eps * (n as real) <= m as real
    ensures m > 2 ==> ((m - 1) as real) < eps * (n as real)
  {
    Max(2, Ceil(eps * (n as real)))
  }

  /** The pair the builder picks for the interval [i, j]: a = floor((i+j)/2),
      b = a + 1, shifted left when b passes j, clamped into [i, j], and
      replaced by [i, j] itself when clamping leaves a >= b. Dafny's `/` by a
      positive divisor rounds down, which is the source's `floor`. */
  function GuardPairFor(i: int, j: int): (p: GuardPair)
    ensures Inside(p, i, j)
    ensures i < j ==> p.b == p.a + 1
    ensures i < j ==> 0 <= (p.a - i) - (j - p.b) <= 1
    ensures i == j ==> p == GuardPair(i, i)
  {
    var mid := (i + j) / 2;
    var a0 := if mid + 1 > j then Max(i, mid - 1) else mid;
    var b0 := if mid + 1 > j then j else mid + 1;
    var a1 := if a0 < i then i else a0;
    var b1 := if b0 > j then j else b0;
    if a1 >= b1 then GuardPair(i, j) else GuardPair(a1, b1)
  }
}
