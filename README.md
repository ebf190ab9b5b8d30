# Epsilon-net guard pairs over points on a line

This project models the algorithmic core of the epsilon-net sketch (`sketch.js`). It has n evenly spaced points, indexed 0..n-1, and a density eps. The sketch draws up to 400 random closed index intervals, each at least `lenMin = max(2, ceil(eps*n))` points long. It then greedily picks *guard pairs* `[a, b]` of point indices until every sampled interval contains one, or until a budget of 3n rounds runs out. A dragged selection `[i, j]` is reported as *large* when it has at least eps*n points. For a large selection the sketch also reports the first guard pair, in construction order, that lies inside it.

The model has five modules:

- `Intervals` (`intervals.dfy`) holds the values: a guard pair, and a sampled interval with its `covered` flag. It also holds the two pieces of pure arithmetic: `LenMin`, and `GuardPairFor`, the midpoint-straddling pair with its shift, its clamps and its fallback.
- `Sampler` (`sampler.dfy`) is the sampling loop. The source calls p5 `random(0, k)`; here each call is an injected unit value u in [0, 1), and `floor(random(0, k))` is `floor(u*k)`. So the ranges of the start index and of the extra length are proved, not assumed.
- `Covering` (`covering.dfy`) is the greedy loop. `Greedy` specifies it as a recursive function of the intervals and the rounds left. `CoverGreedily` is the loop as the source runs it: a `safety` counter, a search for the first uncovered record, and a marking pass that flips `covered` in place over an `array`. It is proved to compute exactly `Greedy`. The lemmas about `Greedy` carry the properties: soundness of coverage, bounds, progress and the exit condition.
- `IntervalQuery` (`query.dfy`) is the selection query. `FirstGuardIn` is the reference "first match" definition. `FindGuard` is the source's scan loop with `break`, and `SelectionFor` is the record that is produced.
- `Sketch` (`sketch.dfy`) is the global state of the sketch: a `Session` class with `n`, `eps`, `guardPairs` and `currentInterval`. It also holds the handlers that rebuild the guards (setup, the eps slider, the n input, the Regenerate button) and `updateCurrentInterval`. `Guards` is the pure description of one build.

- `updateCurrentInterval` normalises the range with `min` and `max`, so the query requires nothing of the order of its two indices.
- The code checks neither `n >= 1` nor `0 < eps <= 1`, so the model accepts any integer n and any real eps. When n <= 1, lenMin exceeds n and the build is empty.

One observation about `GuardPairFor`. Take any interval with `i < j`, which is every sampled interval, since lenMin >= 2. For such an interval, `mid + 1 <= j` always holds. So the shift branch, both clamps and the fallback never change the pair: it is always the adjacent pair `(mid, mid+1)`. The model keeps those branches as written. Its contract states the consequence: every guard pair is two adjacent points, and the parts of the interval to its left and to its right differ in size by at most one.

## Model

| member | source | states |
|---|---|---|
| `Intervals.LenMin` | sketch.js:188 | lenMin is the least integer that is both at least 2 and at least eps*n |
| `Intervals.GuardPairFor` | sketch.js:209-221 | the pair always lies inside [i, j]. When i < j it is two adjacent points, and the parts of [i, j] to its left and right differ by at most one point. When i = j it is (i, i) |
| `Sampler.FloorRandom` | sketch.js:197-198 | `floor(random(0, k))`, for a unit value in [0, 1) and k >= 1, lies in [0, k-1] |
| `Sampler.IntervalFrom` | sketch.js:195-200 | one sampling round gives an uncovered interval with 0 <= i, j <= n-1 and at least lenMin points |
| `Sampler.Sampled` | sketch.js:191-201 | no intervals when lenMin > n, otherwise exactly 400. Every interval fits in 0..n-1, has at least lenMin points and starts uncovered |
| `Sampler.SampleIntervals` | sketch.js:191-201 | the sampling loop produces exactly `Sampled`: at most 400 intervals, none when lenMin > n, each within bounds, long enough and uncovered |
| `Covering.FirstUncovered` | sketch.js:205-208 | no result exactly when every interval is covered. Otherwise the index of an uncovered interval with every earlier one covered |
| `Covering.FindFirstUncovered` | sketch.js:205-208 | the array search returns exactly `FirstUncovered` of the array's contents |
| `Covering.MarkCovered` | sketch.js:225-229 | endpoints unchanged; a flag ends up set exactly when it was set or the interval contains the pair |
| `Covering.MarkContaining` | sketch.js:225-229 | the in-place marking pass leaves the array equal to `MarkCovered` of its old contents |
| `Covering.RoundProgress` | sketch.js:205-229 | a round covers the interval it chose, sets no flag back to uncovered, and strictly lowers the number of uncovered intervals |
| `Covering.RoundHits` | sketch.js:223-229 | if every covered interval held a pair before a round, every covered interval holds one once the round's pair is pushed |
| `Covering.GreedyGrows` | sketch.js:225-229 | a whole run only turns flags from uncovered to covered and never moves an interval |
| `Covering.GreedyCount` | sketch.js:203-230 | a run pushes at most one pair per round, and at most one pair per interval uncovered at the start |
| `Covering.GreedyExit` | sketch.js:203-206 | a run ends with every interval covered, or with the whole budget spent |
| `Covering.GreedyPairsWellFormed` | sketch.js:208-223 | when every interval lies in 0..n-1 with i < j, every pushed pair satisfies 0 <= a < b <= n-1 with b = a + 1 |
| `Covering.GreedyHits` | sketch.js:223-229 | coverage stays sound over a whole run: each covered interval contains a pair pushed before it or during the run |
| `Covering.CoveredContainsGuard` | sketch.js:200-229 | starting from all-uncovered intervals, every interval a run marks covered contains one of its pairs |
| `Covering.Greedy` | sketch.js:203-230 | the greedy loop as a function: it keeps the number of intervals and pushes at most one pair per round. Its other properties are the lemmas `GreedyGrows`, `GreedyCount`, `GreedyExit`, `GreedyPairsWellFormed` and `GreedyHits` |
| `Covering.CoverGreedily` | sketch.js:203-230 | the `safety-- > 0` loop runs at most 3n rounds (none for n <= 0) and computes exactly `Greedy` with that budget. Hence: flags only go false to true, at most 3n pairs and at most one per interval, all covered or the budget spent, covered intervals contain a pair, and pairs are well formed |
| `IntervalQuery.FirstGuardIn` | sketch.js:277-286 | -1 exactly when no pair lies inside [i, j]; otherwise the index of a pair inside it that no earlier pair is |
| `IntervalQuery.FindGuard` | sketch.js:277-286 | the scan with `break` returns exactly `FirstGuardIn` |
| `IntervalQuery.SelectionFor` | sketch.js:270-288 | the range runs from the smaller to the larger index, with count = j - i + 1 >= 1. large iff count >= eps*n. guardIndex is -1 when not large, else the first contained guard, and it is non-negative iff the range is large and some pair lies inside it |
| `IntervalQuery.EnlargeKeepsMatch` | sketch.js:279-285 | widening [i, j] never loses a match: the first pair inside the wider range comes no later |
| `IntervalQuery.SelectionMonotone` | sketch.js:272-286 | a wider selection is large whenever the narrower one is, and then finds a guard no later |
| `IntervalQuery.LargeAgainstLenMin` | sketch.js:188-275 | `large` compares with eps*n, not lenMin: every count of at least lenMin is large, and a large count below lenMin occurs only when lenMin = 2 and the count is at most 1 |
| `Sketch.Guards` | sketch.js:186-230 | one whole `buildGuards` as a function: its pairs are well formed in 0..n-1, at most 3n and at most 400. `GuardsWellFormed` and `GuardsCoverSamples` hold the rest |
| `Sketch.GuardsWellFormed` | sketch.js:186-230 | every guard pair of a build is two adjacent points in 0..n-1. There are at most 3n and at most 400 of them, and none when lenMin > n or n <= 1 |
| `Sketch.GuardsCoverSamples` | sketch.js:186-230 | a build keeps every sample's endpoints and only sets flags. Every covered sample contains a guard pair, and all are covered unless 3n rounds were used |
| `Sketch.DocumentedExamples` | sketch.js:188-288 | n = 10, eps = 0.3 gives lenMin = 3; sizes 3 and 2 are large and small; guards (2,3),(6,7) give index 0 for [1,4] and -1 for [0,1] |
| `Sketch.ClampPointCount` | sketch.js:56-58 | the n input ends in [10, 200]. It is unchanged inside that range, 200 above it, and 10 below it or when it cannot be parsed |
| `Sketch.Session.constructor` | sketch.js:1-20 | setup starts with n = 40, eps = 0.2 and no selection, and its first build leaves `Guards(40, 0.2, draws)` |
| `Sketch.Session.BuildGuards` | sketch.js:186-231 | the stored pairs become `Guards(n, eps, draws)`, which keeps the session invariant: well-formed pairs, at most 3n of them |
| `Sketch.Session.SetEps` | sketch.js:39-44 | the slider stores eps, rebuilds the guards for the new eps and clears the selection; n is unchanged |
| `Sketch.Session.SetPointCount` | sketch.js:55-63 | the n input stores the clamped value, rebuilds the guards and clears the selection; eps is unchanged |
| `Sketch.Session.Regenerate` | sketch.js:68-72 | a rebuild with fresh draws that clears the selection; n and eps are unchanged |
| `Sketch.Session.UpdateCurrentInterval` | sketch.js:270-289 | no drag start: nothing changes. Otherwise the selection becomes `SelectionFor` of the drag range, and nothing else is written, so the session invariant holds afterwards exactly when it held before |
| `Sketch.QueryTwice` | sketch.js:270-289 | the query is idempotent: two identical calls in a row report the same selection |

## Left out

- Floating point: eps is an exact real. So `Math.ceil(eps*n)` and `count >= eps*n` are computed exactly, where the source uses IEEE doubles. Near a boundary where `eps*n` is an integer, rounding in the source can give a different lenMin or a different "large" verdict.
- The random source: each p5 `random` call is given as a unit real in [0, 1). The model does not capture the distribution, its skew toward short intervals, or the rounding of `u*k` in doubles.
- `buildPoints` and `windowResized` are not part of this model. They compute floating-point pixel coordinates and have no bearing on the indices.
- `setup` widget wiring, `draw` and `drawLegend` are not part of this model. They render and hold no logic beyond what the handlers here model.
- `nearestPointIndex` and the mouse handlers (`canvasMousePressed`, `canvasMouseMoved`, `canvasMouseReleased`) are not part of this model. They are a float-distance argmin over screen positions and drag bookkeeping. `UpdateCurrentInterval` takes the drag start index as a parameter instead of reading the global.
- `Covering.FindFirstUncovered`: the source builds the whole filtered list of uncovered intervals and takes its head. The model searches for the head directly, which gives the same interval because only its endpoints are read.
- `Covering.CoverGreedily` pushes onto a local sequence that `BuildGuards` then stores. The source pushes onto the global `guardPairs`. Nothing reads that global during a build, so the difference is not observable.
- `Sketch.Session.SetPointCount` does not model writing the clamped value back into the input widget or calling `buildPoints`.
