# Tree information: FatFactor and BloatFactor statistics

This project models `stTreeInformation`, the object that holds structural
quality statistics for a height-bounded tree index. It keeps one record per
tree level (node count, object count, intersection count and local
FatFactor) in an array sized at construction. It also keeps an optional second
array that describes an "optimal" tree, packed as tightly as possible. From
these it derives the global FatFactor and the BloatFactor and raises a ready
flag.

Modules:

- `IntMath` (`int_math.dfy`): the ceiling of an integer quotient and powers,
  with the facts the other modules need about them.
- `OptimalTree` (`optimal_tree.dfy`): the optimal tree's height and
  per-level counts, specified as integer functions. It proves that the height
  is the least h with occupation^h >= objectCount, that the simulation's
  recurrence holds, that every level is packed, that the root is one node,
  and that more objects never give a smaller tree.
- `TreeStats` (`tree_stats.dfy`): the record types, the three formulas, and
  the report's state as a value (`Report`). It has one function per
  operation giving the state after that operation, plus lemmas about them
  (idempotence of `Calculate`, totals after a reset, a worked example).
- `TreeInfo` (`tree_information.dfy`): the class `TreeInformation`. Its
  fields are arrays and scalars. Its methods use the loops of the original,
  and each method's postcondition ties the new `State()` to the matching
  `TreeStats` function of the old one.

Doubles are read as exact reals. A quotient whose divisor is zero is the
value `Undefined`, which stands for the infinite or NaN double the original
would produce. So `Calculate` needs no precondition beyond the object
invariant, and the zero-divisor cases are part of each formula's contract.

`TreeInformation.RecordLevel` is a stand-in for the external tree traversal,
which writes level records directly. Like those writes, it does not clear the
ready flag.

The BloatFactor divisor is modelled as the code groups it, with
parentheses `objectCount * optNumNodes - (optimalHeight + 1)`. The comment
above it (`include/arboretum/stTreeInformation.cpp:119-121`) groups it as
`objectCount * (optNumNodes - (optimalHeight + 1))`, the same shape as the
FatFactor divisor. The model follows the code.

Three behaviours of the code worth noting:
- `SetOptimalTreeInfo` reads only the first `height` entries of each input.
  The model therefore requires each input to have at least `height`
  entries, not exactly `height`.
- `ResetData` and level updates leave the ready flag as it is.
- `Calculate` does not guard its divisions.

## Model

| member | source | states |
|---|---|---|
| `TreeInfo.TreeInformation.constructor` | include/arboretum/stTreeInformation.cpp:35-49 | the new object's state is `Initial(height, objectCount)`, and its arrays are fresh |
| `TreeStats.Initial` | include/arboretum/stTreeInformation.cpp:35-49 | exactly `height` levels, all zero; minimum height equals height; object count stored; no optimal tree; not ready; accumulators zero |
| `TreeInfo.TreeInformation.ResetData` | include/arboretum/stTreeInformation.cpp:62-70 | the new state is `Reset` of the old one |
| `TreeStats.Reset` | include/arboretum/stTreeInformation.cpp:62-70 | every level and both object-size accumulators become zero, the number of levels is kept, and nothing else changes (optimal tree, its height, both factors, ready) |
| `TreeStats.ZeroLevelsHaveNoTotals` | include/arboretum/stTreeInformation.cpp:65 | zero-filled levels have zero intersection and node totals |
| `TreeStats.CalculateAfterReset` | include/arboretum/stTreeInformation.cpp:62-109 | deriving the scalars right after a reset uses zero totals, so the global FatFactor is exactly 1 when objectCount ≠ 0 and Undefined when it is 0 |
| `TreeInfo.TreeInformation.Invalidate` | include/arboretum/stTreeInformation.cpp:47 | only the ready flag changes, and it becomes false |
| `TreeInfo.TreeInformation.Calculate` | include/arboretum/stTreeInformation.cpp:73-128 | the loops compute the totals and factors, and the new state is `Calculated` of the old one |
| `TreeStats.Calculated` | include/arboretum/stTreeInformation.cpp:73-128 | ready becomes true; no count changes; each level's factor is its local FatFactor; the global FatFactor is computed from the totals over all levels; the BloatFactor is recomputed only when an optimal tree is present and otherwise kept; nothing else changes |
| `TreeStats.WithLocalFactors` | include/arboretum/stTreeInformation.cpp:96-102 | same number of levels, with every node, object and intersection count unchanged |
| `TreeStats.TotalsDependOnCountsOnly` | include/arboretum/stTreeInformation.cpp:86-91 | the totals depend only on the counts, never on the stored factors |
| `TreeStats.CalculateIdempotent` | include/arboretum/stTreeInformation.cpp:73-128 | deriving the scalars twice in a row gives the same state as doing it once |
| `TreeStats.LocalFatFactor` | include/arboretum/stTreeInformation.cpp:96-102 | defined exactly when the level's object and node counts are non-zero; then value × objects × nodes = objects − intersections |
| `TreeStats.LocalFatFactorAtMostOne` | include/arboretum/stTreeInformation.cpp:97-100 | with positive counts and no negative intersections, the local FatFactor is at most 1 |
| `TreeStats.GlobalFatFactor` | include/arboretum/stTreeInformation.cpp:104-109 | defined exactly when objectCount ≠ 0 and nodes − height − 1 ≠ 0; then value × objectCount × (nodes − height − 1) = intersections − (height + 1) × objectCount |
| `TreeStats.GlobalFatFactorExample` | include/arboretum/stTreeInformation.cpp:86-109 | levels (1,100,0), (5,100,10), (20,100,30) with 100 objects give totals 40 and 26 and FatFactor −360/2200 |
| `TreeStats.BloatFactor` | include/arboretum/stTreeInformation.cpp:119-123 | defined exactly when objectCount × optNodes ≠ optimalHeight + 1; then value × (objectCount × optNodes − (optimalHeight + 1)) = intersections − (optimalHeight + 1) × objectCount |
| `TreeInfo.TreeInformation.SetOptimalTreeInfo` | include/arboretum/stTreeInformation.cpp:131-144 | a fresh optimal array is installed, and the new state is `WithOptimal` of the old one |
| `TreeStats.WithOptimal` | include/arboretum/stTreeInformation.cpp:131-144 | optimal height = `height`; optimal level i = (nodeCounts[i], objectCounts[i]); not ready; everything else (the real levels included) unchanged |
| `TreeInfo.TreeInformation.CalculateOptimalTreeInfo` | include/arboretum/stTreeInformation.cpp:147-178 | a fresh optimal array is filled by the downward loop, and the new state is `Simulated` of the old one |
| `TreeStats.Simulated` | include/arboretum/stTreeInformation.cpp:147-178 | not ready; the optimal height h ≥ 1 satisfies occupation^h ≥ objectCount > occupation^(h−1); the deepest level is (ceil(objectCount/occupation), objectCount); each level above is (ceil(n/occupation), n), n being the node count below; nothing else changes |
| `OptimalTree.CeilLogReaches` | include/arboretum/stTreeInformation.cpp:156 | occupation^height ≥ objectCount |
| `OptimalTree.CeilLogIsLeast` | include/arboretum/stTreeInformation.cpp:156 | every h with occupation^h ≥ objectCount is at least the height |
| `OptimalTree.OptimalHeightIsLeast` | include/arboretum/stTreeInformation.cpp:150-156 | for at least two objects the height is positive and is the least height whose capacity suffices |
| `OptimalTree.CeilLogMonotone` | include/arboretum/stTreeInformation.cpp:156 | more objects never give a lower optimal height |
| `OptimalTree.OptimalLevels` | include/arboretum/stTreeInformation.cpp:156-167 | one optimal level per unit of optimal height |
| `OptimalTree.OptimalLevelsRecurrence` | include/arboretum/stTreeInformation.cpp:159-167 | the deepest level holds all objects in ceil(objectCount/occupation) nodes; level i−1 holds level i's node count as entries, in ceil(that/occupation) nodes |
| `OptimalTree.OptimalLevelsArePacked` | include/arboretum/stTreeInformation.cpp:150-167 | every level's nodes can hold its entries, and one node fewer could not |
| `OptimalTree.OptimalLevelsShape` | include/arboretum/stTreeInformation.cpp:150-167 | the root level has exactly one node, every level has at least one, and node counts never grow toward the root |
| `OptimalTree.OptimalLevelsMonotone` | include/arboretum/stTreeInformation.cpp:156-167 | for a fixed occupation, more objects never give a lower tree or fewer nodes at the same depth above the leaves |
| `OptimalTree.OptimalLevelsExample` | include/arboretum/stTreeInformation.cpp:156-167 | 100 objects at occupation 10 give height 2: a root of 1 node holding 10 entries, over 10 leaves holding 100 |
| `OptimalTree.ShrinkStep` | include/arboretum/stTreeInformation.cpp:164-167 | going one level up divides the node count below, rounding up |
| `IntMath.CeilDiv` | include/arboretum/stTreeInformation.cpp:160 | the quotient q satisfies b(q − 1) < a ≤ bq, which is the ceiling of a/b |
| `IntMath.CeilDivIsLeast` | include/arboretum/stTreeInformation.cpp:160 | ceil(a/b) is the least x with b·x ≥ a |
| `IntMath.CeilDivShrinks` | include/arboretum/stTreeInformation.cpp:165 | with at least two entries and capacity at least two, 1 ≤ ceil(a/b) < a |
| `TreeInfo.TreeInformation.Clone` | include/arboretum/stTreeInformation.cpp:181-202 | the clone is fresh and its arrays are fresh (disjoint from the original's); its state equals the original's, with the optimal array present exactly when the original has one |
| `TreeInfo.CloneThenUpdateOriginal` | include/arboretum/stTreeInformation.cpp:181-202 | after cloning and then updating one level of the original, the clone still has the original's old state, and the original has only that level changed |
| `TreeInfo.CloneThenResetClone` | include/arboretum/stTreeInformation.cpp:181-202 | after cloning and then resetting the clone, the clone is the reset of the original's state, and the original is unchanged |

## Left out

- Double arithmetic: values are exact reals, so the model has no rounding, overflow to infinity, or NaN propagation beyond a zero divisor (`Undefined`).
- `OptimalTree.CeilLog`: it stands for `int(ceil(logxy(objectCount, occupation)))` read exactly, as the least h with occupation^h ≥ objectCount. Rounding of the floating-point logarithm at exact powers is not modelled.
- `IntMath.CeilDiv`: it stands for `int(ceil(double(a) / double(b)))` read exactly.
- 32-bit `int` overflow in the totals and in the node counts of the simulation is not modelled: integers are unbounded.
- `TreeInfo.TreeInformation.CalculateOptimalTreeInfo` requires occupation ≥ 2 and objectCount ≥ 2. Outside these bounds the original takes the logarithm of a non-positive number, divides by log(1) = 0, or writes index −1, so it has no defined behaviour there.
- Negative heights: the constructor and `SetOptimalTreeInfo` take `height` as a natural number. The original takes a signed `int`, and there `new[]` fails on a negative size; in `SetOptimalTreeInfo` that failure comes after `optimalHeight` has already been written (`include/arboretum/stTreeInformation.cpp:135-136`).
- `new[]`, `delete[]`, `memset`, `memcpy` and the destructor become Dafny allocation and element copies. The original leaks the previous optimal array when it installs a new one; the model simply replaces it.
- The commented-out debug output of `CalculateOptimalTreeInfo` is not modelled.
- The base class and the header are not part of this model. Their fields (`ready`, `fatFactor`, `bloatFactor`, `optimalHeight`, `objectSizeSum`, `objectSizeCount`) are plain fields. The base-class constructor's starting values are taken to be zero and false. Both object-size accumulators are typed as integers.
- The tree traversal that fills the levels and the object-size accumulators is outside this file. `RecordLevel` stands in for its level writes; per-object size accumulation is not modelled.
