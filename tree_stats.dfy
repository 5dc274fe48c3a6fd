/**
 * Value-level specification of a tree-quality report: the per-level
 * statistics, the FatFactor and BloatFactor formulas, and one function per
 * operation giving the report's state after it. The class in TreeInfo is
 * proved against these functions.
 */
module TreeStats {
  import opened IntMath
  import opened OptimalTree

  datatype Option<T> = None | Some(value: T)

  /**
   * A quotient of two doubles, read as exact reals. A zero divisor gives a
   * double that is infinite or not a number; that outcome is Undefined.
   */
  datatype Ratio = Finite(value: real) | Undefined

  /** The statistics of one level of the real tree (index 0 is the root). */
  datatype LevelInfo = LevelInfo(nodeCount: int, objectCount: int, intersections: int, fatFactor: Ratio)

  /** A level whose every field is zero, as a zero-filled record reads. */
  const ZeroLevel: LevelInfo := LevelInfo(0, 0, 0, Finite(0.0))

  function Divide(num: real, den: real): (q: Ratio)
    ensures q.Finite? <==> den != 0.0
    ensures q.Finite? ==> q.value * den == num
  {
    if den == 0.0 then Undefined else Finite(num / den)
  }

  /**
   * The local FatFactor of a level: (objects - intersections) / objects / nodes,
   * defined exactly when neither count is zero.
   */
  function LocalFatFactor(level: LevelInfo): (r: Ratio)
    ensures r.Finite? <==> level.objectCount != 0 && level.nodeCount != 0
    ensures r.Finite? ==>
      r.value * (level.objectCount as real) * (level.nodeCount as real) ==
      (level.objectCount - level.intersections) as real
  {
    var objects := level.objectCount as real;
    var nodes := level.nodeCount as real;
    if objects == 0.0 || nodes == 0.0 then Undefined
    else
      var q := (level.objectCount - level.intersections) as real / objects;
      assert q * objects == (level.objectCount - level.intersections) as real;
      Finite(q / nodes)
  }

  /** With no negative counts a level's local FatFactor is at most 1. */
  lemma LocalFatFactorAtMostOne(level: LevelInfo)
    requires level.objectCount > 0 && level.nodeCount > 0 && level.intersections >= 0
    ensures LocalFatFactor(level).Finite? && LocalFatFactor(level).value <= 1.0
  {
  }

  /**
   * The global FatFactor:
   * (intersections - (height + 1) * objects) / (objects * (nodes - height - 1)).
   */
  function GlobalFatFactor(numIntersections: int, numNodes: int, height: int, objectCount: int): (r: Ratio)
    ensures r.Finite? <==> objectCount != 0 && numNodes - height - 1 != 0
    ensures r.Finite? ==>
      r.value * (objectCount * (numNodes - height - 1)) as real ==
      (numIntersections - (height + 1) * objectCount) as real
  {
    NonZeroProduct(objectCount, numNodes - height - 1);
    Divide((numIntersections - (height + 1) * objectCount) as real,
           (objectCount * (numNodes - height - 1)) as real)
  }

  /**
   * The BloatFactor, with the divisor grouped as the source groups it:
   * (intersections - (h + 1) * objects) / (objects * optimalNodes - (h + 1)),
   * h being the height of the optimal tree.
   */
  function BloatFactor(numIntersections: int, optNumNodes: int, optimalHeight: int, objectCount: int): (r: Ratio)
    ensures r.Finite? <==> objectCount * optNumNodes != optimalHeight + 1
    ensures r.Finite? ==>
      r.value * (objectCount * optNumNodes - (optimalHeight + 1)) as real ==
      (numIntersections - (optimalHeight + 1) * objectCount) as real
  {
    Divide((numIntersections - (optimalHeight + 1) * objectCount) as real,
           (objectCount * optNumNodes - (optimalHeight + 1)) as real)
  }

  function SumIntersections(levels: seq<LevelInfo>): (total: int)
  {
    if levels == [] then 0
    else SumIntersections(levels[..|levels| - 1]) + levels[|levels| - 1].intersections
  }

  function SumNodes(levels: seq<LevelInfo>): (total: int)
  {
    if levels == [] then 0
    else SumNodes(levels[..|levels| - 1]) + levels[|levels| - 1].nodeCount
  }

  function SumOptimalNodes(levels: seq<OptimalLevelInfo>): (total: int)
  {
    if levels == [] then 0
    else SumOptimalNodes(levels[..|levels| - 1]) + levels[|levels| - 1].nodeCount
  }

  /** Two level sequences with the same counts have the same totals, whatever their factors. */
  lemma {:induction false} TotalsDependOnCountsOnly(a: seq<LevelInfo>, b: seq<LevelInfo>)
    requires |a| == |b|
    requires forall i :: 0 <= i < |a| ==>
      a[i].intersections == b[i].intersections && a[i].nodeCount == b[i].nodeCount
    ensures SumIntersections(a) == SumIntersections(b)
    ensures SumNodes(a) == SumNodes(b)
  {
    if a != [] {
      TotalsDependOnCountsOnly(a[..|a| - 1], b[..|b| - 1]);
    }
  }

  /** Zero-filled levels have zero totals. */
  lemma {:induction false} ZeroLevelsHaveNoTotals(levels: seq<LevelInfo>)
    requires forall i :: 0 <= i < |levels| ==> levels[i] == ZeroLevel
    ensures SumIntersections(levels) == 0 && SumNodes(levels) == 0
  {
    if levels != [] {
      ZeroLevelsHaveNoTotals(levels[..|levels| - 1]);
    }
  }

  /** The observable state of a report. */
  datatype Report = Report(
    height: nat,
    objectCount: int,
    minHeight: int,
    levels: seq<LevelInfo>,
    optimal: Option<seq<OptimalLevelInfo>>,
    optimalHeight: int,
    fatFactor: Ratio,
    bloatFactor: Ratio,
    objectSizeSum: int,
    objectSizeCount: int,
    ready: bool)

  /** One level record per tree level, and one optimal record per optimal level when present. */
  predicate ValidReport(r: Report)
  {
    |r.levels| == r.height &&
    (r.optimal.Some? ==> |r.optimal.value| == r.optimalHeight)
  }

  /**
   * A newly built report: `height` zeroed levels, minimum height equal to the
   * height, the object count stored, no optimal tree, not ready. Fields set by
   * the base class start at zero.
   */
  function Initial(height: nat, objectCount: int): (r: Report)
    ensures ValidReport(r)
    ensures r.height == height && |r.levels| == height
    ensures forall i :: 0 <= i < height ==> r.levels[i] == ZeroLevel
    ensures r.minHeight == height && r.objectCount == objectCount
    ensures r.optimal.None? && !r.ready
    ensures r.objectSizeSum == 0 && r.objectSizeCount == 0
  {
    Report(height, objectCount, height, seq(height, _ => ZeroLevel), None, 0,
           Finite(0.0), Finite(0.0), 0, 0, false)
  }

  /**
   * Starting a new measurement pass: every level and both object-size
   * accumulators become zero; nothing else changes, the ready flag included.
   */
  function Reset(r: Report): (c: Report)
    ensures ValidReport(r) ==> ValidReport(c)
    ensures |c.levels| == |r.levels|
    ensures forall i :: 0 <= i < |c.levels| ==> c.levels[i] == ZeroLevel
    ensures c.objectSizeSum == 0 && c.objectSizeCount == 0
    ensures c.(levels := r.levels, objectSizeSum := r.objectSizeSum, objectSizeCount := r.objectSizeCount) == r
  {
    r.(levels := seq(|r.levels|, _ => ZeroLevel), objectSizeSum := 0, objectSizeCount := 0)
  }

  /** The levels with each one's local FatFactor recomputed from its counts. */
  function WithLocalFactors(levels: seq<LevelInfo>): (c: seq<LevelInfo>)
    ensures |c| == |levels|
    ensures forall i :: 0 <= i < |c| ==>
      c[i].nodeCount == levels[i].nodeCount && c[i].objectCount == levels[i].objectCount &&
      c[i].intersections == levels[i].intersections
  {
    seq(|levels|, i requires 0 <= i < |levels| => levels[i].(fatFactor := LocalFatFactor(levels[i])))
  }

  /**
   * Deriving the scalars: every level gets its local FatFactor, the global
   * FatFactor comes from the totals over all levels, the BloatFactor is
   * recomputed only when an optimal tree is present, and the report becomes
   * ready. No count changes.
   */
  function Calculated(r: Report): (c: Report)
    ensures ValidReport(r) ==> ValidReport(c)
    ensures c.ready
    ensures |c.levels| == |r.levels|
    ensures forall i :: 0 <= i < |r.levels| ==>
      c.levels[i].nodeCount == r.levels[i].nodeCount &&
      c.levels[i].objectCount == r.levels[i].objectCount &&
      c.levels[i].intersections == r.levels[i].intersections &&
      c.levels[i].fatFactor == LocalFatFactor(r.levels[i])
    ensures c.fatFactor ==
      GlobalFatFactor(SumIntersections(r.levels), SumNodes(r.levels), r.height, r.objectCount)
    ensures r.optimal.None? ==> c.bloatFactor == r.bloatFactor
    ensures r.optimal.Some? ==> (c.bloatFactor ==
      BloatFactor(SumIntersections(r.levels), SumOptimalNodes(r.optimal.value), r.optimalHeight, r.objectCount))
    ensures c.(levels := r.levels, fatFactor := r.fatFactor, bloatFactor := r.bloatFactor, ready := r.ready) == r
  {
    var numIntersections := SumIntersections(r.levels);
    var numNodes := SumNodes(r.levels);
    r.(levels := WithLocalFactors(r.levels),
       fatFactor := GlobalFatFactor(numIntersections, numNodes, r.height, r.objectCount),
       bloatFactor :=
         if r.optimal.Some?
         then BloatFactor(numIntersections, SumOptimalNodes(r.optimal.value), r.optimalHeight, r.objectCount)
         else r.bloatFactor,
       ready := true)
  }

  /** Deriving the scalars a second time, with no update in between, changes nothing. */
  lemma CalculateIdempotent(r: Report)
    ensures Calculated(Calculated(r)) == Calculated(r)
  {
    var c := Calculated(r);
    TotalsDependOnCountsOnly(c.levels, r.levels);
    assert Calculated(c).levels == c.levels;
  }

  /**
   * Deriving the scalars right after a reset sees zero totals, so the global
   * FatFactor is 1 (numerator and divisor are both -(height + 1) * objects),
   * or Undefined when there are no objects.
   */
  lemma CalculateAfterReset(r: Report)
    ensures Calculated(Reset(r)).fatFactor ==
      if r.objectCount != 0 then Finite(1.0) else Undefined
  {
    ZeroLevelsHaveNoTotals(Reset(r).levels);
    var d := r.objectCount * (0 - r.height - 1);
    assert d == 0 - (r.height + 1) * r.objectCount;
    NonZeroProduct(r.objectCount, 0 - r.height - 1);
    assert GlobalFatFactor(0, 0, r.height, r.objectCount) == Divide(d as real, d as real);
  }

  /**
   * Installing an optimal tree given level by level: level i gets nodeCounts[i]
   * nodes and objectCounts[i] objects, the optimal height is `height`, and the
   * report is no longer ready. The real levels are untouched.
   */
  function WithOptimal(r: Report, height: nat, objectCounts: seq<int>, nodeCounts: seq<int>): (c: Report)
    requires height <= |objectCounts| && height <= |nodeCounts|
    ensures ValidReport(r) ==> ValidReport(c)
    ensures c.optimalHeight == height && !c.ready
    ensures c.optimal.Some? && |c.optimal.value| == height
    ensures forall i :: 0 <= i < height ==>
      c.optimal.value[i] == OptimalLevelInfo(nodeCounts[i], objectCounts[i])
    ensures c.(optimal := r.optimal, optimalHeight := r.optimalHeight, ready := r.ready) == r
  {
    r.(optimal := Some(seq(height, i requires 0 <= i < height => OptimalLevelInfo(nodeCounts[i], objectCounts[i]))),
       optimalHeight := height,
       ready := false)
  }

  /**
   * Installing the simulated optimal tree for the report's object count at
   * the given node capacity, and clearing the ready flag.
   */
  function Simulated(r: Report, occupation: int): (c: Report)
    requires occupation >= 2 && r.objectCount >= 2
    ensures ValidReport(r) ==> ValidReport(c)
    ensures !c.ready && c.optimal.Some? && |c.optimal.value| == c.optimalHeight
    ensures c.optimalHeight >= 1 && Pow(occupation, c.optimalHeight) >= r.objectCount
    ensures Pow(occupation, c.optimalHeight - 1) < r.objectCount
    ensures c.optimal.value[c.optimalHeight - 1] ==
      OptimalLevelInfo(CeilDiv(r.objectCount, occupation), r.objectCount)
    ensures forall i :: 0 < i < c.optimalHeight ==>
      c.optimal.value[i - 1] ==
      OptimalLevelInfo(CeilDiv(c.optimal.value[i].nodeCount, occupation), c.optimal.value[i].nodeCount)
    ensures c.(optimal := r.optimal, optimalHeight := r.optimalHeight, ready := r.ready) == r
  {
    var h := CeilLog(r.objectCount, occupation);
    OptimalHeightIsLeast(r.objectCount, occupation);
    OptimalLevelsRecurrence(r.objectCount, occupation);
    r.(optimal := Some(OptimalLevels(r.objectCount, occupation)), optimalHeight := h, ready := false)
  }

  /** The global FatFactor of a three-level tree of 100 objects. */
  lemma GlobalFatFactorExample()
    ensures var levels := [LevelInfo(1, 100, 0, Finite(0.0)), LevelInfo(5, 100, 10, Finite(0.0)),
                           LevelInfo(20, 100, 30, Finite(0.0))];
      SumIntersections(levels) == 40 && SumNodes(levels) == 26 &&
      Calculated(Report(3, 100, 3, levels, None, 0, Finite(0.0), Finite(0.0), 0, 0, false)).fatFactor ==
      Finite(-360.0 / 2200.0)
  {
    var levels := [LevelInfo(1, 100, 0, Finite(0.0)), LevelInfo(5, 100, 10, Finite(0.0)),
                   LevelInfo(20, 100, 30, Finite(0.0))];
    assert levels[..|levels| - 1] == [levels[0], levels[1]];
    assert [levels[0], levels[1]][..1] == [levels[0]];
    assert [levels[0]][..0] == [];
    assert SumIntersections([levels[0]]) == 0 && SumNodes([levels[0]]) == 1;
    assert SumIntersections([levels[0], levels[1]]) == 10 && SumNodes([levels[0], levels[1]]) == 6;
  }
}
