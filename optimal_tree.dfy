/**
 * The analytic "optimal tree": the smallest tree of nodes with a fixed
 * capacity (the occupation) that stores a given number of objects, all of
 * them in its deepest level. This module holds the integer specification of
 * its height and of its per-level node and object counts.
 */
module OptimalTree {
  import opened IntMath

  /** One level of the simulated tree (index 0 is the root). */
  datatype OptimalLevelInfo = OptimalLevelInfo(nodeCount: int, objectCount: int)

  /**
   * The height of the optimal tree for n objects at capacity b: the number of
   * times n must be divided (rounding up) by b to reach a single node. This is
   * the integer reading of ceil(log_b(n)); CeilLogReaches and CeilLogIsLeast
   * show it is the least h with b^h >= n.
   */
  function CeilLog(n: int, b: int): (h: nat)
    requires b >= 2
    decreases n
  {
    if n <= 1 then 0
    else
      CeilDivShrinks(n, b);
      1 + CeilLog(CeilDiv(n, b), b)
  }

  lemma {:induction false} CeilLogReaches(n: int, b: int)
    requires b >= 2
    ensures Pow(b, CeilLog(n, b)) >= n
  {
    if n > 1 {
      var m := CeilDiv(n, b);
      CeilDivShrinks(n, b);
      CeilLogReaches(m, b);
      CeilDivIsLeast(n, b, Pow(b, CeilLog(m, b)));
    }
  }

  lemma {:induction false} CeilLogIsLeast(n: int, b: int, h: nat)
    requires b >= 2
    requires Pow(b, h) >= n
    ensures CeilLog(n, b) <= h
  {
    if n > 1 {
      var m := CeilDiv(n, b);
      CeilDivShrinks(n, b);
      CeilDivIsLeast(n, b, Pow(b, h - 1));
      CeilLogIsLeast(m, b, h - 1);
    }
  }

  /** For at least two objects the height is positive and the least one whose capacity suffices. */
  lemma OptimalHeightIsLeast(n: int, b: int)
    requires b >= 2 && n >= 2
    ensures CeilLog(n, b) >= 1
    ensures Pow(b, CeilLog(n, b)) >= n && Pow(b, CeilLog(n, b) - 1) < n
  {
    CeilLogReaches(n, b);
    if Pow(b, CeilLog(n, b) - 1) >= n {
      CeilLogIsLeast(n, b, CeilLog(n, b) - 1);
    }
  }

  /** More objects never give a lower optimal tree. */
  lemma CeilLogMonotone(n: int, n': int, b: int)
    requires b >= 2 && n <= n'
    ensures CeilLog(n, b) <= CeilLog(n', b)
  {
    CeilLogReaches(n', b);
    CeilLogIsLeast(n, b, CeilLog(n', b));
  }

  /** The number of nodes d levels above a level that holds n entries. */
  function Shrink(n: int, b: int, d: nat): (r: int)
    requires b >= 2
    decreases d
  {
    if d == 0 then n else Shrink(CeilDiv(n, b), b, d - 1)
  }

  /** Going one level further up divides the previous level's node count. */
  lemma {:induction false} ShrinkStep(n: int, b: int, d: nat)
    requires b >= 2
    ensures Shrink(n, b, d + 1) == CeilDiv(Shrink(n, b, d), b)
    decreases d
  {
    if d > 0 {
      ShrinkStep(CeilDiv(n, b), b, d - 1);
    }
  }

  lemma {:induction false} ShrinkPositive(n: int, b: int, d: nat)
    requires b >= 2 && n >= 1
    ensures Shrink(n, b, d) >= 1
    decreases d
  {
    if d > 0 {
      CeilDivIsLeast(n, b, 0);
      ShrinkPositive(CeilDiv(n, b), b, d - 1);
    }
  }

  lemma {:induction false} ShrinkMonotone(n: int, n': int, b: int, d: nat)
    requires b >= 2 && n <= n'
    ensures Shrink(n, b, d) <= Shrink(n', b, d)
    decreases d
  {
    if d > 0 {
      CeilDivMonotone(n, n', b);
      ShrinkMonotone(CeilDiv(n, b), CeilDiv(n', b), b, d - 1);
    }
  }

  /** After CeilLog(n, b) divisions exactly one node is left. */
  lemma {:induction false} ShrinkToRoot(n: int, b: int)
    requires b >= 2 && n >= 1
    ensures Shrink(n, b, CeilLog(n, b)) == 1
  {
    if n > 1 {
      CeilDivShrinks(n, b);
      ShrinkToRoot(CeilDiv(n, b), b);
    }
  }

  /**
   * The levels of the optimal tree for n objects at capacity b, root first:
   * level i has Shrink(n, b, h - i) nodes holding Shrink(n, b, h - 1 - i)
   * entries, where h is the height.
   */
  function OptimalLevels(n: int, b: int): (levels: seq<OptimalLevelInfo>)
    requires b >= 2
    ensures |levels| == CeilLog(n, b)
  {
    var h := CeilLog(n, b);
    seq(h, i requires 0 <= i < h =>
      OptimalLevelInfo(Shrink(n, b, h - i), Shrink(n, b, h - 1 - i)))
  }

  /**
   * The recurrence the simulation runs: the deepest level holds all n objects
   * in ceil(n / b) nodes, and each shallower level holds one entry per node of
   * the level below, in ceil(that / b) nodes.
   */
  lemma OptimalLevelsRecurrence(n: int, b: int)
    requires b >= 2 && n >= 2
    ensures var levels := OptimalLevels(n, b);
      |levels| >= 1 &&
      levels[|levels| - 1] == OptimalLevelInfo(CeilDiv(n, b), n) &&
      forall i :: 0 < i < |levels| ==>
        levels[i - 1] == OptimalLevelInfo(CeilDiv(levels[i].nodeCount, b), levels[i].nodeCount)
  {
    var levels := OptimalLevels(n, b);
    var h := |levels|;
    CeilDivShrinks(n, b);
    assert h == 1 + CeilLog(CeilDiv(n, b), b);
    assert levels[h - 1] == OptimalLevelInfo(Shrink(n, b, 1), Shrink(n, b, 0));
    assert Shrink(n, b, 1) == Shrink(CeilDiv(n, b), b, 0);
    forall i | 0 < i < h
      ensures levels[i - 1] == OptimalLevelInfo(CeilDiv(levels[i].nodeCount, b), levels[i].nodeCount)
    {
      ShrinkStep(n, b, h - i);
    }
  }

  /** Every simulated level is packed: its nodes hold its entries, and one node fewer would not. */
  lemma OptimalLevelsArePacked(n: int, b: int)
    requires b >= 2 && n >= 2
    ensures forall l :: l in OptimalLevels(n, b) ==>
      b * (l.nodeCount - 1) < l.objectCount <= b * l.nodeCount
  {
    var levels := OptimalLevels(n, b);
    var h := |levels|;
    forall i | 0 <= i < h
      ensures b * (levels[i].nodeCount - 1) < levels[i].objectCount <= b * levels[i].nodeCount
    {
      ShrinkStep(n, b, h - 1 - i);
    }
  }

  /** The simulated root is a single node, and node counts never grow toward the root. */
  lemma OptimalLevelsShape(n: int, b: int)
    requires b >= 2 && n >= 2
    ensures var levels := OptimalLevels(n, b);
      |levels| >= 1 && levels[0].nodeCount == 1 &&
      (forall i :: 0 <= i < |levels| ==> levels[i].nodeCount >= 1) &&
      forall i :: 0 < i < |levels| ==> levels[i - 1].nodeCount <= levels[i].nodeCount
  {
    var levels := OptimalLevels(n, b);
    var h := |levels|;
    CeilDivShrinks(n, b);
    ShrinkToRoot(n, b);
    forall i | 0 <= i < h
      ensures levels[i].nodeCount >= 1
    {
      ShrinkPositive(n, b, h - i);
    }
    forall i | 0 < i < h
      ensures levels[i - 1].nodeCount <= levels[i].nodeCount
    {
      var x := levels[i].nodeCount;
      ShrinkStep(n, b, h - i);
      if x >= 2 {
        CeilDivShrinks(x, b);
      } else {
        CeilDivSmall(b);
      }
    }
  }

  /**
   * For a fixed capacity, more objects never give a lower tree, and never
   * fewer nodes at the same distance above the deepest level.
   */
  lemma OptimalLevelsMonotone(n: int, n': int, b: int)
    requires b >= 2 && n <= n'
    ensures var levels, levels' := OptimalLevels(n, b), OptimalLevels(n', b);
      |levels| <= |levels'| &&
      forall i :: 0 <= i < |levels| ==>
        levels[i].nodeCount <= levels'[i + (|levels'| - |levels|)].nodeCount
  {
    var levels, levels' := OptimalLevels(n, b), OptimalLevels(n', b);
    CeilLogMonotone(n, n', b);
    forall i | 0 <= i < |levels|
      ensures levels[i].nodeCount <= levels'[i + (|levels'| - |levels|)].nodeCount
    {
      ShrinkMonotone(n, n', b, |levels| - i);
    }
  }

  /** 100 objects at capacity 10: a root holding 10 entries over 10 leaves holding 100. */
  lemma OptimalLevelsExample()
    ensures CeilLog(100, 10) == 2
    ensures OptimalLevels(100, 10) == [OptimalLevelInfo(1, 10), OptimalLevelInfo(10, 100)]
  {
    assert CeilDiv(100, 10) == 10;
    assert CeilDiv(10, 10) == 1;
    assert CeilLog(1, 10) == 0;
    assert CeilLog(10, 10) == 1;
    assert Shrink(100, 10, 1) == 10;
    assert Shrink(100, 10, 2) == 1;
  }
}
