/**
 * The tree-information object itself: per-level statistics in an array
 * sized at construction, an optional array describing the optimal tree, and
 * the derived scalars with their ready flag. Every method is proved to leave
 * the object in the state the matching TreeStats function describes.
 */
module TreeInfo {
  import opened IntMath
  import opened OptimalTree
  import opened TreeStats

  class TreeInformation {
    const height: nat
    const objectCount: int
    var minHeight: int
    const levelData: array<LevelInfo>
    var optimalLevelData: Option<array<OptimalLevelInfo>>
    var optimalHeight: int
    var fatFactor: Ratio
    var bloatFactor: Ratio
    var objectSizeSum: int
    var objectSizeCount: int
    var ready: bool

    ghost predicate Valid()
      reads this
    {
      levelData.Length == height &&
      (optimalLevelData.Some? ==> optimalLevelData.value.Length == optimalHeight)
    }

    /** The arrays this object owns. */
    ghost function Repr(): set<object>
      reads this
    {
      {levelData} + if optimalLevelData.Some? then {optimalLevelData.value} else {}
    }

    /** The object's state as a value. */
    ghost function State(): (r: Report)
      reads this, Repr()
      ensures Valid() ==> ValidReport(r)
    {
      Report(height, objectCount, minHeight, levelData[..],
             if optimalLevelData.Some? then Some(optimalLevelData.value[..]) else None,
             optimalHeight, fatFactor, bloatFactor, objectSizeSum, objectSizeCount, ready)
    }

    constructor (height: nat, objectCount: int)
      ensures Valid() && fresh(Repr())
      ensures State() == Initial(height, objectCount)
    {
      this.height := height;
      minHeight := height;
      levelData := new LevelInfo[height];
      optimalLevelData := None;
      // Fields owned by the base class start at zero.
      optimalHeight := 0;
      fatFactor, bloatFactor := Finite(0.0), Finite(0.0);
      objectSizeSum, objectSizeCount := 0, 0;
      ready := false;
      this.objectCount := objectCount;
      new;
      ResetData();
      Invalidate();
    }

    /** Zeroes every level and both object-size accumulators. */
    method ResetData()
      requires Valid()
      modifies levelData, this`objectSizeSum, this`objectSizeCount
      ensures Valid()
      ensures State() == Reset(old(State()))
    {
      forall i | 0 <= i < levelData.Length {
        levelData[i] := ZeroLevel;
      }
      assert optimalLevelData.Some? ==> optimalLevelData.value[..] == old(optimalLevelData.value[..]);
      assert levelData[..] == Reset(old(State())).levels;
      objectSizeSum := 0;
      objectSizeCount := 0;
    }

    /** Marks the derived scalars as stale. */
    method Invalidate()
      modifies this`ready
      ensures State() == old(State()).(ready := false)
    {
      ready := false;
    }

    /**
     * The traversal's report for one level: its node, object and intersection
     * counts. The local FatFactor and the ready flag are left as they are.
     */
    method RecordLevel(level: nat, nodeCount: int, objectCount: int, intersections: int)
      requires Valid() && level < height
      modifies levelData
      ensures Valid()
      ensures State() == old(State()).(levels := old(State()).levels[level :=
        old(levelData[level]).(nodeCount := nodeCount, objectCount := objectCount, intersections := intersections)])
    {
      levelData[level] := levelData[level].(nodeCount := nodeCount, objectCount := objectCount,
                                            intersections := intersections);
    }

    /** Derives the local and global FatFactor and, given an optimal tree, the BloatFactor. */
    method Calculate()
      requires Valid()
      modifies levelData, this`fatFactor, this`bloatFactor, this`ready
      ensures Valid()
      ensures State() == Calculated(old(State()))
    {
      // Totals
      var numIntersections, numNodes := 0, 0;
      for i := 0 to height
        modifies {}
        invariant numIntersections == SumIntersections(levelData[..i])
        invariant numNodes == SumNodes(levelData[..i])
      {
        assert levelData[..i + 1][..i] == levelData[..i];
        numIntersections := numIntersections + levelData[i].intersections;
        numNodes := numNodes + levelData[i].nodeCount;
      }
      assert levelData[..height] == levelData[..];

      // Local FatFactor of each level
      for i := 0 to height
        modifies levelData
        invariant forall j :: 0 <= j < i ==>
          levelData[j] == old(levelData[j]).(fatFactor := LocalFatFactor(old(levelData[j])))
        invariant forall j :: i <= j < height ==> levelData[j] == old(levelData[j])
      {
        levelData[i] := levelData[i].(fatFactor := LocalFatFactor(levelData[i]));
      }
      assert levelData[..] == WithLocalFactors(old(levelData[..]));

      fatFactor := GlobalFatFactor(numIntersections, numNodes, height, objectCount);

      if optimalLevelData.Some? {
        var optimal := optimalLevelData.value;
        var optNumNodes := 0;
        for i := 0 to optimalHeight
          modifies {}
          invariant optNumNodes == SumOptimalNodes(optimal[..i])
        {
          assert optimal[..i + 1][..i] == optimal[..i];
          optNumNodes := optNumNodes + optimal[i].nodeCount;
        }
        assert optimal[..optimalHeight] == optimal[..];
        bloatFactor := BloatFactor(numIntersections, optNumNodes, optimalHeight, objectCount);
      }

      ready := true;
    }

    /** Installs an optimal tree given as per-level object and node counts. */
    method SetOptimalTreeInfo(height: nat, objectCounts: seq<int>, nodeCounts: seq<int>)
      requires Valid()
      requires height <= |objectCounts| && height <= |nodeCounts|
      modifies this`optimalHeight, this`optimalLevelData, this`ready
      ensures Valid()
      ensures optimalLevelData.Some? && fresh(optimalLevelData.value)
      ensures State() == WithOptimal(old(State()), height, objectCounts, nodeCounts)
    {
      optimalHeight := height;
      var optimal := new OptimalLevelInfo[height];
      optimalLevelData := Some(optimal);
      for i := 0 to height
        modifies optimal
        invariant forall j :: 0 <= j < i ==> optimal[j] == OptimalLevelInfo(nodeCounts[j], objectCounts[j])
      {
        optimal[i] := OptimalLevelInfo(nodeCounts[i], objectCounts[i]);
      }
      assert optimal[..] == WithOptimal(old(State()), height, objectCounts, nodeCounts).optimal.value;
      Invalidate();
    }

    /**
     * Simulates the optimal tree for the object count at the given node
     * capacity: its height, then its deepest level, then each level above
     * from the one below it.
     */
    method CalculateOptimalTreeInfo(occupation: int)
      requires Valid()
      requires occupation >= 2 && objectCount >= 2
      modifies this`optimalHeight, this`optimalLevelData, this`ready
      ensures Valid()
      ensures optimalLevelData.Some? && fresh(optimalLevelData.value)
      ensures State() == Simulated(old(State()), occupation)
    {
      optimalHeight := CeilLog(objectCount, occupation);
      var optimal := new OptimalLevelInfo[optimalHeight];
      optimalLevelData := Some(optimal);
      ghost var levels := OptimalLevels(objectCount, occupation);
      OptimalLevelsRecurrence(objectCount, occupation);

      // Last level
      optimal[optimalHeight - 1] := OptimalLevelInfo(CeilDiv(objectCount, occupation), objectCount);

      // Other levels
      var i := optimalHeight - 1;
      while i > 0
        modifies optimal
        invariant 0 <= i < optimalHeight
        invariant forall j :: i <= j < optimalHeight ==> optimal[j] == levels[j]
      {
        optimal[i - 1] := OptimalLevelInfo(CeilDiv(optimal[i].nodeCount, occupation), optimal[i].nodeCount);
        i := i - 1;
      }
      assert optimal[..] == levels;
      Invalidate();
    }

    /** A deep copy: equal state, arrays of its own. */
    method Clone() returns (clone: TreeInformation)
      requires Valid()
      ensures fresh(clone) && fresh(clone.Repr()) && clone.Valid()
      ensures clone.State() == State()
    {
      clone := new TreeInformation(height, objectCount);

      clone.minHeight := minHeight;
      clone.fatFactor := fatFactor;
      clone.bloatFactor := bloatFactor;
      clone.objectSizeSum := objectSizeSum;
      clone.objectSizeCount := objectSizeCount;
      clone.optimalHeight := optimalHeight;
      clone.ready := ready;
      forall i | 0 <= i < height {
        clone.levelData[i] := levelData[i];
      }
      if optimalLevelData.Some? {
        var source := optimalLevelData.value;
        var copy := new OptimalLevelInfo[optimalHeight];
        forall i | 0 <= i < optimalHeight {
          copy[i] := source[i];
        }
        assert copy[..] == source[..];
        clone.optimalLevelData := Some(copy);
      }
      assert clone.levelData[..] == levelData[..];
    }
  }

  /** A snapshot taken by Clone is unaffected by a later update of the original. */
  method CloneThenUpdateOriginal(t: TreeInformation, level: nat, nodeCount: int, objectCount: int, intersections: int)
    returns (clone: TreeInformation)
    requires t.Valid() && level < t.height
    modifies t.levelData
    ensures fresh(clone) && clone.Valid()
    ensures clone.State() == old(t.State())
    ensures t.State() == old(t.State()).(levels := old(t.State()).levels[level :=
      old(t.levelData[level]).(nodeCount := nodeCount, objectCount := objectCount, intersections := intersections)])
  {
    clone := t.Clone();
    t.RecordLevel(level, nodeCount, objectCount, intersections);
  }

  /** The original is unaffected by a later reset of a snapshot taken by Clone. */
  method CloneThenResetClone(t: TreeInformation) returns (clone: TreeInformation)
    requires t.Valid()
    ensures fresh(clone) && clone.Valid()
    ensures clone.State() == Reset(t.State())
    ensures t.State() == old(t.State())
  {
    clone := t.Clone();
    clone.ResetData();
  }
}
