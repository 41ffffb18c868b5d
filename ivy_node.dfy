/**
 * IvyNode: one piece of a growing ivy vine. A node's single growth step does
 * nothing at or past the maximum depth; otherwise it spawns one forward
 * child and, when the random draw is below the branch chance, two side
 * children. Every child is one level deeper, copies the parent's settings and
 * starts with the health the health curve gives for its depth. The random
 * draw is a parameter and the health curve any function from depths to
 * health; segment positions and directions are not modelled.
 */
module IvyNodes {
  import opened IvySegments

  /** The segment prefab: what a spawned `IvySegment` takes from it. */
  datatype SegmentPrefab = SegmentPrefab(xpOnDestroy: int)

  // ---------------------------------------------------------------------------
  // The spawn rule on depths

  /** The depths of the children one `Grow` of a node at `depth` spawns. */
  function Offspring(depth: int, maxDepth: int, branches: bool): seq<int> {
    if depth >= maxDepth then []
    else if branches then [depth + 1, depth + 1, depth + 1]
    else [depth + 1]
  }

  /**
   * A node below the maximum depth spawns one child, or three when it
   * branches, each one level deeper; one at or past it spawns none.
   */
  lemma OffspringShape(depth: int, maxDepth: int, branches: bool)
    ensures |Offspring(depth, maxDepth, branches)| ==
      if depth >= maxDepth then 0 else if branches then 3 else 1
    ensures forall d :: d in Offspring(depth, maxDepth, branches) ==> d == depth + 1 && d <= maxDepth
  {
  }

  /** All children of one generation, each node drawing `branches[i]`. */
  function NextGeneration(gen: seq<int>, maxDepth: int, branches: seq<bool>): seq<int>
    requires |branches| == |gen|
  {
    if gen == [] then []
    else NextGeneration(gen[..|gen| - 1], maxDepth, branches[..|gen| - 1])
         + Offspring(gen[|gen| - 1], maxDepth, branches[|gen| - 1])
  }

  /**
   * Generation `n` grown from one root at depth 0, where `draw(n, i)` is the
   * branching draw of the `i`-th node of generation `n`.
   */
  function Generation(n: nat, maxDepth: int, draw: (nat, int) -> bool): seq<int> {
    if n == 0 then [0]
    else
      var prev := Generation(n - 1, maxDepth, draw);
      NextGeneration(prev, maxDepth, seq(|prev|, i => draw(n - 1, i)))
  }

  lemma {:induction false} NextGenerationDepths(gen: seq<int>, maxDepth: int, branches: seq<bool>, k: int)
    requires |branches| == |gen|
    requires forall d :: d in gen ==> d == k
    ensures forall d :: d in NextGeneration(gen, maxDepth, branches) ==> d == k + 1 && d <= maxDepth
    ensures k >= maxDepth ==> NextGeneration(gen, maxDepth, branches) == []
    ensures k < maxDepth ==> |gen| <= |NextGeneration(gen, maxDepth, branches)| <= 3 * |gen|
  {
    if gen != [] {
      var n := |gen| - 1;
      assert forall d :: d in gen[..n] ==> d in gen;
      NextGenerationDepths(gen[..n], maxDepth, branches[..n], k);
      OffspringShape(gen[n], maxDepth, branches[n]);
      assert gen[n] in gen;
      assert NextGeneration(gen, maxDepth, branches) ==
        NextGeneration(gen[..n], maxDepth, branches[..n]) + Offspring(k, maxDepth, branches[n]);
    }
  }

  /**
   * Every node of generation `n` has depth `n`, and from depth 0 no node
   * deeper than `maxDepth` is ever spawned: the generations past it are empty.
   */
  lemma {:induction false} GenerationDepths(n: nat, maxDepth: int, draw: (nat, int) -> bool)
    ensures forall d :: d in Generation(n, maxDepth, draw) ==> d == n
    ensures n > 0 && n > maxDepth ==> Generation(n, maxDepth, draw) == []
  {
    if n > 0 {
      GenerationDepths(n - 1, maxDepth, draw);
      var prev := Generation(n - 1, maxDepth, draw);
      NextGenerationDepths(prev, maxDepth, seq(|prev|, i => draw(n - 1, i)), n - 1);
    }
  }

  // ---------------------------------------------------------------------------
  // The node object

  class IvyNode {
    var segmentPrefab: SegmentPrefab
    var growthInterval: real
    var segmentLength: real
    var branchChance: real
    var maxDepth: int
    var healthCurve: int -> real
    var depth: int
    /** The `IvySegment` of the same game object. */
    const segment: IvySegment

    constructor (segment: IvySegment, segmentPrefab: SegmentPrefab, growthInterval: real,
                 segmentLength: real, branchChance: real, maxDepth: int,
                 healthCurve: int -> real, depth: int)
      ensures this.segment == segment && this.segmentPrefab == segmentPrefab
      ensures this.growthInterval == growthInterval && this.segmentLength == segmentLength
      ensures this.branchChance == branchChance && this.maxDepth == maxDepth
      ensures this.healthCurve == healthCurve && this.depth == depth
    {
      this.segment := segment;
      this.segmentPrefab := segmentPrefab;
      this.growthInterval := growthInterval;
      this.segmentLength := segmentLength;
      this.branchChance := branchChance;
      this.maxDepth := maxDepth;
      this.healthCurve := healthCurve;
      this.depth := depth;
    }

    /** `child` is one level below this node, has its settings, and has the curve health of its depth. */
    ghost predicate IsChild(child: IvyNode)
      reads this, child, child.segment
    {
      && child.depth == depth + 1
      && child.segmentPrefab == segmentPrefab
      && child.growthInterval == growthInterval
      && child.segmentLength == segmentLength
      && child.branchChance == branchChance
      && child.maxDepth == maxDepth
      && child.healthCurve == healthCurve
      && child.segment.maxHealth == healthCurve(child.depth)
      && child.segment.currentHealth == healthCurve(child.depth)
      && child.segment.xpOnDestroy == segmentPrefab.xpOnDestroy
    }

    /**
     * `SpawnSegment`: instantiates the segment prefab (its `Awake` runs at
     * once), adds a node one level deeper with this node's settings, and
     * initialises the segment's health from the curve at the child's depth.
     */
    method SpawnSegment() returns (child: IvyNode)
      ensures fresh(child) && fresh(child.segment) && IsChild(child)
    {
      var seg := new IvySegment(segmentPrefab.xpOnDestroy);
      seg.Awake();
      child := new IvyNode(seg, segmentPrefab, 0.3, 0.5, 0.25, 5, healthCurve, 0);
      child.depth := depth + 1;
      child.segmentPrefab := segmentPrefab;
      child.growthInterval := growthInterval;
      child.segmentLength := segmentLength;
      child.branchChance := branchChance;
      child.maxDepth := maxDepth;
      child.healthCurve := healthCurve;
      var health := healthCurve(child.depth);
      seg.InitHealth(health);
    }

    /**
     * `Grow`, with `value` the draw of `Random.value`: the children spawned
     * have exactly the depths `Offspring` gives, are distinct fresh nodes
     * with their own fresh segments, and are children of this node. This
     * node itself is not modified (the method has no `modifies` clause), so
     * it never reschedules its own growth.
     */
    method Grow(value: real) returns (children: seq<IvyNode>)
      ensures |children| == |Offspring(depth, maxDepth, value < branchChance)|
      ensures forall i :: 0 <= i < |children| ==>
        children[i].depth == Offspring(depth, maxDepth, value < branchChance)[i]
      ensures forall i :: 0 <= i < |children| ==>
        fresh(children[i]) && fresh(children[i].segment) && IsChild(children[i])
      ensures forall i, j :: 0 <= i < j < |children| ==>
        children[i] != children[j] && children[i].segment != children[j].segment
    {
      if depth >= maxDepth {
        return [];
      }
      var forward := SpawnSegment();
      children := [forward];
      if value < branchChance {
        var left := SpawnSegment();
        var right := SpawnSegment();
        children := children + [left, right];
      }
    }
  }
}
