/**
 * The uniform grid index of SpatialPartitionManager: a dictionary from cell
 * keys to lists of segments. Positions and the cell size are integers here
 * (the game uses floats), the cell size is positive, and a cell key is the
 * floor of each coordinate divided by the cell size. Segments are any type
 * with reference-like equality, as `List<IvySegment>.Remove` compares them.
 */
module SpatialPartition {

  type PositiveInt = n: int | n > 0 witness 1

  /** `Vector2Int`: a cell key. */
  datatype Cell = Cell(x: int, y: int)

  /** A segment position (`seg.transform.position`, projected to 2D). */
  datatype Position = Position(x: int, y: int)

  /** Unity's `Rect`, by its minimum and maximum corners. */
  datatype Rect = Rect(xMin: int, yMin: int, xMax: int, yMax: int)

  type Buckets<S> = map<Cell, seq<S>>

  // ---------------------------------------------------------------------------
  // Hashing positions to cells

  /** `Mathf.FloorToInt(a / d)` for a positive divisor. */
  function FloorDiv(a: int, d: PositiveInt): (q: int)
    ensures q * d <= a < q * d + d
  {
    a / d
  }

  /** The floor quotient is the only integer whose cell contains `a`. */
  lemma FloorDivUnique(a: int, d: PositiveInt, q: int)
    requires q * d <= a < q * d + d
    ensures FloorDiv(a, d) == q
  {
    var r := FloorDiv(a, d);
    if r < q {
      MulMonotone(r + 1, q, d);
    } else if q < r {
      MulMonotone(q + 1, r, d);
    }
  }

  lemma MulMonotone(a: int, b: int, d: PositiveInt)
    requires a <= b
    ensures a * d <= b * d
  {
    assert b * d - a * d == (b - a) * d;
  }

  /** Flooring is monotone: a larger coordinate never lands in a lower cell. */
  lemma FloorDivMonotone(a: int, b: int, d: PositiveInt)
    requires a <= b
    ensures FloorDiv(a, d) <= FloorDiv(b, d)
  {
    var qa, qb := FloorDiv(a, d), FloorDiv(b, d);
    if qb < qa {
      MulMonotone(qb + 1, qa, d);
    }
  }

  /** Position `p` lies in the square of side `cellSize` at cell `c`. */
  predicate InCell(p: Position, c: Cell, cellSize: PositiveInt) {
    && c.x * cellSize <= p.x < c.x * cellSize + cellSize
    && c.y * cellSize <= p.y < c.y * cellSize + cellSize
  }

  /** `Hash`: the cell whose square contains the position. */
  function Hash(p: Position, cellSize: PositiveInt): (c: Cell)
    ensures InCell(p, c, cellSize)
  {
    Cell(FloorDiv(p.x, cellSize), FloorDiv(p.y, cellSize))
  }

  /** A position hashes to a cell exactly when it lies in that cell's square. */
  lemma HashIsCell(p: Position, c: Cell, cellSize: PositiveInt)
    ensures Hash(p, cellSize) == c <==> InCell(p, c, cellSize)
  {
    if InCell(p, c, cellSize) {
      FloorDivUnique(p.x, cellSize, c.x);
      FloorDivUnique(p.y, cellSize, c.y);
    }
  }

  /** Two positions in the square of one cell get the same key. */
  lemma SameCellSameKey(p: Position, q: Position, c: Cell, cellSize: PositiveInt)
    requires InCell(p, c, cellSize) && InCell(q, c, cellSize)
    ensures Hash(p, cellSize) == Hash(q, cellSize) == c
  {
    HashIsCell(p, c, cellSize);
    HashIsCell(q, c, cellSize);
  }

  // ---------------------------------------------------------------------------
  // Bucket contents

  /** The list stored under `k`, or the empty list when there is no bucket. */
  function Bucket<S>(b: Buckets<S>, k: Cell): seq<S> {
    if k in b then b[k] else []
  }

  /** `Insert` on the dictionary: append `s` to the bucket of `k`, creating it if missing. */
  function Inserted<S>(b: Buckets<S>, k: Cell, s: S): (r: Buckets<S>)
    ensures r.Keys == b.Keys + {k}
    ensures r[k] == Bucket(b, k) + [s]
    ensures forall k' :: k' in b && k' != k ==> r[k'] == b[k']
  {
    b[k := Bucket(b, k) + [s]]
  }

  /** Position of the first occurrence of `x`, as `List.IndexOf` finds it. */
  function IndexOf<S(==)>(xs: seq<S>, x: S): (i: nat)
    requires x in xs
    ensures i < |xs| && xs[i] == x && x !in xs[..i]
  {
    if xs[0] == x then 0 else 1 + IndexOf(xs[1..], x)
  }

  /**
   * `List.Remove`: drops the first occurrence of `x`, keeping the order of the
   * rest; a list without `x` is returned as it is.
   */
  function RemoveFirst<S(==)>(xs: seq<S>, x: S): seq<S> {
    if xs == [] then []
    else if xs[0] == x then xs[1..]
    else [xs[0]] + RemoveFirst(xs[1..], x)
  }

  /**
   * What `RemoveFirst` leaves: the list without `x` as it was, otherwise the
   * part before the first `x` followed by the part after it.
   */
  lemma {:induction false} RemoveFirstSplits<S>(xs: seq<S>, x: S)
    ensures x !in xs ==> RemoveFirst(xs, x) == xs
    ensures x in xs ==> RemoveFirst(xs, x) == xs[..IndexOf(xs, x)] + xs[IndexOf(xs, x) + 1..]
  {
    if xs != [] {
      assert xs == [xs[0]] + xs[1..];
      if xs[0] != x {
        RemoveFirstSplits(xs[1..], x);
        if x in xs {
          assert xs[..IndexOf(xs, x)] == [xs[0]] + xs[1..][..IndexOf(xs[1..], x)];
          assert xs[IndexOf(xs, x) + 1..] == xs[1..][IndexOf(xs[1..], x) + 1..];
        }
      }
    }
  }

  /** Removing takes away exactly one copy of `x`, or nothing when there is none. */
  lemma RemoveFirstMultiset<S>(xs: seq<S>, x: S)
    ensures multiset(RemoveFirst(xs, x)) == multiset(xs) - multiset{x}
  {
    RemoveFirstSplits(xs, x);
    if x in xs {
      DropAt(xs, IndexOf(xs, x));
    } else {
      assert multiset(xs)[x] == 0;
      assert multiset(xs) - multiset{x} == multiset(xs);
    }
  }

  /** Cutting out the element at `i` takes one copy of it out of the multiset. */
  lemma DropAt<S>(xs: seq<S>, i: nat)
    requires i < |xs|
    ensures multiset(xs[..i] + xs[i + 1..]) == multiset(xs) - multiset{xs[i]}
  {
    assert xs == xs[..i] + [xs[i]] + xs[i + 1..];
    assert multiset(xs) == multiset(xs[..i]) + multiset{xs[i]} + multiset(xs[i + 1..]);
  }

  /**
   * `Remove` on the dictionary: drop the first occurrence of `s` from the
   * bucket of `k`; a missing bucket is a no-op and an emptied bucket is kept.
   */
  function Removed<S(==)>(b: Buckets<S>, k: Cell, s: S): (r: Buckets<S>)
    ensures r.Keys == b.Keys
    ensures k in b ==> r[k] == RemoveFirst(b[k], s)
    ensures forall k' :: k' in b && k' != k ==> r[k'] == b[k']
  {
    if k in b then b[k := RemoveFirst(b[k], s)] else b
  }

  /**
   * Inserting and then removing the same segment under the same key gives the
   * bucket back as a multiset, and exactly when the segment was not already
   * there; every other bucket is exactly as before.
   */
  lemma InsertThenRemove<S>(b: Buckets<S>, k: Cell, s: S)
    ensures var r := Removed(Inserted(b, k, s), k, s);
      && r.Keys == b.Keys + {k}
      && multiset(r[k]) == multiset(Bucket(b, k))
      && (s !in Bucket(b, k) ==> r[k] == Bucket(b, k))
      && (forall k' :: k' in b && k' != k ==> r[k'] == b[k'])
  {
    var old_ := Bucket(b, k);
    var r := Removed(Inserted(b, k, s), k, s);
    assert s in old_ + [s];
    if s !in old_ {
      RemoveFirstSplits(old_ + [s], s);
      assert IndexOf(old_ + [s], s) == |old_|;
      assert (old_ + [s])[..|old_|] == old_;
    }
    RemoveFirstMultiset(old_ + [s], s);
    calc {
      multiset(r[k]);
      multiset(old_ + [s]) - multiset{s};
      multiset(old_) + multiset{s} - multiset{s};
      multiset(old_);
    }
  }

  /** Insert has no duplicate check: a second insert adds a second entry. */
  lemma InsertTwice<S>(b: Buckets<S>, k: Cell, s: S)
    ensures var r := Inserted(Inserted(b, k, s), k, s);
      r[k] == Bucket(b, k) + [s, s] && multiset(r[k])[s] == multiset(Bucket(b, k))[s] + 2
  {
    var r := Inserted(Inserted(b, k, s), k, s);
    assert r[k] == Bucket(b, k) + [s] + [s];
    assert Bucket(b, k) + [s] + [s] == Bucket(b, k) + [s, s];
  }

  // ---------------------------------------------------------------------------
  // Range queries

  /** The buckets of column `x` for rows `minY..maxY`, in increasing `y`. */
  function Column<S>(b: Buckets<S>, x: int, minY: int, maxY: int): seq<S>
    decreases maxY - minY
  {
    if maxY < minY then [] else Column(b, x, minY, maxY - 1) + Bucket(b, Cell(x, maxY))
  }

  /** The buckets of cells `[minX..maxX] x [minY..maxY]`, x outer and y inner. */
  function Query<S>(b: Buckets<S>, minX: int, maxX: int, minY: int, maxY: int): seq<S>
    decreases maxX - minX
  {
    if maxX < minX then [] else Query(b, minX, maxX - 1, minY, maxY) + Column(b, maxX, minY, maxY)
  }

  ghost predicate InRange(c: Cell, minX: int, maxX: int, minY: int, maxY: int) {
    minX <= c.x <= maxX && minY <= c.y <= maxY
  }

  lemma {:induction false} ColumnMembers<S>(b: Buckets<S>, x: int, minY: int, maxY: int, s: S)
    ensures s in Column(b, x, minY, maxY) <==>
      exists y :: minY <= y <= maxY && Cell(x, y) in b && s in b[Cell(x, y)]
    decreases maxY - minY
  {
    if maxY >= minY {
      ColumnMembers(b, x, minY, maxY - 1, s);
      var c := Cell(x, maxY);
      if s in Bucket(b, c) {
        assert c in b && s in b[c];
      }
    }
  }

  /**
   * A segment is in the query result exactly when some bucket whose key is
   * in the range holds it.
   */
  lemma {:induction false} QueryMembers<S>(b: Buckets<S>, minX: int, maxX: int, minY: int, maxY: int, s: S)
    ensures s in Query(b, minX, maxX, minY, maxY) <==>
      exists c :: c in b && InRange(c, minX, maxX, minY, maxY) && s in b[c]
    decreases maxX - minX
  {
    if maxX >= minX {
      QueryMembers(b, minX, maxX - 1, minY, maxY, s);
      ColumnMembers(b, maxX, minY, maxY, s);
      if s in Column(b, maxX, minY, maxY) {
        var y :| minY <= y <= maxY && Cell(maxX, y) in b && s in b[Cell(maxX, y)];
        assert InRange(Cell(maxX, y), minX, maxX, minY, maxY);
      }
      if c :| c in b && InRange(c, minX, maxX, minY, maxY) && s in b[c] {
        if c.x == maxX {
          assert minY <= c.y <= maxY && Cell(maxX, c.y) in b && s in b[Cell(maxX, c.y)];
        } else {
          assert InRange(c, minX, maxX - 1, minY, maxY);
        }
      }
    }
  }

  lemma {:induction false} EmptyRowsEmptyQuery<S>(b: Buckets<S>, minX: int, maxX: int, minY: int, maxY: int)
    requires maxY < minY
    ensures Query(b, minX, maxX, minY, maxY) == []
    decreases maxX - minX
  {
    if maxX >= minX {
      EmptyRowsEmptyQuery(b, minX, maxX - 1, minY, maxY);
    }
  }

  /** A range that is empty on either axis yields nothing. */
  lemma EmptyRangeEmptyQuery<S>(b: Buckets<S>, minX: int, maxX: int, minY: int, maxY: int)
    requires maxX < minX || maxY < minY
    ensures Query(b, minX, maxX, minY, maxY) == []
  {
    if maxY < minY {
      EmptyRowsEmptyQuery(b, minX, maxX, minY, maxY);
    }
  }

  /** The cell range that `QueryArea` scans for `area`. */
  function AreaQuery<S>(b: Buckets<S>, area: Rect, cellSize: PositiveInt): seq<S> {
    Query(b, FloorDiv(area.xMin, cellSize), FloorDiv(area.xMax, cellSize),
             FloorDiv(area.yMin, cellSize), FloorDiv(area.yMax, cellSize))
  }

  predicate Contains(area: Rect, p: Position) {
    area.xMin <= p.x <= area.xMax && area.yMin <= p.y <= area.yMax
  }

  /**
   * A segment inserted at a position inside `area` is reported by a query of
   * `area`, whatever else the index holds.
   */
  lemma InsertedIsFound<S>(b: Buckets<S>, s: S, p: Position, area: Rect, cellSize: PositiveInt)
    requires Contains(area, p)
    ensures s in AreaQuery(Inserted(b, Hash(p, cellSize), s), area, cellSize)
  {
    var r := Inserted(b, Hash(p, cellSize), s);
    var c := Hash(p, cellSize);
    FloorDivMonotone(area.xMin, p.x, cellSize);
    FloorDivMonotone(p.x, area.xMax, cellSize);
    FloorDivMonotone(area.yMin, p.y, cellSize);
    FloorDivMonotone(p.y, area.yMax, cellSize);
    assert s in r[c];
    QueryMembers(r, FloorDiv(area.xMin, cellSize), FloorDiv(area.xMax, cellSize),
                    FloorDiv(area.yMin, cellSize), FloorDiv(area.yMax, cellSize), s);
  }

  // ---------------------------------------------------------------------------
  // The manager object

  class SpatialPartitionManager<S(==)> {
    const cellSize: PositiveInt
    var buckets: Buckets<S>

    constructor (cellSize: PositiveInt)
      ensures this.cellSize == cellSize && buckets == map[]
    {
      this.cellSize := cellSize;
      buckets := map[];
    }

    /** `Insert(seg)`, where `pos` is the segment's current position. */
    method Insert(seg: S, pos: Position)
      modifies this
      ensures buckets == Inserted(old(buckets), Hash(pos, cellSize), seg)
    {
      var key := Hash(pos, cellSize);
      if key !in buckets {
        buckets := buckets[key := []];
      }
      buckets := buckets[key := buckets[key] + [seg]];
    }

    /** `Remove(seg)`, where `pos` is the segment's current position. */
    method Remove(seg: S, pos: Position)
      modifies this
      ensures buckets == Removed(old(buckets), Hash(pos, cellSize), seg)
    {
      var key := Hash(pos, cellSize);
      if key in buckets {
        buckets := buckets[key := RemoveFirst(buckets[key], seg)];
      }
    }

    /**
     * `QueryArea(area)`: the concatenation of the buckets of every cell the
     * area covers. Having no `modifies` clause, it leaves every bucket as it is.
     */
    method QueryArea(area: Rect) returns (results: seq<S>)
      ensures results == AreaQuery(buckets, area, cellSize)
    {
      results := [];
      var minX := FloorDiv(area.xMin, cellSize);
      var maxX := FloorDiv(area.xMax, cellSize);
      var minY := FloorDiv(area.yMin, cellSize);
      var maxY := FloorDiv(area.yMax, cellSize);
      var x := minX;
      while x <= maxX
        invariant minX <= x <= if minX <= maxX then maxX + 1 else minX
        invariant results == Query(buckets, minX, x - 1, minY, maxY)
        decreases maxX - x
      {
        var y := minY;
        while y <= maxY
          invariant minY <= y <= if minY <= maxY then maxY + 1 else minY
          invariant results == Query(buckets, minX, x - 1, minY, maxY) + Column(buckets, x, minY, y - 1)
          decreases maxY - y
        {
          var key := Cell(x, y);
          if key in buckets {
            results := results + buckets[key];
          }
          y := y + 1;
        }
        assert Column(buckets, x, minY, y - 1) == Column(buckets, x, minY, maxY);
        x := x + 1;
      }
      assert Query(buckets, minX, x - 1, minY, maxY) == Query(buckets, minX, maxX, minY, maxY);
    }
  }
}
