/**
 * PoolManager: two independent FIFO queues of reusable game objects, one for
 * branches and one for leaves, filled with inactive copies of a prefab at
 * start. Getting an object dequeues the front one and activates it, or makes
 * a fresh copy when the queue is empty; releasing deactivates an object and
 * enqueues it. Release has no duplicate check.
 */
module Pool {
  import opened Engine

  /** `max(n, 0)`: how many times `for (i = 0; i < n; i++)` runs. */
  function Iterations(n: int): nat {
    if n > 0 then n else 0
  }

  /** No object occurs twice in `q`. */
  ghost predicate Distinct(q: seq<GameObject>) {
    forall i, j :: 0 <= i < j < |q| ==> q[i] != q[j]
  }

  /** The front object of `q` as a set, empty for an empty queue. */
  function Front(q: seq<GameObject>): set<GameObject> {
    if q == [] then {} else {q[0]}
  }

  class PoolManager {
    const branchPrefab: GameObject
    const leafPrefab: GameObject
    var branchPoolSize: int
    var leafPoolSize: int
    var branchPool: seq<GameObject>
    var leafPool: seq<GameObject>

    /**
     * Pool invariant: every queued object is inactive, neither queue holds an
     * object twice, and no object sits in both queues.
     */
    ghost predicate Valid()
      reads this, branchPool, leafPool
    {
      && (forall o :: o in branchPool ==> !o.active)
      && (forall o :: o in leafPool ==> !o.active)
      && Distinct(branchPool)
      && Distinct(leafPool)
      && (forall o :: o in branchPool ==> o !in leafPool)
    }

    constructor (branchPrefab: GameObject, leafPrefab: GameObject, branchPoolSize: int, leafPoolSize: int)
      ensures this.branchPrefab == branchPrefab && this.leafPrefab == leafPrefab
      ensures this.branchPoolSize == branchPoolSize && this.leafPoolSize == leafPoolSize
      ensures branchPool == [] && leafPool == []
      ensures Valid()
    {
      this.branchPrefab := branchPrefab;
      this.leafPrefab := leafPrefab;
      this.branchPoolSize := branchPoolSize;
      this.leafPoolSize := leafPoolSize;
      branchPool := [];
      leafPool := [];
    }

    /**
     * `Awake` prewarm: enqueues `branchPoolSize` fresh inactive branch copies
     * and `leafPoolSize` fresh inactive leaf copies behind whatever is queued.
     */
    method Awake()
      modifies this`branchPool, this`leafPool
      ensures |branchPool| == |old(branchPool)| + Iterations(branchPoolSize)
      ensures branchPool[..|old(branchPool)|] == old(branchPool)
      ensures forall i :: |old(branchPool)| <= i < |branchPool| ==> fresh(branchPool[i]) && !branchPool[i].active
      ensures |leafPool| == |old(leafPool)| + Iterations(leafPoolSize)
      ensures leafPool[..|old(leafPool)|] == old(leafPool)
      ensures forall i :: |old(leafPool)| <= i < |leafPool| ==> fresh(leafPool[i]) && !leafPool[i].active
      ensures old(Valid()) ==> Valid()
    {
      ghost var wasLeaf := leafPool;
      branchPool := Prewarm(branchPrefab, branchPoolSize, branchPool);
      ghost var branches := branchPool;
      leafPool := Prewarm(leafPrefab, leafPoolSize, leafPool);
      if old(Valid()) {
        forall k, m | 0 <= k < |branches| && 0 <= m < |leafPool|
          ensures branches[k] != leafPool[m]
        {
          if m < |wasLeaf| && k < |old(branchPool)| {
            assert branches[k] == old(branchPool)[k] && leafPool[m] == wasLeaf[m];
            assert old(branchPool)[k] in old(branchPool);
            assert wasLeaf[m] in old(leafPool);
          } else if m < |wasLeaf| {
            assert fresh(branches[k]);
            assert leafPool[m] == wasLeaf[m];
          }
        }
      }
    }

    /**
     * One prewarm loop of `Awake`: `n` times, an inactive copy of `prefab`
     * is enqueued behind `q`; the copies are fresh and distinct.
     */
    static method Prewarm(prefab: GameObject, n: int, q: seq<GameObject>) returns (q': seq<GameObject>)
      ensures |q'| == |q| + Iterations(n) && q'[..|q|] == q
      ensures forall k :: |q| <= k < |q'| ==> fresh(q'[k]) && !q'[k].active
      ensures forall k, m :: |q| <= k < m < |q'| ==> q'[k] != q'[m]
    {
      q' := q;
      var i := 0;
      while i < n
        invariant 0 <= i <= Iterations(n)
        invariant |q'| == |q| + i && q'[..|q|] == q
        invariant forall k :: |q| <= k < |q'| ==> fresh(q'[k]) && !q'[k].active
        invariant forall k, m :: |q| <= k < m < |q'| ==> q'[k] != q'[m]
      {
        var obj := Instantiate(prefab);
        obj.active := false;
        q' := q' + [obj];
        i := i + 1;
      }
    }

    /**
     * `GetBranch`: the front of the branch queue, dequeued and activated; a
     * fresh prefab copy when the queue is empty. The leaf queue is untouched.
     */
    method GetBranch() returns (obj: GameObject)
      modifies this`branchPool, Front(branchPool)`active
      ensures old(branchPool) != [] ==> obj == old(branchPool[0]) && branchPool == old(branchPool[1..]) && obj.active
      ensures old(branchPool) == [] ==> fresh(obj) && obj.active == branchPrefab.active && branchPool == []
      ensures leafPool == old(leafPool)
      ensures old(Valid()) ==> Valid()
    {
      if |branchPool| > 0 {
        obj := branchPool[0];
        branchPool := branchPool[1..];
        obj.active := true;
        return;
      }
      obj := Instantiate(branchPrefab);
    }

    /**
     * `ReleaseBranch`: deactivates `obj` and enqueues it at the back of the
     * branch queue. The pool invariant survives only if `obj` was not queued.
     */
    method ReleaseBranch(obj: GameObject)
      modifies this`branchPool, obj`active
      ensures !obj.active && branchPool == old(branchPool) + [obj]
      ensures leafPool == old(leafPool)
      ensures old(Valid()) && obj !in old(branchPool) && obj !in old(leafPool) ==> Valid()
    {
      obj.active := false;
      branchPool := branchPool + [obj];
    }

    /** `GetLeaf`: as `GetBranch`, on the leaf queue. */
    method GetLeaf() returns (obj: GameObject)
      modifies this`leafPool, Front(leafPool)`active
      ensures old(leafPool) != [] ==> obj == old(leafPool[0]) && leafPool == old(leafPool[1..]) && obj.active
      ensures old(leafPool) == [] ==> fresh(obj) && obj.active == leafPrefab.active && leafPool == []
      ensures branchPool == old(branchPool)
      ensures old(Valid()) ==> Valid()
    {
      if |leafPool| > 0 {
        obj := leafPool[0];
        leafPool := leafPool[1..];
        obj.active := true;
        return;
      }
      obj := Instantiate(leafPrefab);
    }

    /** `ReleaseLeaf`: as `ReleaseBranch`, on the leaf queue. */
    method ReleaseLeaf(obj: GameObject)
      modifies this`leafPool, obj`active
      ensures !obj.active && leafPool == old(leafPool) + [obj]
      ensures branchPool == old(branchPool)
      ensures old(Valid()) && obj !in old(branchPool) && obj !in old(leafPool) ==> Valid()
    {
      obj.active := false;
      leafPool := leafPool + [obj];
    }
  }

  /**
   * Releasing an object that is still queued breaks the pool: after two
   * releases of `a` and one get, `a` is active and yet still in the queue.
   */
  method DoubleRelease(pool: PoolManager, a: GameObject)
    requires pool.branchPool == []
    modifies pool, a
    ensures a in pool.branchPool && a.active && !pool.Valid()
  {
    pool.ReleaseBranch(a);
    pool.ReleaseBranch(a);
    var got := pool.GetBranch();
    assert got == a;
    assert pool.branchPool == [a];
  }

  // ---------------------------------------------------------------------------
  // Queue discipline over a run of calls

  datatype PoolOp<T> = Get | Release(obj: T)

  /** The objects put back, in release order. */
  function Released<T>(ops: seq<PoolOp<T>>): seq<T> {
    if ops == [] then []
    else Released(ops[..|ops| - 1]) + (if ops[|ops| - 1].Release? then [ops[|ops| - 1].obj] else [])
  }

  /**
   * Replays `ops` on a queue as `Get...`/`Release...` do: returns the objects
   * handed out of the queue (fresh copies are not queue objects) and the
   * queue left behind.
   */
  function Replay<T>(q: seq<T>, ops: seq<PoolOp<T>>): (seq<T>, seq<T>) {
    if ops == [] then ([], q)
    else
      var (out, rest) := Replay(q, ops[..|ops| - 1]);
      match ops[|ops| - 1]
      case Get => if rest == [] then (out, rest) else (out + [rest[0]], rest[1..])
      case Release(o) => (out, rest + [o])
  }

  /**
   * FIFO: what has been handed out, followed by what is still queued, is
   * exactly the prewarmed queue followed by the released objects in release
   * order. So no object is handed out before one queued ahead of it.
   */
  lemma {:induction false} FifoOrder<T>(q: seq<T>, ops: seq<PoolOp<T>>)
    ensures Replay(q, ops).0 + Replay(q, ops).1 == q + Released(ops)
  {
    if ops != [] {
      var init := ops[..|ops| - 1];
      FifoOrder(q, init);
      var (out, rest) := Replay(q, init);
      match ops[|ops| - 1]
      case Get =>
        if rest != [] {
          assert out + rest == (out + [rest[0]]) + rest[1..];
        }
      case Release(o) =>
        assert out + (rest + [o]) == (out + rest) + [o];
    }
  }

  /** The object a step puts back, as a frame. */
  function Operand<T>(op: PoolOp<T>): set<T> {
    if op.Release? then {op.obj} else {}
  }

  /**
   * One step of the replay carried out by the branch methods: a `Get` is a
   * `GetBranch`, a `Release(o)` a `ReleaseBranch(o)`. The object handed out
   * of the queue (none when a fresh copy is made) and the new queue are
   * exactly those of `Replay` on the old queue, so `FifoOrder` speaks about
   * runs of these calls.
   */
  method BranchStep(pool: PoolManager, op: PoolOp<GameObject>) returns (handed: seq<GameObject>)
    modifies pool`branchPool, Front(pool.branchPool)`active, Operand(op)`active
    ensures (handed, pool.branchPool) == Replay(old(pool.branchPool), [op])
  {
    ghost var q := pool.branchPool;
    assert [op][..0] == [] && Replay(q, []) == ([], q);
    match op
    case Get =>
      var wasEmpty := pool.branchPool == [];
      var obj := pool.GetBranch();
      handed := if wasEmpty then [] else [obj];
      if q != [] {
        assert [] + [q[0]] == [q[0]];
      }
    case Release(o) =>
      pool.ReleaseBranch(o);
      handed := [];
  }
}
