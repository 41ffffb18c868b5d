# Overgrown ivy: a Dafny model of the game's core scripts

Overgrown is a Unity game. Ivy vines grow from roots around a centre, and
the player cuts their segments for experience. This project models the
game's C# scripts that hold logic, one Dafny module per script:

- `SpatialPartition` (`spatial_partition.dfy`): the grid index of
  `SpatialPartitionManager`. It is a map from cell keys to lists of
  segments, with hash, insert, remove and rectangle query.
- `Pool` (`pool.dfy`): the two FIFO object queues of `PoolManager`. They are
  filled with inactive copies at start, dequeued and activated on get, and
  deactivated and enqueued on release.
- `IvyNodes` (`ivy_node.dfy`): the growth step of `IvyNode`. It spawns 0, 1
  or 3 children, each one level deeper, with the parent's settings and the
  health the curve gives for its depth.
- `IvySegments` (`ivy_segment.dfy`): the health of `IvySegment` and its
  reward on destruction.
- `Progression` (`xp.dfy`): the experience and level-up loop of `XPManager`.
- `Growth` (`growth.dfy`): the frame-rate hysteresis switch, the manual
  toggle and the periodic gate of `GrowthManager`.
- `Game` (`game.dfy`): the game-over latch and the pause switch of
  `GameManager`.
- `TagFixing` (`tag_fixer.dfy`): the retagging pass of `IvyTagFixer`.
- `CollisionFixing` (`collision_fixer.dfy`): the collider counting and
  fixing pass of `CollisionFixer`.
- `Engine` (`engine.dfy`): stand-ins for the Unity pieces the scripts touch.
  These are game objects (active flag, tag, 2D colliders), `Instantiate`,
  and the two global growth calls `IvyNode.PauseAllGrowth` and
  `IvyNode.ResumeAllGrowth`. The model records that those calls were made.

Objects whose fields the scripts update in place are Dafny classes, and
their methods carry `modifies` frames. The loops of the scripts are Dafny
loops, each proved against a function that specifies it. Examples are
`CheckLevelUp` against `Settle`, `QueryArea` against `Query`, and the
fix-up passes against counts of the state before the pass.

Inputs the engine supplies become parameters:

- the frame rate, `Time.time` and `Random.value`;
- the results of `FindObjectsOfType` and `FindGameObjectsWithTag`, as sequences
  (the passes only read them);
- a segment's position;
- the two `AnimationCurve`s, which become functions from levels or depths
  to numbers.

`Time.timeScale` becomes a field of `GameManager`.

Positions and the cell size are integers, and the cell size is positive, so
`Hash` is exact floor division. Experience is an integer. The model requires every cost from the current
level on to be positive, which is enough for the level-up loop to end. Health and frame rates are
reals.

### Behaviours of the scripts worth knowing

- A segment can be rewarded twice. `IvySegment.TakeDamage` has no
  "destroyed" flag, and `Destroy` takes effect at the end of the frame, so a
  second lethal hit in the same frame pays `xpOnDestroy` again
  (`IvySegments.HitTwice`).
- Release has no duplicate check. `PoolManager.ReleaseBranch` just
  enqueues, so a double release followed by a get leaves an active object in
  the queue (`Pool.DoubleRelease`).
- Insert has no duplicate check. `SpatialPartitionManager.Insert` adds a
  second entry for a segment inserted twice (`SpatialPartition.InsertTwice`).
- Growth has no population cap, no backoff under congestion and no decay of
  the branch chance with depth: the only limit is `maxDepth`. There are no
  leaf attachments, and children do not inherit a growth rate.

## Model

| member | source | states |
|---|---|---|
| SpatialPartition.FloorDiv | Assets/Scripts/SpatialPartitionManager.cs:16-17 | The quotient is the floor: `q * d <= a < q * d + d` for a positive cell size. |
| SpatialPartition.Hash | Assets/Scripts/SpatialPartitionManager.cs:14-19 | The key of a position is a cell whose square contains the position. |
| SpatialPartition.HashIsCell | Assets/Scripts/SpatialPartitionManager.cs:14-19 | A position hashes to cell `c` if and only if it lies in `c`'s square. |
| SpatialPartition.SameCellSameKey | Assets/Scripts/SpatialPartitionManager.cs:14-19 | Two positions in one cell's square get the same key, and it is that cell. |
| SpatialPartition.Inserted | Assets/Scripts/SpatialPartitionManager.cs:21-27 | The bucket exists afterwards and is the old list (or the empty list) with `seg` at the end. Every other bucket is unchanged and no other key appears. |
| SpatialPartition.RemoveFirstSplits | Assets/Scripts/SpatialPartitionManager.cs:32 | `List.Remove` drops exactly the first occurrence and keeps the rest in order. A list without the element is returned unchanged. |
| SpatialPartition.RemoveFirstMultiset | Assets/Scripts/SpatialPartitionManager.cs:32 | Removing takes away exactly one copy of the element from the multiset, or nothing when there is none. |
| SpatialPartition.Removed | Assets/Scripts/SpatialPartitionManager.cs:29-34 | Only the bucket of the key changes, and only by `RemoveFirst`. A missing bucket is a no-op. No key is added or deleted, so emptied buckets stay. |
| SpatialPartition.InsertThenRemove | Assets/Scripts/SpatialPartitionManager.cs:21-34 | Insert then remove at one key restores that bucket's multiset, and restores the exact list when the segment was not there already. All other buckets are as before. |
| SpatialPartition.InsertTwice | Assets/Scripts/SpatialPartitionManager.cs:24-25 | Two inserts leave two more entries of the segment at the bucket's end: there is no duplicate check. |
| SpatialPartition.QueryMembers | Assets/Scripts/SpatialPartitionManager.cs:45-52 | A segment is in the query result if and only if some bucket whose key is in the cell range holds it. |
| SpatialPartition.EmptyRangeEmptyQuery | Assets/Scripts/SpatialPartitionManager.cs:45-46 | A range whose minimum exceeds its maximum on either axis yields nothing. |
| SpatialPartition.InsertedIsFound | Assets/Scripts/SpatialPartitionManager.cs:36-56 | A segment inserted at a position inside the area is reported by a query of that area. |
| SpatialPartition.SpatialPartitionManager.Insert | Assets/Scripts/SpatialPartitionManager.cs:21-27 | The new dictionary is `Inserted` of the old one at the key of the segment's position. |
| SpatialPartition.SpatialPartitionManager.Remove | Assets/Scripts/SpatialPartitionManager.cs:29-34 | The new dictionary is `Removed` of the old one at the key of the segment's position. |
| SpatialPartition.SpatialPartitionManager.QueryArea | Assets/Scripts/SpatialPartitionManager.cs:36-56 | The nested loops return the buckets of every cell of the floored area, concatenated with x outer and y inner. They modify nothing. |
| Pool.PoolManager.Awake | Assets/Scripts/PoolManager.cs:14-27 | Each queue grows by `max(size, 0)` fresh inactive objects behind its old contents, and the pool invariant is kept. |
| Pool.PoolManager.Prewarm | Assets/Scripts/PoolManager.cs:17-26 | One prewarm loop: the queue keeps its contents in front and gains `max(size, 0)` fresh, distinct, inactive copies behind them. |
| Pool.PoolManager.GetBranch | Assets/Scripts/PoolManager.cs:29-37 | A non-empty queue hands out its front, which is dequeued and activated. An empty queue gives a fresh copy and stays empty. The leaf queue is untouched and the invariant is kept. |
| Pool.PoolManager.ReleaseBranch | Assets/Scripts/PoolManager.cs:39-42 | The object is deactivated and appended at the back, and the leaf queue is untouched. The invariant is kept when the object was not already queued. |
| Pool.PoolManager.GetLeaf | Assets/Scripts/PoolManager.cs:44-51 | As `GetBranch`, on the leaf queue, with the branch queue untouched. |
| Pool.PoolManager.ReleaseLeaf | Assets/Scripts/PoolManager.cs:53-56 | As `ReleaseBranch`, on the leaf queue, with the branch queue untouched. |
| Pool.DoubleRelease | Assets/Scripts/PoolManager.cs:39-42 | Releasing an object twice and getting once leaves it active yet still queued, which breaks the pool invariant. |
| Pool.BranchStep | Assets/Scripts/PoolManager.cs:29-42 | A `GetBranch` or `ReleaseBranch` call does exactly one `Replay` step on the branch queue: same object handed out of the queue, same queue afterwards. |
| Pool.FifoOrder | Assets/Scripts/PoolManager.cs:29-56 | Over any run of gets and releases, the objects handed out followed by those still queued are the prewarmed ones followed by the released ones, in order. |
| Progression.SettleEnds | Assets/Scripts/XPManager.cs:20-29 | Where the level-up loop ends. The experience spent is the cost of the levels gained, and the next level is unaffordable. Experience is non-negative once a level was gained, and nothing changes when the first level is unaffordable. |
| Progression.SettleLevelsAffordable | Assets/Scripts/XPManager.cs:22-23 | Every level passed was affordable with the experience left when it was reached. |
| Progression.SettleTwice | Assets/Scripts/XPManager.cs:15-18 | Adding experience twice, the second amount non-negative, ends where adding the sum once ends. |
| Progression.XPManager.AddXP | Assets/Scripts/XPManager.cs:15-18 | The new experience and level are `Settle` of the old experience plus the amount. Points gained equal levels gained. |
| Progression.XPManager.CheckLevelUp | Assets/Scripts/XPManager.cs:20-29 | The loop ends at `Settle` of the old state, it terminates (each pass spends a positive cost), and points gained equal levels gained. |
| IvySegments.AwakeHealth | Assets/Scripts/IvySegment.cs:10-14 | The health after the fallback is positive, and a positive health is kept. |
| IvySegments.IvySegment.Awake | Assets/Scripts/IvySegment.cs:10-14 | The maximum health becomes 50 if it was not positive. The current health becomes the maximum. |
| IvySegments.IvySegment.InitHealth | Assets/Scripts/IvySegment.cs:19-22 | Both healths become `h`. |
| IvySegments.IvySegment.TakeDamage | Assets/Scripts/IvySegment.cs:24-30 | The health drops by exactly the amount. The reward is added to the experience manager and destruction requested if and only if the health ends at most 0. Otherwise the manager is untouched, and the maximum health never changes. |
| IvySegments.HitTwice | Assets/Scripts/IvySegment.cs:24-30 | Two lethal hits in one frame pay the reward twice. |
| IvySegments.TwoRewards | Assets/Scripts/IvySegment.cs:24-30 | Two rewards paid one after the other settle where twice the reward paid at once settles. |
| IvyNodes.OffspringShape | Assets/Scripts/IvyNode.cs:20-30 | At or past the maximum depth there are no children. Otherwise there are one, or three when the draw branches, each exactly one level deeper and never past the maximum. |
| IvyNodes.NextGenerationDepths | Assets/Scripts/IvyNode.cs:20-30 | A generation at one depth spawns children one level deeper: none at or past the maximum, otherwise between one and three per node. |
| IvyNodes.GenerationDepths | Assets/Scripts/IvyNode.cs:20-51 | From a root at depth 0, every node of generation `n` has depth `n`, and the generations past the maximum depth are empty. |
| IvyNodes.IvyNode.SpawnSegment | Assets/Scripts/IvyNode.cs:32-51 | The child is fresh and one level deeper. It has the parent's prefab, interval, length, branch chance, maximum depth and curve, and both its healths are the curve at its depth. |
| IvyNodes.IvyNode.Grow | Assets/Scripts/IvyNode.cs:20-30 | The children have exactly the `Offspring` depths. They are distinct fresh children of this node with their own segments, and the node itself is not modified. |
| Growth.Check | Assets/Scripts/GrowthManager.cs:95-108 | A call is made exactly when the flag changes, and it matches the new flag. A running manager pauses if and only if the rate is below the lower threshold. A paused one resumes if and only if the rate is above the upper threshold. A rate between the thresholds, or at one of them, changes nothing. |
| Growth.StepConsistent | Assets/Scripts/GrowthManager.cs:95-118 | Any flag change with its matching call keeps the call log alternating with the flag. |
| Growth.MonitorConsistent | Assets/Scripts/GrowthManager.cs:95-108 | Over any run of checks the calls alternate pause, resume, pause, and so on, so there are never two pauses in a row. |
| Growth.MonitorInBand | Assets/Scripts/GrowthManager.cs:97-107 | Frame rates that always lie between the thresholds never pause or resume anything. |
| Growth.GrowthManager.StartClock | Assets/Scripts/GrowthManager.cs:59 | The first check is timed from the given time. |
| Growth.GrowthManager.CheckPerformance | Assets/Scripts/GrowthManager.cs:95-108 | The new flag and the calls appended are those of `Check` on the current rate, and the alternation invariant is kept. |
| Growth.GrowthManager.ToggleGrowth | Assets/Scripts/GrowthManager.cs:111-118 | The flag flips, exactly the matching call is appended, and the invariant is kept. |
| Growth.GrowthManager.Update | Assets/Scripts/GrowthManager.cs:62-73 | Without auto-adjust nothing changes. With it, the rate is recorded. A check runs and the clock restarts exactly when more than the interval has passed; otherwise the flag, calls and clock are unchanged. |
| Game.GameManager.Start | Assets/Scripts/GameManager.cs:24-38 | Both flags are cleared, the time scale is 1 and both panels are hidden. This establishes the invariant when the two panels are different objects. |
| Game.GameManager.GameOver | Assets/Scripts/GameManager.cs:40-53 | Once over, a call does nothing and makes no call. The first call latches the flag, makes exactly one pause call and shows the panel. The pause state and clock are never touched. |
| Game.GameManager.PauseGame | Assets/Scripts/GameManager.cs:61-68 | The game is paused, the time scale is 0 and the pause panel is shown. The game-over state is not touched. |
| Game.GameManager.ResumeGame | Assets/Scripts/GameManager.cs:70-77 | The game is unpaused, the time scale is 1 and the pause panel is hidden. The game-over state is not touched. |
| Game.GameOverTwice | Assets/Scripts/GameManager.cs:40-53 | Two game-overs make exactly one pause call between them. |
| TagFixing.IvyTagFixer.FixIvyTags | Assets/Scripts/IvyTagFixer.cs:27-52 | Afterwards every segment and node object has the ivy tag. The count is the number of distinct objects mistagged before, so an object in both lists counts once. It is logged exactly when debugging is on and the count is positive. |
| TagFixing.IvyTagFixer.RetagAll | Assets/Scripts/IvyTagFixer.cs:32-37 | One `foreach`: every object visited is tagged, and the count grows by the mistagged objects not seen before. |
| TagFixing.IvyTagFixer.Retag | Assets/Scripts/IvyTagFixer.cs:33-36 | One iteration: the object ends with the ivy tag and is counted exactly when it was mistagged and not seen before. |
| TagFixing.AllCounted | Assets/Scripts/IvyTagFixer.cs:27-46 | Once both lists are visited, every mistagged object has been seen, so the count covers all of them. |
| TagFixing.IvyTagFixer.Update | Assets/Scripts/IvyTagFixer.cs:21-25 | With `runEveryFrame` the pass runs with the guarantees of `FixIvyTags`; without it nothing changes. |
| TagFixing.FixTwice | Assets/Scripts/IvyTagFixer.cs:27-52 | A second pass fixes nothing and logs nothing. |
| TagFixing.Visit | Assets/Scripts/IvyTagFixer.cs:33-36 | Visiting an object counts it exactly when it was mistagged and not seen before. |
| CollisionFixing.ColliderlessContributesNothing | Assets/Scripts/CollisionFixer.cs:48-51 | An object without colliders adds no collider to the pass, so it adds nothing to either count. |
| CollisionFixing.MismatchesZero | Assets/Scripts/CollisionFixer.cs:53-62 | The count is at most the number of colliders, and it is zero if and only if every flag already matches. |
| CollisionFixing.CollisionFixer.CheckColliders | Assets/Scripts/CollisionFixer.cs:40-74 | The issue count is the number of colliders of all target objects whose trigger flag differed. In report-only mode nothing changes and nothing is fixed. Otherwise every collider ends with the wanted flag and the fix count equals the issue count. In both modes the summary is logged if and only if debugging is on and some flag differed, and it reports that count and the number of objects. |
| CollisionFixing.CollisionFixer.LogSummary | Assets/Scripts/CollisionFixer.cs:65-73 | For the counts of a pass (no fixes in report-only mode, fixes equal to issues otherwise), the summary appears if and only if debugging is on and some collider differed. It reports that number and the number of objects. |
| CollisionFixing.CollisionFixer.CheckObjects | Assets/Scripts/CollisionFixer.cs:45-63 | The outer loop: after all objects, the counts are those of all colliders, and each collider's flag is as `Flag` says for a finished pass. |
| CollisionFixing.CollisionFixer.CheckObject | Assets/Scripts/CollisionFixer.cs:45-62 | One object of the outer loop: its colliders are the next stretch of the pass, and the counts and flags reach the end of that stretch. |
| CollisionFixing.CollisionFixer.CheckEach | Assets/Scripts/CollisionFixer.cs:53-62 | The inner loop over one object's colliders, the next stretch of the pass. It counts each mismatch of the original flags and sets it unless in report-only mode. |
| CollisionFixing.CollisionFixer.Start | Assets/Scripts/CollisionFixer.cs:23-30 | With `checkOnStart` one pass runs with the guarantees of `CheckColliders`, summary included; without it nothing changes and nothing is logged. |
| CollisionFixing.CollisionFixer.CheckTwice | Assets/Scripts/CollisionFixer.cs:40-74 | Outside report-only mode a second pass finds no issues and logs no summary. |

## Left out

- The `lock` in `SpatialPartitionManager` is left out: the index is modelled sequentially.
- Singleton wiring in the `Awake` methods (`Instance`, `Destroy` of duplicates) is left out: it is engine object management.
- Scene reload, quit and UI scripts are left out. These are `GameManager.RestartGame`, `GameManager.QuitGame`, GameOverUI, GameOverHandler, PlayerUI and the editor tools.
- `GrowthManager.Start` root placement and `CreateDebugText` are left out: they are float geometry and text setup. They also assign growth-rate fields that `IvyNode` does not declare. Only the clock reset is modelled (`StartClock`).
- The frame-rate computation `1 / Time.unscaledDeltaTime` is left out: the rate is a parameter of `Update`.
- Positions, directions and rotations of spawned segments are left out (quaternions, `LookRotation`).
- `Invoke` is left out: each `IvyNode` schedules its single `Grow` once at `Start`, and `Grow` is modelled as one call.
- The `PeriodicCheck` coroutine is left out: each wake-up is one more `CheckColliders` call.
- The text of `Debug.Log` messages is left out. The model keeps the condition and the numbers of the `IvyTagFixer` log line (`logged`) and of the `CollisionFixer` summary (`logged`: colliders counted and number of objects).
- The `CollisionFixer` warning for an object without colliders is left out. It is only a log line: skipping such an object with `continue` changes nothing (`ColliderlessContributesNothing`).
- The `GrowthManager` log lines on pause and resume are left out, together with the threshold and frame rate they print. The pause and resume calls themselves are modelled.
- `IvyTagFixer.Start` and `FixTagsNow` are left out: each is `FixIvyTags` (with a constant log line in `Start`). `CollisionFixer.CheckAllColliders` is left out: it is `CheckColliders`.
- Which objects `FindObjectsOfType` and `FindGameObjectsWithTag` find is left out: their results are the sequence parameters.
- Context scripts with no modelled logic are left out: PlayerMovement, PlayerStats, GrowthController, IvyCutterCollision, CutterItem, GameInitializer, IvySway, CameraShake, CameraFollow and CenterAreaProtection.
- Float arithmetic is left out. Experience and positions are unbounded integers, and health, frame rates and times are reals, so rounding and overflow are not modelled.
- CollisionFixing.CollisionFixer.CheckColliders: requires the target objects' colliders to be pairwise distinct. That holds in the engine because a component belongs to one object and the tag search returns each object once.
- Progression.XPManager.AddXP: requires every cost of the curve from the current level on to be positive. That is enough for the loop to end, but stronger than the source needs. The source loop also ends when some costs are zero or negative, since each pass moves to the next level's cost. For example, a cost of 0 at level 1 with 100 elsewhere and 50 experience ends at level 2 with 50 experience. The source loops forever only if the costs from some level on never exceed the experience left. The same requirement is on `CheckLevelUp`, `Settle` and its lemmas.
- Engine.Instantiate: copies only the active flag and tag, not the copy's components.
- IvySegments.IvySegment.TakeDamage: the experience manager is a non-null parameter. The missing-`XPManager.Instance` case is left out. In the source that null dereference throws before `Destroy`, so the segment stays alive with health at most 0, and every later hit throws again.
- IvyNodes.IvyNode.SpawnSegment: the spawned copy always has its segment. The case where `GetComponent<IvySegment>()` returns null is left out; in the source, `InitHealth` then throws.
