/**
 * CollisionFixer: a pass over the objects carrying the target tag (the
 * `FindGameObjectsWithTag` result, passed in as a sequence) that counts the
 * 2D colliders whose trigger flag differs from the wanted one and, unless in
 * report-only mode, sets them to it. The colliders of a game object are its
 * `colliders` sequence.
 */
module CollisionFixing {
  import opened Engine

  datatype Option<T> = None | Some(value: T)

  /** All colliders of `objs`, object by object, in order. */
  function Flatten(objs: seq<GameObject>): seq<Collider2D> {
    if objs == [] then [] else Flatten(objs[..|objs| - 1]) + objs[|objs| - 1].colliders
  }

  /** The trigger flags of `cs`, in order. */
  function Triggers(cs: seq<Collider2D>): (r: seq<bool>)
    reads cs
    ensures |r| == |cs|
    ensures forall k :: 0 <= k < |cs| ==> r[k] == cs[k].isTrigger
  {
    if cs == [] then [] else Triggers(cs[..|cs| - 1]) + [cs[|cs| - 1].isTrigger]
  }

  /** How many of the flags `bs` differ from `make`. */
  function Mismatches(bs: seq<bool>, make: bool): nat {
    if bs == [] then 0 else Mismatches(bs[..|bs| - 1], make) + (if bs[|bs| - 1] != make then 1 else 0)
  }

  /**
   * The flag the collider at `k` of a pass has once the first `pos`
   * colliders are done, from the flags `was` before the pass: as it was in
   * report-only mode or `make` otherwise; after `pos`, still as before.
   */
  function Flag(was: seq<bool>, k: int, pos: int, reportOnly: bool, make: bool): bool
    requires 0 <= k < |was|
  {
    if k < pos && !reportOnly then make else was[k]
  }

  /** No collider occurs twice. */
  ghost predicate Distinct(cs: seq<Collider2D>) {
    forall i, j :: 0 <= i < j < |cs| ==> cs[i] != cs[j]
  }

  /** Flattening distributes over concatenation. */
  lemma {:induction false} FlattenAppend(a: seq<GameObject>, b: seq<GameObject>)
    ensures Flatten(a + b) == Flatten(a) + Flatten(b)
    decreases |b|
  {
    if b == [] {
      assert a + b == a;
    } else {
      var n := |b| - 1;
      assert (a + b)[..|a + b| - 1] == a + b[..n];
      FlattenAppend(a, b[..n]);
    }
  }

  /** An object without colliders adds nothing to the pass: removing it leaves the same colliders. */
  lemma ColliderlessContributesNothing(a: seq<GameObject>, o: GameObject, b: seq<GameObject>)
    requires o.colliders == []
    ensures Flatten(a + [o] + b) == Flatten(a + b)
  {
    FlattenAppend(a + [o], b);
    FlattenAppend(a, [o]);
    FlattenAppend(a, b);
    assert Flatten([o]) == Flatten([]) + o.colliders;
  }

  /** Counting one more flag adds one exactly when it differs. */
  lemma MismatchesStep(bs: seq<bool>, n: int, make: bool)
    requires 0 <= n < |bs|
    ensures Mismatches(bs[..n + 1], make) == Mismatches(bs[..n], make) + if bs[n] != make then 1 else 0
  {
    assert bs[..n + 1][..n] == bs[..n];
  }

  /** Nothing is counted exactly when every flag already is `make`; the count never exceeds the number of flags. */
  lemma {:induction false} MismatchesZero(bs: seq<bool>, make: bool)
    ensures Mismatches(bs, make) <= |bs|
    ensures Mismatches(bs, make) == 0 <==> forall k :: 0 <= k < |bs| ==> bs[k] == make
  {
    if bs != [] {
      var init := bs[..|bs| - 1];
      MismatchesZero(init, make);
      assert forall k :: 0 <= k < |init| ==> init[k] == bs[k];
    }
  }

  /**
   * Where object `i`'s colliders sit among all colliders: right after those
   * of the objects before it.
   */
  lemma FlattenAt(objs: seq<GameObject>, i: int, all: seq<Collider2D>, pos: int, colliders: seq<Collider2D>)
    requires 0 <= i < |objs| && all == Flatten(objs) && pos == |Flatten(objs[..i])| && colliders == objs[i].colliders
    ensures |Flatten(objs[..i + 1])| == pos + |colliders| <= |all|
    ensures forall m :: 0 <= m < |colliders| ==> all[pos + m] == colliders[m]
  {
    assert objs[..i + 1][..i] == objs[..i];
    FlattenPrefix(objs, i + 1);
  }

  /** The colliders of the first `i` objects come first among all colliders. */
  lemma FlattenPrefix(objs: seq<GameObject>, i: int)
    requires 0 <= i <= |objs|
    ensures Flatten(objs[..i]) <= Flatten(objs)
  {
    assert objs == objs[..i] + objs[i..];
    FlattenAppend(objs[..i], objs[i..]);
  }

  /**
   * At the end of the pass: in report-only mode every collider still has its
   * old setting, otherwise every collider has the target setting.
   */
  lemma Finish(all: seq<Collider2D>, was: seq<bool>, reportOnly: bool, make: bool)
    requires |was| == |all|
    requires forall k :: 0 <= k < |all| ==> all[k].isTrigger == Flag(was, k, |all|, reportOnly, make)
    ensures reportOnly ==> forall k :: 0 <= k < |all| ==> all[k].isTrigger == was[k]
    ensures !reportOnly ==> forall c :: c in all ==> c.isTrigger == make
  {
    if reportOnly {
      forall k | 0 <= k < |all|
        ensures all[k].isTrigger == was[k]
      {
        assert Flag(was, k, |all|, reportOnly, make) == was[k];
      }
    } else {
      forall c | c in all
        ensures c.isTrigger == make
      {
        var k :| 0 <= k < |all| && all[k] == c;
        assert Flag(was, k, |all|, reportOnly, make) == make;
      }
    }
  }

  class CollisionFixer {
    const checkOnStart: bool
    const targetTag: string
    const makeCollidersTriggers: bool
    const reportOnlyMode: bool
    const debugMode: bool
    const checkInterval: real

    constructor (checkOnStart: bool, targetTag: string, makeCollidersTriggers: bool, reportOnlyMode: bool,
                 debugMode: bool, checkInterval: real)
      ensures this.checkOnStart == checkOnStart && this.targetTag == targetTag
      ensures this.makeCollidersTriggers == makeCollidersTriggers && this.reportOnlyMode == reportOnlyMode
      ensures this.debugMode == debugMode && this.checkInterval == checkInterval
    {
      this.checkOnStart := checkOnStart;
      this.targetTag := targetTag;
      this.makeCollidersTriggers := makeCollidersTriggers;
      this.reportOnlyMode := reportOnlyMode;
      this.debugMode := debugMode;
      this.checkInterval := checkInterval;
    }

    /**
     * `CheckColliders` on the tagged objects `targetObjects`: `issueCount` is
     * the number of their colliders whose trigger flag differed from
     * `makeCollidersTriggers`. In report-only mode nothing changes and
     * `fixedCount` is 0; otherwise every collider ends with the wanted flag
     * and each one counted was fixed. In either mode the debug summary
     * (`logged`, the numbers it reports) appears exactly when debugging is on
     * and some collider differed, and it reports that number of colliders
     * and the number of objects. Colliders appear once each, as in the
     * engine, where a component belongs to one object and the search returns
     * each object once.
     */
    method CheckColliders(targetObjects: seq<GameObject>) returns (issueCount: nat, fixedCount: nat, logged: Option<(nat, nat)>)
      requires Distinct(Flatten(targetObjects))
      modifies Flatten(targetObjects)`isTrigger
      ensures issueCount == Mismatches(old(Triggers(Flatten(targetObjects))), makeCollidersTriggers)
      ensures fixedCount == if reportOnlyMode then 0 else issueCount
      ensures reportOnlyMode ==> unchanged(Flatten(targetObjects))
      ensures !reportOnlyMode ==> forall c :: c in Flatten(targetObjects) ==> c.isTrigger == makeCollidersTriggers
      ensures logged.Some? <==> debugMode && issueCount > 0
      ensures logged.Some? ==> logged.value == (issueCount, |targetObjects|)
    {
      ghost var all := Flatten(targetObjects);
      issueCount, fixedCount := CheckObjects(targetObjects, all, Triggers(all));
      Finish(all, old(Triggers(all)), reportOnlyMode, makeCollidersTriggers);
      logged := LogSummary(issueCount, fixedCount, |targetObjects|);
    }

    /**
     * The debug summary at the end of `CheckColliders`: issues are reported
     * in report-only mode and fixes otherwise, so for the counts of a pass
     * the line appears exactly when debugging is on and some collider
     * differed, and it reports that number and the number of objects.
     */
    method LogSummary(issueCount: nat, fixedCount: nat, objectCount: nat) returns (logged: Option<(nat, nat)>)
      requires fixedCount == if reportOnlyMode then 0 else issueCount
      ensures logged.Some? <==> debugMode && issueCount > 0
      ensures logged.Some? ==> logged.value == (issueCount, objectCount)
    {
      logged := None;
      if debugMode {
        if reportOnlyMode {
          if issueCount > 0 {
            logged := Some((issueCount, objectCount));
          }
        } else if fixedCount > 0 {
          logged := Some((fixedCount, objectCount));
        }
      }
    }

    /**
     * The outer `foreach` of `CheckColliders`: the objects are visited in
     * order, and the colliders of the `i`-th object are the next stretch of
     * `all` (its flattened colliders) after those of the objects before it.
     */
    method CheckObjects(targetObjects: seq<GameObject>, ghost all: seq<Collider2D>, ghost was: seq<bool>)
      returns (issueCount: nat, fixedCount: nat)
      requires all == Flatten(targetObjects) && Distinct(all) && was == Triggers(all)
      modifies all`isTrigger
      ensures issueCount == Mismatches(was, makeCollidersTriggers)
      ensures fixedCount == if reportOnlyMode then 0 else issueCount
      ensures forall k :: 0 <= k < |all| ==> all[k].isTrigger == Flag(was, k, |all|, reportOnlyMode, makeCollidersTriggers)
    {
      issueCount, fixedCount := 0, 0;
      ghost var pos := 0;
      for i := 0 to |targetObjects|
        invariant pos == |Flatten(targetObjects[..i])| <= |all|
        invariant issueCount == Mismatches(was[..pos], makeCollidersTriggers)
        invariant fixedCount == if reportOnlyMode then 0 else issueCount
        invariant forall k :: 0 <= k < |all| ==> all[k].isTrigger == Flag(was, k, pos, reportOnlyMode, makeCollidersTriggers)
      {
        issueCount, fixedCount, pos := CheckObject(targetObjects, i, all, was, pos, issueCount, fixedCount);
      }
      assert targetObjects[..|targetObjects|] == targetObjects;
      assert was[..pos] == was;
    }

    /**
     * One iteration of the outer `foreach`: the colliders of object `i` are
     * the stretch of `all` starting at `pos`, and checking them brings the
     * counts and the flags up to the end of that stretch.
     */
    method CheckObject(targetObjects: seq<GameObject>, i: nat, ghost all: seq<Collider2D>, ghost was: seq<bool>,
                       ghost pos: nat, issueCount: nat, fixedCount: nat)
      returns (issueCount': nat, fixedCount': nat, ghost pos': nat)
      requires i < |targetObjects| && all == Flatten(targetObjects) && Distinct(all) && |was| == |all|
      requires pos == |Flatten(targetObjects[..i])| <= |all|
      requires issueCount == Mismatches(was[..pos], makeCollidersTriggers)
      requires fixedCount == if reportOnlyMode then 0 else issueCount
      requires forall k :: 0 <= k < |all| ==> all[k].isTrigger == Flag(was, k, pos, reportOnlyMode, makeCollidersTriggers)
      modifies all`isTrigger
      ensures pos' == |Flatten(targetObjects[..i + 1])| <= |all|
      ensures issueCount' == Mismatches(was[..pos'], makeCollidersTriggers)
      ensures fixedCount' == if reportOnlyMode then 0 else issueCount'
      ensures forall k :: 0 <= k < |all| ==> all[k].isTrigger == Flag(was, k, pos', reportOnlyMode, makeCollidersTriggers)
    {
      var colliders := targetObjects[i].colliders;
      FlattenAt(targetObjects, i, all, pos, colliders);
      issueCount', fixedCount' := CheckEach(colliders, all, was, pos, issueCount, fixedCount);
      pos' := pos + |colliders|;
    }

    /**
     * The inner `foreach` of `CheckColliders`, over the colliders of one
     * object, which sit at `pos ..` of all colliders `all` of the pass: the
     * counts reach those of the first `pos + |colliders|` original flags
     * `was`, and so do the flags themselves.
     */
    method CheckEach(colliders: seq<Collider2D>, ghost all: seq<Collider2D>, ghost was: seq<bool>, ghost pos: nat,
                     issueCount: nat, fixedCount: nat) returns (issueCount': nat, fixedCount': nat)
      requires Distinct(all) && |was| == |all| && pos + |colliders| <= |all|
      requires forall m :: 0 <= m < |colliders| ==> all[pos + m] == colliders[m]
      requires issueCount == Mismatches(was[..pos], makeCollidersTriggers)
      requires fixedCount == if reportOnlyMode then 0 else issueCount
      requires forall k :: 0 <= k < |all| ==> all[k].isTrigger == Flag(was, k, pos, reportOnlyMode, makeCollidersTriggers)
      modifies colliders`isTrigger
      ensures issueCount' == Mismatches(was[..pos + |colliders|], makeCollidersTriggers)
      ensures fixedCount' == if reportOnlyMode then 0 else issueCount'
      ensures forall k :: 0 <= k < |all| ==> all[k].isTrigger == Flag(was, k, pos + |colliders|, reportOnlyMode, makeCollidersTriggers)
    {
      issueCount', fixedCount' := issueCount, fixedCount;
      for j := 0 to |colliders|
        invariant issueCount' == Mismatches(was[..pos + j], makeCollidersTriggers)
        invariant fixedCount' == if reportOnlyMode then 0 else issueCount'
        invariant forall k :: 0 <= k < |all| ==> all[k].isTrigger == Flag(was, k, pos + j, reportOnlyMode, makeCollidersTriggers)
      {
        var collider := colliders[j];
        assert collider == all[pos + j];
        MismatchesStep(was, pos + j, makeCollidersTriggers);
        if collider.isTrigger != makeCollidersTriggers {
          issueCount' := issueCount' + 1;
          if !reportOnlyMode {
            collider.isTrigger := makeCollidersTriggers;
            fixedCount' := fixedCount' + 1;
          }
        }
      }
    }

    /**
     * The first pass of `Start`: with `checkOnStart` on, one `CheckColliders`
     * (`ran`); otherwise nothing changes. The periodic passes that follow are
     * further `CheckColliders` calls.
     */
    method Start(targetObjects: seq<GameObject>) returns (ran: bool, issueCount: nat, fixedCount: nat, logged: Option<(nat, nat)>)
      requires Distinct(Flatten(targetObjects))
      modifies Flatten(targetObjects)`isTrigger
      ensures ran == checkOnStart
      ensures ran ==> issueCount == Mismatches(old(Triggers(Flatten(targetObjects))), makeCollidersTriggers)
      ensures ran ==> fixedCount == if reportOnlyMode then 0 else issueCount
      ensures !ran || reportOnlyMode ==> unchanged(Flatten(targetObjects))
      ensures ran && !reportOnlyMode ==> forall c :: c in Flatten(targetObjects) ==> c.isTrigger == makeCollidersTriggers
      ensures ran ==> (logged.Some? <==> debugMode && issueCount > 0)
      ensures ran && logged.Some? ==> logged.value == (issueCount, |targetObjects|)
      ensures !ran ==> issueCount == 0 && fixedCount == 0 && logged == None
    {
      ran, issueCount, fixedCount, logged := checkOnStart, 0, 0, None;
      if checkOnStart {
        issueCount, fixedCount, logged := CheckColliders(targetObjects);
      }
    }

    /** Outside report-only mode a second pass finds nothing left to fix and logs nothing. */
    method CheckTwice(targetObjects: seq<GameObject>) returns (secondIssues: nat, secondLogged: Option<(nat, nat)>)
      requires !reportOnlyMode
      requires Distinct(Flatten(targetObjects))
      modifies Flatten(targetObjects)`isTrigger
      ensures secondIssues == 0 && secondLogged == None
    {
      var issues, fixes, logged := CheckColliders(targetObjects);
      ghost var now := Triggers(Flatten(targetObjects));
      MismatchesZero(now, makeCollidersTriggers);
      assert Mismatches(now, makeCollidersTriggers) == 0;
      var fixes2;
      secondIssues, fixes2, secondLogged := CheckColliders(targetObjects);
    }
  }
}
