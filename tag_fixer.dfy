/**
 * IvyTagFixer: a pass that gives every ivy object the ivy tag. The objects
 * are the game objects of all `IvySegment` components, then those of all
 * `IvyNode` components (the two `FindObjectsOfType` results, passed in as
 * sequences). An object with both components, or met twice, is retagged and
 * counted at most once, because the second visit already sees the new tag.
 */
module TagFixing {
  import opened Engine

  /** The objects whose tag was not `tag`, among `objs`, as `old(...)` would see them. */
  ghost function Mistagged(objs: set<GameObject>, tag: string): (r: set<GameObject>)
    reads objs
    ensures r <= objs
  {
    set o | o in objs && o.tag != tag
  }

  /** The objects of `s`, as a set. */
  ghost function Elements(s: seq<GameObject>): set<GameObject> {
    if s == [] then {} else Elements(s[..|s| - 1]) + {s[|s| - 1]}
  }

  /** An object is in the set of a list exactly when it is in the list. */
  lemma {:induction false} ElementsHas(s: seq<GameObject>)
    ensures forall o :: o in Elements(s) <==> o in s
  {
    if s != [] {
      ElementsHas(s[..|s| - 1]);
      assert s == s[..|s| - 1] + [s[|s| - 1]];
    }
  }

  /** One more element of a list adds that object to its set. */
  lemma ElementsStep(s: seq<GameObject>, i: nat)
    requires i < |s|
    ensures Elements(s[..i + 1]) == Elements(s[..i]) + {s[i]}
  {
    assert s[..i + 1][..i] == s[..i];
  }

  /** The objects of `segments` and of `nodes`, as a set. */
  ghost function Objects(segments: seq<GameObject>, nodes: seq<GameObject>): set<GameObject> {
    Elements(segments) + Elements(nodes)
  }

  /**
   * The end of the count: once both lists have been visited, every mistagged
   * object has been seen, so the count of the seen mistagged ones is the
   * count of all of them.
   */
  lemma AllCounted(segments: seq<GameObject>, nodes: seq<GameObject>, before: set<GameObject>,
                   seen: set<GameObject>, count: nat)
    requires before <= Objects(segments, nodes)
    requires seen == {} + Elements(segments) + Elements(nodes)
    requires count == |before * seen|
    ensures count == |before|
  {
    assert before * seen == before;
  }

  class IvyTagFixer {
    var ivyTag: string
    var runEveryFrame: bool
    var debugMode: bool

    constructor (ivyTag: string, runEveryFrame: bool, debugMode: bool)
      ensures this.ivyTag == ivyTag && this.runEveryFrame == runEveryFrame && this.debugMode == debugMode
    {
      this.ivyTag := ivyTag;
      this.runEveryFrame := runEveryFrame;
      this.debugMode := debugMode;
    }

    /**
     * `FixIvyTags`: afterwards every object of either list carries `ivyTag`;
     * `fixedCount` is the number of distinct objects whose tag differed
     * beforehand (so an object already tagged is left as it was); the result
     * is logged exactly when `debugMode` is on and something was fixed.
     */
    method FixIvyTags(segments: seq<GameObject>, nodes: seq<GameObject>) returns (fixedCount: nat, logged: bool)
      modifies segments`tag, nodes`tag
      ensures forall o :: o in segments || o in nodes ==> o.tag == ivyTag
      ensures fixedCount == |old(Mistagged(Objects(segments, nodes), ivyTag))|
      ensures logged <==> debugMode && fixedCount > 0
    {
      ElementsHas(segments);
      ElementsHas(nodes);
      ghost var all := Objects(segments, nodes);
      ghost var before := Mistagged(all, ivyTag);
      ghost var seen;
      fixedCount, seen := RetagAll(segments, before, {}, 0);
      forall k | 0 <= k < |nodes| && nodes[k] !in seen
        ensures nodes[k] in before <==> nodes[k].tag != ivyTag
      {
        assert nodes[k] !in segments;
        assert nodes[k] in all;
      }
      fixedCount, seen := RetagAll(nodes, before, seen, fixedCount);
      AllCounted(segments, nodes, before, seen, fixedCount);
      logged := debugMode && fixedCount > 0;
    }

    /**
     * One `foreach` of `FixIvyTags` over `objs`, after the objects `seen` have
     * been tagged and `count` of the mistagged ones `before` counted: every
     * object of `objs` is tagged `ivyTag` and counted once if it was mistagged.
     */
    method RetagAll(objs: seq<GameObject>, ghost before: set<GameObject>, ghost seen: set<GameObject>, count: nat)
      returns (count': nat, ghost seen': set<GameObject>)
      requires count == |before * seen|
      requires forall o :: o in seen ==> o.tag == ivyTag
      requires forall k :: 0 <= k < |objs| && objs[k] !in seen ==> (objs[k] in before <==> objs[k].tag != ivyTag)
      modifies objs`tag
      ensures seen' == seen + Elements(objs)
      ensures forall o :: o in seen' ==> o.tag == ivyTag
      ensures count' == |before * seen'|
    {
      count', seen' := count, seen;
      for i := 0 to |objs|
        invariant seen' == seen + Elements(objs[..i])
        invariant forall o :: o in seen' ==> o.tag == ivyTag
        invariant forall k :: 0 <= k < |objs| && objs[k] !in seen' ==> (objs[k] in before <==> objs[k].tag != ivyTag)
        invariant count' == |before * seen'|
      {
        ElementsStep(objs, i);
        count', seen' := Retag(objs[i], before, seen', count');
      }
      assert objs[..|objs|] == objs;
    }

    /**
     * One iteration of that `foreach`: `o` ends up tagged `ivyTag`, joins the
     * seen objects, and is counted exactly when it was mistagged and unseen.
     */
    method Retag(o: GameObject, ghost before: set<GameObject>, ghost seen: set<GameObject>, count: nat)
      returns (count': nat, ghost seen': set<GameObject>)
      requires count == |before * seen|
      requires forall x :: x in seen ==> x.tag == ivyTag
      requires o !in seen ==> (o in before <==> o.tag != ivyTag)
      modifies o`tag
      ensures seen' == seen + {o}
      ensures forall x :: x in seen' ==> x.tag == ivyTag
      ensures count' == |before * seen'|
    {
      Visit(o, before, seen, count);
      count' := count;
      if o.tag != ivyTag {
        o.tag := ivyTag;
        count' := count' + 1;
      }
      seen' := seen + {o};
    }

    /**
     * `Update`: with `runEveryFrame` on, run the pass again (`ran`);
     * otherwise change nothing.
     */
    method Update(segments: seq<GameObject>, nodes: seq<GameObject>) returns (ran: bool, fixedCount: nat, logged: bool)
      modifies segments`tag, nodes`tag
      ensures ran == runEveryFrame
      ensures ran ==> forall o :: o in segments || o in nodes ==> o.tag == ivyTag
      ensures ran ==> fixedCount == |old(Mistagged(Objects(segments, nodes), ivyTag))|
      ensures ran ==> (logged <==> debugMode && fixedCount > 0)
      ensures !ran ==> fixedCount == 0 && !logged
      ensures !ran ==> forall o :: o in segments || o in nodes ==> o.tag == old(o.tag)
    {
      ran := runEveryFrame;
      fixedCount, logged := 0, false;
      if runEveryFrame {
        fixedCount, logged := FixIvyTags(segments, nodes);
      }
    }
  }

  /**
   * Running the pass twice: the second run finds nothing left to fix and
   * logs nothing.
   */
  method FixTwice(fixer: IvyTagFixer, segments: seq<GameObject>, nodes: seq<GameObject>)
    returns (first: nat, second: nat, secondLogged: bool)
    modifies segments`tag, nodes`tag
    ensures second == 0 && !secondLogged
  {
    var l;
    first, l := fixer.FixIvyTags(segments, nodes);
    second, secondLogged := fixer.FixIvyTags(segments, nodes);
    ElementsHas(segments);
    ElementsHas(nodes);
    assert Mistagged(Objects(segments, nodes), fixer.ivyTag) == {};
  }

  /**
   * The counting step: visiting `o` adds it to the seen objects, and adds one
   * to the fixed ones exactly when `o` is unseen and was mistagged, which,
   * since seen objects are tagged and unseen ones are unchanged, is exactly
   * when its current tag differs.
   */
  lemma Visit(o: GameObject, before: set<GameObject>, seen: set<GameObject>, count: nat)
    requires count == |before * seen|
    ensures |before * (seen + {o})| == if o in before && o !in seen then count + 1 else count
  {
    if o in before && o !in seen {
      assert before * (seen + {o}) == (before * seen) + {o};
    } else {
      assert before * (seen + {o}) == before * seen;
    }
  }
}
