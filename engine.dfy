/**
 * Stand-ins for the pieces of the Unity runtime that the ivy scripts touch:
 * a game object with its active flag, its tag and its 2D colliders, and the
 * two global growth calls (`IvyNode.PauseAllGrowth` / `IvyNode.ResumeAllGrowth`)
 * that the managers issue. Those two calls are not defined in the scripts
 * themselves, so the model only records that they were made.
 */
module Engine {

  /** A call to one of the global growth switches. */
  datatype GrowthCall = PauseAllGrowth | ResumeAllGrowth

  /** A 2D collider component; only its trigger flag matters here. */
  class Collider2D {
    var isTrigger: bool

    constructor (isTrigger: bool)
      ensures this.isTrigger == isTrigger
    {
      this.isTrigger := isTrigger;
    }
  }

  /**
   * A scene object. `colliders` is what `GetComponents<Collider2D>()`
   * returns for it; components are attached for the object's whole life.
   */
  class GameObject {
    var active: bool
    var tag: string
    const colliders: seq<Collider2D>

    constructor (active: bool, tag: string, colliders: seq<Collider2D>)
      ensures this.active == active && this.tag == tag && this.colliders == colliders
    {
      this.active := active;
      this.tag := tag;
      this.colliders := colliders;
    }
  }

  /**
   * `Object.Instantiate(original)`: a fresh copy carrying the original's
   * active flag and tag (the copy's components are not modelled).
   */
  method Instantiate(original: GameObject) returns (copy: GameObject)
    ensures fresh(copy)
    ensures copy.active == original.active && copy.tag == original.tag
  {
    copy := new GameObject(original.active, original.tag, []);
  }
}
