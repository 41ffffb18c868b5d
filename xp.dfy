/**
 * XPManager: experience points, the current level and unspent upgrade points.
 * Adding experience runs the level-up loop, which keeps paying the cost of
 * the current level (read from the experience curve) while it can. Experience
 * is an integer here (the game uses floats) and the curve is any function
 * from levels to costs.
 */
module Progression {

  /** The curve asks a positive cost at `level` and at every later level. */
  ghost predicate PositiveFrom(curve: int -> int, level: int) {
    forall l :: l >= level ==> curve(l) > 0
  }

  /** Total cost of the levels `from .. to - 1`. */
  function Cost(curve: int -> int, from: int, to: int): int
    decreases to - from
  {
    if to <= from then 0 else curve(from) + Cost(curve, from + 1, to)
  }

  /** Where the level-up loop ends, from experience `xp` at `level`: the final experience and level. */
  function Settle(xp: int, level: int, curve: int -> int): (int, int)
    requires PositiveFrom(curve, level)
    decreases xp
  {
    if xp < curve(level) then (xp, level)
    else Settle(xp - curve(level), level + 1, curve)
  }

  /**
   * The loop never loses a level; the experience spent is the cost of the
   * levels passed and the next level is not affordable. Experience is never
   * negative once a level was paid for, and when the first level is not
   * affordable nothing changes.
   */
  lemma {:induction false} SettleEnds(xp: int, level: int, curve: int -> int)
    requires PositiveFrom(curve, level)
    ensures var r := Settle(xp, level, curve);
      && r.1 >= level
      && xp == r.0 + Cost(curve, level, r.1)
      && r.0 < curve(r.1)
      && (r.1 > level ==> r.0 >= 0)
      && (xp < curve(level) ==> r == (xp, level))
    decreases xp
  {
    if xp >= curve(level) {
      SettleEnds(xp - curve(level), level + 1, curve);
    }
  }

  /** Every level passed was affordable with the experience left when it was reached. */
  lemma {:induction false} SettleLevelsAffordable(xp: int, level: int, curve: int -> int, l: int)
    requires PositiveFrom(curve, level)
    requires level <= l < Settle(xp, level, curve).1
    ensures xp - Cost(curve, level, l) >= curve(l)
    decreases xp
  {
    if l > level {
      SettleLevelsAffordable(xp - curve(level), level + 1, curve, l);
    }
  }

  /**
   * Settling, then adding `more` and settling again, ends where adding `more`
   * first ends: two `AddXP` calls act as one with the sum of the amounts.
   */
  lemma {:induction false} SettleTwice(xp: int, level: int, curve: int -> int, more: int)
    requires PositiveFrom(curve, level)
    requires more >= 0
    ensures var r := Settle(xp, level, curve);
      PositiveFrom(curve, r.1) && Settle(r.0 + more, r.1, curve) == Settle(xp + more, level, curve)
    decreases xp
  {
    if xp >= curve(level) {
      SettleTwice(xp - curve(level), level + 1, curve, more);
    }
  }

  class XPManager {
    var xp: int
    var level: int
    var upgradePoints: int
    const xpCurve: int -> int

    constructor (xpCurve: int -> int)
      ensures xp == 0 && level == 1 && upgradePoints == 0 && this.xpCurve == xpCurve
    {
      xp := 0;
      level := 1;
      upgradePoints := 0;
      this.xpCurve := xpCurve;
    }

    /** The loop can terminate: every cost from the current level on is positive. */
    ghost predicate CanLevel()
      reads this
    {
      PositiveFrom(xpCurve, level)
    }

    /** `AddXP(amount)`: add the experience, then level up as far as it pays. */
    method AddXP(amount: int)
      requires CanLevel()
      modifies this`xp, this`level, this`upgradePoints
      ensures (xp, level) == Settle(old(xp) + amount, old(level), xpCurve)
      ensures upgradePoints - old(upgradePoints) == level - old(level)
      ensures CanLevel()
    {
      xp := xp + amount;
      CheckLevelUp();
    }

    /**
     * `CheckLevelUp`: while the experience covers the current level's cost,
     * pay it and gain one level and one upgrade point.
     */
    method CheckLevelUp()
      requires CanLevel()
      modifies this`xp, this`level, this`upgradePoints
      ensures (xp, level) == Settle(old(xp), old(level), xpCurve)
      ensures upgradePoints - old(upgradePoints) == level - old(level)
      ensures CanLevel()
    {
      ghost var curve, goal := xpCurve, Settle(xp, level, xpCurve);
      var needed := xpCurve(level);
      while xp >= needed
        invariant xpCurve == curve && needed == curve(level)
        invariant PositiveFrom(curve, level)
        invariant Settle(xp, level, curve) == goal
        invariant upgradePoints - old(upgradePoints) == level - old(level)
        decreases xp
      {
        assert Settle(xp, level, curve) == Settle(xp - needed, level + 1, curve);
        xp := xp - needed;
        level := level + 1;
        upgradePoints := upgradePoints + 1;
        needed := xpCurve(level);
      }
    }
  }
}
