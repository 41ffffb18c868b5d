/**
 * IvySegment: the damageable part of an ivy piece. It keeps a maximum and a
 * current health (reals here, floats in the game); damage lowers the current
 * health and, whenever the result is at most zero, awards `xpOnDestroy` to
 * the experience manager and asks the engine to destroy the object. There is
 * no "already destroyed" flag: `Destroy` takes effect only at the end of the
 * frame, so a further hit in the same frame awards the experience again.
 */
module IvySegments {
  import opened Progression

  /** `Awake`'s fallback: a health that was never set (not positive) becomes 50. */
  function AwakeHealth(maxHealth: real): (h: real)
    ensures h > 0.0
    ensures maxHealth > 0.0 ==> h == maxHealth
  {
    if maxHealth <= 0.0 then 50.0 else maxHealth
  }

  class IvySegment {
    const xpOnDestroy: int
    var maxHealth: real
    var currentHealth: real

    /** A fresh component: the serialised reward, both healths still zero. */
    constructor (xpOnDestroy: int)
      ensures this.xpOnDestroy == xpOnDestroy && maxHealth == 0.0 && currentHealth == 0.0
    {
      this.xpOnDestroy := xpOnDestroy;
      maxHealth := 0.0;
      currentHealth := 0.0;
    }

    /** `Awake`: fall back to 50 when no health was set, then start at full health. */
    method Awake()
      modifies this`maxHealth, this`currentHealth
      ensures maxHealth == AwakeHealth(old(maxHealth)) && currentHealth == maxHealth
    {
      if maxHealth <= 0.0 {
        maxHealth := 50.0;
      }
      currentHealth := maxHealth;
    }

    /** `InitHealth(h)`: both healths become `h`, whatever `h` is. */
    method InitHealth(h: real)
      modifies this`maxHealth, this`currentHealth
      ensures maxHealth == h && currentHealth == h
    {
      maxHealth := h;
      currentHealth := h;
    }

    /**
     * `TakeDamage(amount)`: lowers the current health by exactly `amount`.
     * Exactly when the result is at most zero, `xpOnDestroy` goes to the
     * experience manager and destruction is requested (`destroyRequested`);
     * otherwise the manager is untouched.
     */
    method TakeDamage(amount: real, xpManager: XPManager) returns (destroyRequested: bool)
      requires xpManager.CanLevel()
      modifies this`currentHealth, xpManager`xp, xpManager`level, xpManager`upgradePoints
      ensures currentHealth == old(currentHealth) - amount
      ensures destroyRequested <==> currentHealth <= 0.0
      ensures destroyRequested ==>
        && (xpManager.xp, xpManager.level) == Settle(old(xpManager.xp) + xpOnDestroy, old(xpManager.level), xpManager.xpCurve)
        && xpManager.upgradePoints - old(xpManager.upgradePoints) == xpManager.level - old(xpManager.level)
      ensures !destroyRequested ==>
        xpManager.xp == old(xpManager.xp) && xpManager.level == old(xpManager.level) &&
        xpManager.upgradePoints == old(xpManager.upgradePoints)
      ensures xpManager.CanLevel()
    {
      currentHealth := currentHealth - amount;
      destroyRequested := false;
      if currentHealth <= 0.0 {
        xpManager.AddXP(xpOnDestroy);
        destroyRequested := true;
      }
    }
  }

  /**
   * Two hits in one frame, each at least the health left, award the
   * experience twice: the manager ends as if it had received
   * `2 * xpOnDestroy` at once.
   */
  method HitTwice(seg: IvySegment, xpManager: XPManager, amount: real)
    requires xpManager.CanLevel()
    requires amount >= seg.currentHealth && amount >= 0.0 && seg.xpOnDestroy >= 0
    modifies seg`currentHealth, xpManager`xp, xpManager`level, xpManager`upgradePoints
    ensures (xpManager.xp, xpManager.level) ==
      Settle(old(xpManager.xp) + 2 * seg.xpOnDestroy, old(xpManager.level), xpManager.xpCurve)
  {
    ghost var start := (xpManager.xp, xpManager.level);
    var first := seg.TakeDamage(amount, xpManager);
    assert first;
    ghost var after := (xpManager.xp, xpManager.level);
    var second := seg.TakeDamage(amount, xpManager);
    assert second;
    TwoRewards(start.0, start.1, xpManager.xpCurve, seg.xpOnDestroy, after, (xpManager.xp, xpManager.level));
  }

  /** Settling after one reward and then after another ends where settling after both at once ends. */
  lemma TwoRewards(xp: int, level: int, curve: int -> int, reward: int, after: (int, int), final: (int, int))
    requires PositiveFrom(curve, level) && reward >= 0
    requires after == Settle(xp + reward, level, curve) && PositiveFrom(curve, after.1)
    requires final == Settle(after.0 + reward, after.1, curve)
    ensures final == Settle(xp + 2 * reward, level, curve)
  {
    SettleTwice(xp + reward, level, curve, reward);
    assert xp + reward + reward == xp + 2 * reward;
  }
}
