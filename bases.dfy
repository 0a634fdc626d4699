/**
  A base: a fixed rectangle with a health counter that damage lowers and
  that never drops below zero (age_of_war.py:26-49).
*/
module Bases {
  import opened Geometry
  import opened Settings

  /** The health left after `amount` damage: the difference, floored at zero. */
  function Damaged(health: int, amount: int): (r: int)
    ensures 0 <= r
    ensures r == 0 <==> health <= amount
    ensures r > 0 ==> r == health - amount
    ensures 0 <= health && 0 <= amount ==> r <= health
  {
    var left := health - amount;
    if left < 0 then 0 else left
  }

  /** The health left after `hits` hits of DamagePerSecond each, one after another. */
  function DamagedTimes(health: int, hits: nat): int
  {
    if hits == 0 then health else Damaged(DamagedTimes(health, hits - 1), DamagePerSecond)
  }

  /** Two clamped hits in a row take off what one hit of their sum would. */
  lemma DamageAdds(health: int, a: int, b: int)
    requires 0 <= health && 0 <= a && 0 <= b
    ensures Damaged(Damaged(health, a), b) == Damaged(health, a + b)
  {
  }

  /** `hits` hits in a row cost hits * DamagePerSecond health, floored at zero. */
  lemma {:induction false} DamagedTimesTotal(health: int, hits: nat)
    requires 0 <= health
    ensures DamagedTimes(health, hits) == Damaged(health, hits * DamagePerSecond)
  {
    if hits > 0 {
      DamagedTimesTotal(health, hits - 1);
      DamageAdds(health, (hits - 1) * DamagePerSecond, DamagePerSecond);
    }
  }

  /** A base is reduced to zero exactly when the hits add up to its health or more. */
  lemma DestroyedAfterHits(health: int, hits: nat)
    requires 0 <= health
    ensures 0 <= DamagedTimes(health, hits) <= health
    ensures DamagedTimes(health, hits) == 0 <==> hits * DamagePerSecond >= health
  {
    DamagedTimesTotal(health, hits);
  }

  /** A base at zero stays at zero whatever further hits land. */
  lemma {:induction false} ZeroStaysZero(hits: nat)
    ensures DamagedTimes(0, hits) == 0
  {
    DestroyedAfterHits(0, hits);
  }

  class Base {
    const rect: Rect
    const maxHealth: int
    var health: int

    /** A base at (x, y) of the fixed base size, starting at full health. */
    constructor (x: int, y: int, health: int)
      ensures rect == Rect(x, y, BaseWidth, BaseHeight)
      ensures this.health == health && maxHealth == health
    {
      rect := Rect(x, y, BaseWidth, BaseHeight);
      this.health := health;
      maxHealth := health;
    }

    predicate IsDestroyed()
      reads this
    {
      health <= 0
    }

    /** Health within [0, maxHealth]: what every damaged base satisfies. */
    predicate Valid()
      reads this
    {
      0 <= health <= maxHealth
    }

    method TakeDamage(amount: int)
      modifies this`health
      ensures health == Damaged(old(health), amount)
      ensures IsDestroyed() <==> health == 0
      ensures IsDestroyed() <==> old(health) <= amount
      ensures old(Valid()) && 0 <= amount ==> Valid()
    {
      health := health - amount;
      if health < 0 {
        health := 0;
      }
    }
  }
}
