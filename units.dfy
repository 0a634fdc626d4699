/**
  A unit: a small rectangle that, once activated, walks right toward its
  target base, latches into attacking when its right edge reaches the base's
  left edge, and from then on hits the base once every Fps frames
  (age_of_war.py:52-73).
*/
module Units {
  import opened Geometry
  import opened Settings
  import opened Bases

  /** The fields of a unit that its methods change, as one value. */
  datatype UnitState = UnitState(rect: Rect, active: bool, attacking: bool, attackTimer: int)

  /**
    What a unit keeps true from its creation on: the fixed unit size, a frame
    counter below Fps that only runs while attacking, and no attacking before
    activation.
  */
  predicate Wellformed(s: UnitState)
  {
    && s.rect.w == UnitWidth && s.rect.h == UnitHeight
    && 0 <= s.attackTimer < Fps
    && (!s.attacking ==> s.attackTimer == 0)
    && (s.attacking ==> s.active)
  }

  /** One call of move() on a unit whose target base's left edge is at baseLeft. */
  function MoveStep(s: UnitState, baseLeft: int): (r: UnitState)
    // an inactive or already attacking unit does not move
    ensures !s.active || s.attacking ==> r == s
    // a walking unit short of the base advances by UnitSpeed and keeps walking
    ensures s.active && !s.attacking && s.rect.Right() < baseLeft ==>
              r == s.(rect := s.rect.MovedBy(UnitSpeed)) && !r.attacking
    // a walking unit at or past the base's edge stops and starts attacking
    ensures s.active && !s.attacking && s.rect.Right() >= baseLeft ==>
              r == s.(attacking := true)
    // attacking is a latch
    ensures s.attacking ==> r.attacking
    ensures Wellformed(s) ==> Wellformed(r)
  {
    if s.active && !s.attacking then
      if s.rect.Right() < baseLeft then s.(rect := s.rect.MovedBy(UnitSpeed))
      else s.(attacking := true)
    else s
  }

  /** Whether attack() on s lands a hit: the counter reaches Fps on this frame. */
  predicate Fires(s: UnitState)
  {
    s.attacking && s.attackTimer + 1 >= Fps
  }

  /**
    One call of attack() on a unit in state s whose target base has the given
    health: the unit's new state and the base's new health.
  */
  function AttackStep(s: UnitState, health: int): (r: (UnitState, int))
    // only the counter of the unit changes
    ensures r.0 == s.(attackTimer := r.0.attackTimer)
    // a unit that is not attacking does nothing
    ensures !s.attacking ==> r == (s, health)
    // the base is hit exactly on the frame the counter reaches Fps, which resets it
    ensures Fires(s) ==> r == (s.(attackTimer := 0), Damaged(health, DamagePerSecond))
    ensures s.attacking && !Fires(s) ==> r == (s.(attackTimer := s.attackTimer + 1), health)
    ensures Wellformed(s) ==> Wellformed(r.0)
  {
    if s.attacking then
      var timer := s.attackTimer + 1;
      if timer >= Fps then (s.(attackTimer := 0), Damaged(health, DamagePerSecond))
      else (s.(attackTimer := timer), health)
    else (s, health)
  }

  /** `k` frames of move() alone. */
  function Moves(s: UnitState, baseLeft: int, k: nat): UnitState
  {
    if k == 0 then s else MoveStep(Moves(s, baseLeft, k - 1), baseLeft)
  }

  /** `k` frames of attack() alone, against a base that starts at the given health. */
  function Attacks(s: UnitState, health: int, k: nat): (UnitState, int)
  {
    if k == 0 then (s, health)
    else
      var (s', h') := Attacks(s, health, k - 1);
      AttackStep(s', h')
  }

  /** The number of UnitSpeed steps it takes to close a gap of `gap` pixels. */
  function StepsToClose(gap: int): (n: nat)
    ensures gap <= n * UnitSpeed < gap + UnitSpeed || (gap <= 0 && n == 0)
  {
    if gap <= 0 then 0 else (gap + UnitSpeed - 1) / UnitSpeed
  }

  /** A walking unit that stays short of the base moves UnitSpeed pixels each frame. */
  lemma {:induction false} Approach(s: UnitState, baseLeft: int, k: nat)
    requires s.active && !s.attacking
    requires k == 0 || s.rect.Right() + (k - 1) * UnitSpeed < baseLeft
    ensures Moves(s, baseLeft, k) == s.(rect := s.rect.MovedBy(k * UnitSpeed))
  {
    if k > 0 {
      Approach(s, baseLeft, k - 1);
    }
  }

  /** Once attacking, further moves change nothing. */
  lemma {:induction false} AttackingStays(s: UnitState, baseLeft: int, k: nat)
    requires s.attacking
    ensures Moves(s, baseLeft, k) == s
  {
    if k > 0 {
      AttackingStays(s, baseLeft, k - 1);
    }
  }

  /**
    An active, walking unit needs n = StepsToClose(gap) moves to bring its
    right edge to the base's left edge; it latches into attacking on move
    n + 1 and stays there, with its right edge less than UnitSpeed past the edge.
  */
  lemma {:induction false} Arrival(s: UnitState, baseLeft: int, k: nat)
    requires s.active && !s.attacking
    ensures var n := StepsToClose(baseLeft - s.rect.Right());
            && (k <= n ==> Moves(s, baseLeft, k) == s.(rect := s.rect.MovedBy(k * UnitSpeed)))
            && (k > n ==> Moves(s, baseLeft, k) == s.(rect := s.rect.MovedBy(n * UnitSpeed), attacking := true))
            && (s.rect.Right() <= baseLeft ==> baseLeft <= s.rect.Right() + n * UnitSpeed < baseLeft + UnitSpeed)
  {
    var n := StepsToClose(baseLeft - s.rect.Right());
    if k <= n {
      Approach(s, baseLeft, k);
    } else {
      Approach(s, baseLeft, n);
      var arrived := s.(rect := s.rect.MovedBy(n * UnitSpeed));
      assert Moves(s, baseLeft, n + 1) == arrived.(attacking := true);
      var latched := arrived.(attacking := true);
      AttackingStays(latched, baseLeft, k - n - 1);
      MovesSplit(s, baseLeft, n + 1, k - n - 1);
    }
  }

  /** Moving k then j frames is moving k + j frames. */
  lemma {:induction false} MovesSplit(s: UnitState, baseLeft: int, k: nat, j: nat)
    ensures Moves(Moves(s, baseLeft, k), baseLeft, j) == Moves(s, baseLeft, k + j)
  {
    if j > 0 {
      MovesSplit(s, baseLeft, k, j - 1);
    }
  }

  /**
    An attacking unit whose counter starts at t (0 <= t < Fps) lands a hit
    on the frames where the counter reaches Fps: after k frames its counter
    is (t + k) % Fps and the base has taken (t + k) / Fps hits.
  */
  lemma {:induction false} AttackSchedule(s: UnitState, health: int, k: nat)
    requires s.attacking && 0 <= s.attackTimer < Fps
    ensures Attacks(s, health, k) ==
              (s.(attackTimer := (s.attackTimer + k) % Fps),
               DamagedTimes(health, (s.attackTimer + k) / Fps))
  {
    if k > 0 {
      AttackSchedule(s, health, k - 1);
      var t := s.attackTimer + k - 1;
      if t % Fps + 1 >= Fps {
        assert (t + 1) % Fps == 0 && (t + 1) / Fps == t / Fps + 1;
      } else {
        assert (t + 1) % Fps == t % Fps + 1 && (t + 1) / Fps == t / Fps;
      }
    }
  }

  /** From a reset counter, Fps frames of attack() hit the base exactly once. */
  lemma OneHitPerSecond(s: UnitState, health: int)
    requires s.attacking && s.attackTimer == 0
    ensures Attacks(s, health, Fps) == (s, Damaged(health, DamagePerSecond))
    ensures forall k: nat :: k < Fps ==> Attacks(s, health, k).1 == health
  {
    AttackSchedule(s, health, Fps);
    forall k: nat | k < Fps
      ensures Attacks(s, health, k).1 == health
    {
      AttackSchedule(s, health, k);
    }
  }

  /** One frame's turn of a unit: move(), then attack(). */
  function UnitTick(s: UnitState, baseLeft: int, health: int): (UnitState, int)
  {
    AttackStep(MoveStep(s, baseLeft), health)
  }

  /** `k` consecutive turns of one unit against a base that starts at the given health. */
  function Ticks(s: UnitState, baseLeft: int, health: int, k: nat): (UnitState, int)
  {
    if k == 0 then (s, health)
    else
      var (s', h') := Ticks(s, baseLeft, health, k - 1);
      UnitTick(s', baseLeft, h')
  }

  /** Turns of a unit that has just reached the base: it latches on the first and then only attacks. */
  lemma {:induction false} TicksAtBase(s: UnitState, baseLeft: int, health: int, k: nat)
    requires s.active && !s.attacking && s.attackTimer == 0 && s.rect.Right() >= baseLeft
    ensures Ticks(s, baseLeft, health, k) == Attacks(s.(attacking := k > 0), health, k)
  {
    if k > 1 {
      TicksAtBase(s, baseLeft, health, k - 1);
      AttackSchedule(s.(attacking := true), health, k - 1);
    }
  }

  /** Turns of a unit still walking are moves alone. */
  lemma {:induction false} TicksWalking(s: UnitState, baseLeft: int, health: int, k: nat)
    requires s.active && !s.attacking
    requires k == 0 || s.rect.Right() + (k - 1) * UnitSpeed < baseLeft
    ensures Ticks(s, baseLeft, health, k) == (s.(rect := s.rect.MovedBy(k * UnitSpeed)), health)
  {
    if k > 0 {
      TicksWalking(s, baseLeft, health, k - 1);
    }
  }

  /** k then j turns are k + j turns. */
  lemma {:induction false} TicksSplit(s: UnitState, baseLeft: int, health: int, k: nat, j: nat)
    ensures var (s', h') := Ticks(s, baseLeft, health, k);
            Ticks(s', baseLeft, h', j) == Ticks(s, baseLeft, health, k + j)
  {
    if j > 0 {
      TicksSplit(s, baseLeft, health, k, j - 1);
    }
  }

  /**
    The whole life of an activated unit: it walks for n = StepsToClose(gap)
    frames, latches into attacking on frame n + 1, and from there its counter
    and the hits it lands run as if it had started attacking with a reset
    counter n frames in: after m > n frames the base has taken (m - n) / Fps hits.
  */
  lemma {:induction false} Siege(s: UnitState, baseLeft: int, health: int, m: nat)
    requires s.active && !s.attacking && s.attackTimer == 0
    ensures var n := StepsToClose(baseLeft - s.rect.Right());
            && (m <= n ==> Ticks(s, baseLeft, health, m) == (s.(rect := s.rect.MovedBy(m * UnitSpeed)), health))
            && (m > n ==>
                  Ticks(s, baseLeft, health, m) ==
                  (s.(rect := s.rect.MovedBy(n * UnitSpeed), attacking := true, attackTimer := (m - n) % Fps),
                   DamagedTimes(health, (m - n) / Fps)))
  {
    var n := StepsToClose(baseLeft - s.rect.Right());
    if m <= n {
      TicksWalking(s, baseLeft, health, m);
    } else {
      TicksWalking(s, baseLeft, health, n);
      var arrived := s.(rect := s.rect.MovedBy(n * UnitSpeed));
      TicksSplit(s, baseLeft, health, n, m - n);
      TicksAtBase(arrived, baseLeft, health, m - n);
      AttackSchedule(arrived.(attacking := true), health, m - n);
    }
  }

  class Unit {
    var rect: Rect
    const target: Base
    var active: bool
    var attacking: bool
    var attackTimer: int

    function State(): UnitState
      reads this
    {
      UnitState(rect, active, attacking, attackTimer)
    }

    predicate Valid()
      reads this
    {
      Wellformed(State())
    }

    /** An inactive unit at (x, y) of the fixed unit size, aimed at `target`. */
    constructor (x: int, y: int, target: Base)
      ensures State() == UnitState(Rect(x, y, UnitWidth, UnitHeight), false, false, 0)
      ensures this.target == target
      ensures Valid()
    {
      rect := Rect(x, y, UnitWidth, UnitHeight);
      this.target := target;
      active := false;
      attacking := false;
      attackTimer := 0;
    }

    method Move()
      modifies this`rect, this`attacking
      ensures State() == MoveStep(old(State()), target.rect.Left())
    {
      if active && !attacking {
        if rect.Right() < target.rect.Left() {
          rect := rect.MovedBy(UnitSpeed);
        } else {
          attacking := true;
        }
      }
    }

    method Attack()
      modifies this`attackTimer, target`health
      ensures (State(), target.health) == AttackStep(old(State()), old(target.health))
    {
      if attacking {
        attackTimer := attackTimer + 1;
        if attackTimer >= Fps {
          target.TakeDamage(DamagePerSecond);
          attackTimer := 0;
        }
      }
    }
  }
}
