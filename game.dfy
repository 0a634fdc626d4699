/**
  The simulation's global state and the two loops of the main loop that
  change it: the space key activates every unit, and every frame each unit
  moves and then attacks, in list order (age_of_war.py:78-105).
*/
module Game {
  import opened Geometry
  import opened Settings
  import opened Bases
  import opened Units

  /**
    One frame of the update loop over units in states `ss`, all aimed at the
    base whose left edge is baseLeft and whose health is `health`: each unit's
    turn sees the health the turns before it left.
  */
  function Frame(ss: seq<UnitState>, baseLeft: int, health: int): (r: (seq<UnitState>, int))
    ensures |r.0| == |ss|
    decreases |ss|
  {
    if ss == [] then ([], health)
    else
      var (prev, h) := Frame(ss[..|ss| - 1], baseLeft, health);
      var (s, h') := UnitTick(ss[|ss| - 1], baseLeft, h);
      (prev + [s], h')
  }

  /** The unit's own new state does not depend on the health of its target. */
  lemma TickIgnoresHealth(s: UnitState, baseLeft: int, health: int)
    ensures UnitTick(s, baseLeft, health).0 == UnitTick(s, baseLeft, 0).0
  {
  }

  /** A frame over the first i + 1 units is the frame over the first i, then unit i's turn. */
  lemma FramePrefix(ss: seq<UnitState>, baseLeft: int, health: int, i: nat)
    requires i < |ss|
    ensures Frame(ss[..i + 1], baseLeft, health).1 == UnitTick(ss[i], baseLeft, Frame(ss[..i], baseLeft, health).1).1
  {
    assert ss[..i + 1][..i] == ss[..i];
  }

  /** The number of units in `ss` whose attack lands on this frame. */
  function Hits(ss: seq<UnitState>, baseLeft: int): nat
  {
    if ss == [] then 0
    else Hits(ss[..|ss| - 1], baseLeft) + (if Fires(MoveStep(ss[|ss| - 1], baseLeft)) then 1 else 0)
  }

  /** The activation loop's effect on the unit states: every unit active, nothing else changed. */
  function ActivateAll(ss: seq<UnitState>): (r: seq<UnitState>)
    ensures |r| == |ss|
    ensures forall i :: 0 <= i < |ss| ==> r[i].active && r[i].(active := ss[i].active) == ss[i]
    ensures forall i :: 0 <= i < |ss| && Wellformed(ss[i]) ==> Wellformed(r[i])
  {
    seq(|ss|, i requires 0 <= i < |ss| => ss[i].(active := true))
  }

  /**
    Each unit's state after a frame depends only on its own state before it:
    the health of the base and the other units play no part.
  */
  lemma {:induction false} FrameByUnit(ss: seq<UnitState>, baseLeft: int, health: int, i: nat)
    requires i < |ss|
    ensures Frame(ss, baseLeft, health).0[i] == MoveStep(ss[i], baseLeft).(attackTimer := Frame(ss, baseLeft, health).0[i].attackTimer)
    ensures Frame(ss, baseLeft, health).0[i] == UnitTick(ss[i], baseLeft, 0).0
  {
    var n := |ss| - 1;
    var (prev, h) := Frame(ss[..n], baseLeft, health);
    if i < n {
      FrameByUnit(ss[..n], baseLeft, health, i);
    }
  }

  /** The unit states after a frame are those of each unit's own turn. */
  lemma FrameStates(ss: seq<UnitState>, baseLeft: int, health: int, after: seq<UnitState>)
    requires |after| == |ss|
    requires forall j :: 0 <= j < |ss| ==> after[j] == UnitTick(ss[j], baseLeft, 0).0
    ensures Frame(ss, baseLeft, health).0 == after
  {
    forall j | 0 <= j < |ss|
      ensures Frame(ss, baseLeft, health).0[j] == after[j]
    {
      FrameByUnit(ss, baseLeft, health, j);
    }
  }

  /** The base's health after a frame: one DamagePerSecond hit per unit whose attack lands. */
  lemma {:induction false} FrameHealth(ss: seq<UnitState>, baseLeft: int, health: int)
    ensures Frame(ss, baseLeft, health).1 == DamagedTimes(health, Hits(ss, baseLeft))
    ensures Hits(ss, baseLeft) <= |ss|
  {
    if ss != [] {
      FrameHealth(ss[..|ss| - 1], baseLeft, health);
    }
  }

  /** Health after a frame never goes negative and never rises, and falls by at most one hit per unit. */
  lemma {:induction false} FrameHealthBounds(ss: seq<UnitState>, baseLeft: int, health: int)
    requires 0 <= health
    ensures Damaged(health, |ss| * DamagePerSecond) <= Frame(ss, baseLeft, health).1 <= health
  {
    FrameHealth(ss, baseLeft, health);
    var n := Hits(ss, baseLeft);
    DamagedTimesTotal(health, n);
    assert n * DamagePerSecond <= |ss| * DamagePerSecond;
  }

  /** A frame keeps every unit well-formed and never clears an attacking flag. */
  lemma {:induction false} FramePreserves(ss: seq<UnitState>, baseLeft: int, health: int)
    requires forall i :: 0 <= i < |ss| ==> Wellformed(ss[i])
    ensures forall i :: 0 <= i < |ss| ==> Wellformed(Frame(ss, baseLeft, health).0[i])
    ensures forall i :: 0 <= i < |ss| && ss[i].attacking ==> Frame(ss, baseLeft, health).0[i].attacking
  {
    forall i | 0 <= i < |ss|
      ensures Wellformed(Frame(ss, baseLeft, health).0[i])
      ensures ss[i].attacking ==> Frame(ss, baseLeft, health).0[i].attacking
    {
      FrameByUnit(ss, baseLeft, health, i);
    }
  }

  /** A frame in which no unit is active changes nothing. */
  lemma {:induction false} IdleFrame(ss: seq<UnitState>, baseLeft: int, health: int)
    requires forall i :: 0 <= i < |ss| ==> Wellformed(ss[i]) && !ss[i].active
    ensures Frame(ss, baseLeft, health) == (ss, health)
  {
    if ss != [] {
      IdleFrame(ss[..|ss| - 1], baseLeft, health);
      assert ss[..|ss| - 1] + [ss[|ss| - 1]] == ss;
    }
  }

  /** `m` frames of the update loop, one after another. */
  function Frames(ss: seq<UnitState>, baseLeft: int, health: int, m: nat): (seq<UnitState>, int)
  {
    if m == 0 then (ss, health)
    else
      var (ss', h') := Frames(ss, baseLeft, health, m - 1);
      Frame(ss', baseLeft, h')
  }

  /** With a single unit in the list, each frame is that unit's turn. */
  lemma {:induction false} SingleUnitFrames(s: UnitState, baseLeft: int, health: int, m: nat)
    ensures Frames([s], baseLeft, health, m) ==
            ([Ticks(s, baseLeft, health, m).0], Ticks(s, baseLeft, health, m).1)
  {
    if m > 0 {
      SingleUnitFrames(s, baseLeft, health, m - 1);
      var (s', h') := Ticks(s, baseLeft, health, m - 1);
      assert [s'][..0] == [];
      var t := UnitTick(s', baseLeft, h');
      assert Frame([s'], baseLeft, h') == ([] + [t.0], t.1);
      assert [] + [t.0] == [t.0];
    }
  }

  /** The unit the game starts with, inactive, at the left of the field (age_of_war.py:83). */
  const OpeningUnit: UnitState := UnitState(Rect(100, Height - UnitHeight - BaseHeight, UnitWidth, UnitHeight), false, false, 0)

  /** Health both bases start with (age_of_war.py:79-80). */
  const StartingHealth: int := 100

  /**
    The opening position played out: once the space key has activated the
    starting unit, it walks for 290 frames, latches on frame 291, and the
    enemy base (left edge at 700, health 100) reaches zero on frame 590 and
    not before; its health after m frames is never negative.
  */
  lemma OpeningSiege(m: nat)
    ensures 0 <= Frames(ActivateAll([OpeningUnit]), Width - 100, StartingHealth, m).1 <= StartingHealth
    ensures Frames(ActivateAll([OpeningUnit]), Width - 100, StartingHealth, m).1 == 0 <==> m >= 590
  {
    var s := OpeningUnit.(active := true);
    assert ActivateAll([OpeningUnit]) == [s];
    SingleUnitFrames(s, Width - 100, StartingHealth, m);
    Siege(s, Width - 100, StartingHealth, m);
    assert StepsToClose(Width - 100 - s.rect.Right()) == 290;
    if m > 290 {
      DestroyedAfterHits(StartingHealth, (m - 290) / Fps);
    }
  }

  /**
    The module-level objects of the game (age_of_war.py:79-83): the two bases
    and the list of units, every one aimed at the enemy base.
  */
  class World {
    const playerBase: Base
    const enemyBase: Base
    const units: seq<Unit>

    predicate Valid()
      reads this, units, enemyBase
    {
      && playerBase != enemyBase
      && enemyBase.Valid()
      && (forall i, j :: 0 <= i < j < |units| ==> units[i] != units[j])
      && (forall i :: 0 <= i < |units| ==> units[i].target == enemyBase && units[i].Valid())
    }

    /** The states of the units, in list order. */
    function States(): (r: seq<UnitState>)
      reads this, units
      ensures |r| == |units|
      ensures forall i :: 0 <= i < |units| ==> r[i] == units[i].State()
    {
      seq(|units|, i reads units requires 0 <= i < |units| => units[i].State())
    }

    constructor ()
      ensures Valid()
      ensures fresh(playerBase) && fresh(enemyBase) && |units| == 1 && fresh(units[0])
      ensures playerBase.rect == Rect(50, Height - BaseHeight, BaseWidth, BaseHeight)
      ensures playerBase.health == playerBase.maxHealth == StartingHealth
      ensures enemyBase.rect == Rect(Width - 100, Height - BaseHeight, BaseWidth, BaseHeight)
      ensures enemyBase.health == enemyBase.maxHealth == StartingHealth
      ensures States() == [OpeningUnit]
    {
      var player := new Base(50, Height - BaseHeight, StartingHealth);
      var enemy := new Base(Width - 100, Height - BaseHeight, StartingHealth);
      var first := new Unit(100, Height - UnitHeight - BaseHeight, enemy);
      playerBase := player;
      enemyBase := enemy;
      units := [first];
    }

    /** The space key: every unit in the list becomes active (age_of_war.py:99-100). */
    method ActivateUnits()
      requires Valid()
      modifies units
      ensures Valid()
      ensures States() == ActivateAll(old(States()))
    {
      ghost var ss := States();
      for i := 0 to |units|
        invariant forall j :: 0 <= j < i ==> units[j].State() == ss[j].(active := true)
        invariant forall j :: i <= j < |units| ==> units[j].State() == ss[j]
      {
        units[i].active := true;
      }
    }

    /** Unit i's turn within a frame: move(), then attack() (age_of_war.py:104-105). */
    method TakeTurn(i: nat)
      requires Valid() && i < |units|
      modifies units[i], enemyBase`health
      ensures Valid()
      ensures (units[i].State(), enemyBase.health) ==
              UnitTick(old(units[i].State()), enemyBase.rect.Left(), old(enemyBase.health))
    {
      var unit := units[i];
      unit.Move();
      unit.Attack();
    }

    /** One frame of the update loop: each unit takes its turn, in list order (age_of_war.py:103-105). */
    method Update()
      requires Valid()
      modifies units, enemyBase`health
      ensures Valid()
      ensures (States(), enemyBase.health) == Frame(old(States()), enemyBase.rect.Left(), old(enemyBase.health))
    {
      ghost var ss := States();
      ghost var health := enemyBase.health;
      ghost var baseLeft := enemyBase.rect.Left();
      for i := 0 to |units|
        invariant Valid()
        invariant forall j :: 0 <= j < i ==> units[j].State() == UnitTick(ss[j], baseLeft, 0).0
        invariant forall j :: i <= j < |units| ==> units[j].State() == ss[j]
        invariant enemyBase.health == Frame(ss[..i], baseLeft, health).1
      {
        ghost var before := enemyBase.health;
        TakeTurn(i);
        TickIgnoresHealth(ss[i], baseLeft, before);
        FramePrefix(ss, baseLeft, health, i);
      }
      assert ss[..|units|] == ss;
      FrameStates(ss, baseLeft, health, States());
    }
  }
}
