# Age of War (simplified): a verified model of the simulation core

This project models the simulation of `age_of_war.py`, a one-file toy real-time
strategy game. Two bases stand at either end of a field. One unit starts
inactive at the left. Pressing the space key activates every unit. Each frame,
every unit moves and then attacks, in list order. An active unit walks right
by `UnitSpeed` pixels per frame. When its right edge reaches the enemy base's
left edge, it latches into attacking. From then on it counts frames and hits
the base for `DamagePerSecond` each time the count reaches `Fps`. A base's
health is floored at zero.

Modules, one per part of the program:

- `Settings` (settings.dfy): the constants of lines 7 and 19-23.
- `Geometry` (geometry.dfy): `Rect`, the integer fields of the graphics
  library's rectangle that the game reads: `x`, `y`, `w`, `h`, with
  `Left() = x` and `Right() = x + w`.
- `Bases` (bases.dfy): class `Base` and the clamped-damage function `Damaged`.
- `Units` (units.dfy): class `Unit`, whose `Move` and `Attack` are proved
  against the value-level functions `MoveStep` and `AttackStep` over
  `UnitState` (the unit's mutable fields as one value), plus lemmas about
  repeated moves, repeated attacks and whole unit lifetimes.
- `Game` (game.dfy): class `World`, which holds the module-level objects
  (lines 79-83). Its `ActivateUnits` and `Update` are the two loops of the
  main loop (lines 99-100 and 103-105). `Update` is proved against `Frame`,
  one frame over the list of unit states, and the lemmas about `Frame` give
  the per-frame and whole-game properties.

`health` and `attack_timer` are Python integers, which are unbounded, so
`int` models them exactly. The unit's `x` is stored in the graphics library's
rectangle, whose fields are fixed-width machine integers. No overflow can
happen there: a unit that starts short of the base, as the starting unit
does, stops walking once its right edge reaches the base's left edge, so its
`x` stays below the base's left edge (`Units.Arrival`).

The code floors health at zero (lines 44-46) and never caps it at
`max_health`. The model proves the upper bound only for non-negative damage,
which is the only damage the game deals.

## Model

| member | source | states |
|---|---|---|
| `Geometry.Rect.MovedBy` | age_of_war.py:63 | shifting the rectangle moves both its left and right edges by the shift and keeps `y`, width and height |
| `Bases.Base.constructor` | age_of_war.py:27-30 | a new base has the fixed base size at the given position and starts at full health (`health == maxHealth`) |
| `Bases.Damaged` | age_of_war.py:43-46 | health after damage is never negative, is zero exactly when the damage reaches the old health, and otherwise equals old health minus damage; from non-negative health, non-negative damage never raises it |
| `Bases.Base.TakeDamage` | age_of_war.py:43-49 | health becomes `Damaged(old health, amount)`; afterwards `IsDestroyed()` holds exactly when health is 0, and exactly when the damage reached the old health; a health within `[0, maxHealth]` stays within it under non-negative damage |
| `Bases.DamagedTimesTotal` | age_of_war.py:43-46 | from non-negative health, n hits of `DamagePerSecond` in a row leave what one hit of n times that damage would |
| `Bases.DestroyedAfterHits` | age_of_war.py:43-49 | after n hits, health is within `[0, old health]` and is 0 exactly when `n * DamagePerSecond` reaches the starting health |
| `Bases.ZeroStaysZero` | age_of_war.py:44-46 | a base at zero health stays at zero whatever further hits land |
| `Units.Unit.constructor` | age_of_war.py:53-58 | a new unit has the fixed unit size at the given position, is inactive, not attacking, with counter 0 and the given target, and satisfies the unit invariant |
| `Units.MoveStep` | age_of_war.py:60-65 | an inactive or attacking unit is unchanged; an active walking unit short of the base's left edge advances `UnitSpeed` and keeps walking; one at or past the edge latches `attacking` without moving; `attacking` never resets; the unit invariant is kept |
| `Units.Unit.Move` | age_of_war.py:60-65 | the unit's new state is `MoveStep` of its old state and its target's left edge; nothing else changes |
| `Units.AttackStep` | age_of_war.py:67-73 | only the counter changes; a non-attacking unit changes neither its counter nor the health; an attacking unit whose counter reaches `Fps` resets it to 0 and hits the base once (clamped); otherwise the counter goes up by one and health is untouched; a counter within `[0, Fps)` stays within it |
| `Units.Unit.Attack` | age_of_war.py:67-73 | the unit's state and its target base's health become `AttackStep` of the old ones |
| `Units.StepsToClose` | age_of_war.py:62-63 | the number of `UnitSpeed` steps that closes a positive gap without overshooting by a full step |
| `Units.Approach` | age_of_war.py:62-63 | an active walking unit that stays short of the base moves exactly `k * UnitSpeed` pixels in k frames |
| `Units.AttackingStays` | age_of_war.py:61 | once attacking, any number of moves changes nothing |
| `Units.Arrival` | age_of_war.py:60-65 | an active walking unit moves for exactly `StepsToClose(gap)` frames, latches into attacking on the next one and stays put from then on; if it started at or short of the base's left edge, it comes to rest with its right edge at or past that edge by less than `UnitSpeed` |
| `Units.AttackSchedule` | age_of_war.py:67-73 | an attacking unit whose counter starts at t in `[0, Fps)` has, after k frames, counter `(t + k) % Fps`, and the base has taken `(t + k) / Fps` hits |
| `Units.OneHitPerSecond` | age_of_war.py:70-73 | from a reset counter, `Fps` attack frames hit the base exactly once and bring the counter back to 0; fewer frames leave the health untouched |
| `Units.TicksWalking` | age_of_war.py:60-68 | while a unit walks, its per-frame turns (move, then attack) only move it and leave the base's health untouched |
| `Units.TicksAtBase` | age_of_war.py:60-73 | a unit that has just reached the base latches on its first turn, and its turns from then on are attacks alone |
| `Units.Siege` | age_of_war.py:60-73 | an activated unit's whole life: it walks for `StepsToClose(gap)` frames, then after m frames in all it is latched at its arrival position with counter `(m - n) % Fps`, and the base has taken `(m - n) / Fps` hits |
| `Game.ActivateAll` | age_of_war.py:99-100 | every unit becomes active, and no other field of any unit changes; the unit invariant is kept |
| `Game.Frame` | age_of_war.py:103-105 | one frame over the unit list yields one new state per unit |
| `Game.FrameByUnit` | age_of_war.py:103-105 | a unit's state after a frame is its own turn's result; it does not depend on the base's health or on the other units |
| `Game.FrameStates` | age_of_war.py:103-105 | the list of unit states after a frame is exactly the list of each unit's own turn result |
| `Game.FrameHealth` | age_of_war.py:103-105 | the base's health after a frame is the old health after one hit per unit whose attack lands this frame, and at most one unit per list entry lands a hit |
| `Game.FrameHealthBounds` | age_of_war.py:103-105 | a frame never raises a non-negative health, never makes it negative, and takes off at most one hit per unit |
| `Game.FramePreserves` | age_of_war.py:103-105 | a frame keeps every unit's invariant and never clears an `attacking` flag |
| `Game.IdleFrame` | age_of_war.py:103-105 | a frame in which no unit is active changes neither the units nor the base |
| `Game.SingleUnitFrames` | age_of_war.py:83-105 | with the one-unit list, each frame is that unit's turn |
| `Game.OpeningSiege` | age_of_war.py:79-105 | from the opening position with the unit activated, the enemy base's health stays within `[0, 100]` and reaches 0 exactly from frame 590 on |
| `Game.World.constructor` | age_of_war.py:79-83 | the two bases at their fixed positions with health 100, and a one-unit list holding the inactive starting unit aimed at the enemy base; the world invariant holds |
| `Game.World.ActivateUnits` | age_of_war.py:99-100 | the unit states become `ActivateAll` of the old ones; the world invariant is kept |
| `Game.World.TakeTurn` | age_of_war.py:104-105 | unit i's state and the enemy base's health become the result of that unit's turn (move, then attack) |
| `Game.World.Update` | age_of_war.py:103-105 | the unit states and the enemy base's health become `Frame` of the old ones, in list order; the world invariant (health in `[0, 100]`, every unit well-formed and aimed at the enemy base) is kept |

## Left out

- Window and library setup and teardown (lines 4, 8-9, 117): input and output through an external library.
- All drawing (lines 33-41, 75-76, 107-115), including the floating-point health ratio of line 39.
- The frame clock (line 91) and event polling (lines 93-97): wall-clock timing and input. The quit event ends the loop. The space key is modelled as a call to `World.ActivateUnits`, and one pass of the loop as a call to `World.Update`.
- Colours (lines 11-16 and the `color` field): they only affect drawing.
- The graphics library's rectangle: only the four integer fields and the two edges the game reads are modelled.
- `Game.World.Valid`: requires the units in the list to be distinct objects, all aimed at the enemy base. The starting one-unit list at line 83 meets this. A Python list holding the same unit twice would move that unit twice per frame, and this model does not cover that case.
