/** The game's tuning constants, in pixels and frames (age_of_war.py:7, 19-23). */
module Settings {
  const Width: int := 800
  const Height: int := 400

  const BaseWidth: int := 50
  const BaseHeight: int := 100
  const UnitWidth: int := 20
  const UnitHeight: int := 20

  /** Pixels a walking unit advances per frame. */
  const UnitSpeed: int := 2
  /** Health a base loses per hit; a hit lands once every Fps frames. */
  const DamagePerSecond: int := 10
  /** Frames per second: also the number of frames between two hits of an attacking unit. */
  const Fps: int := 30
}
