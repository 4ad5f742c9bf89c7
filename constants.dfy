/** The playfield constants of the game. Every one of them is a whole number, so
    all positions and velocities stay integral and are modelled as `int`. */
module Constants {
  const WindowWidth: int := 800
  const WindowHeight: int := 600

  const BallRadius: int := 10
  /** The magnitude of each ball velocity component. */
  const BallSpeed: int := 8

  const PlayerWidth: int := 60
  const PlayerHeight: int := 20
  const PlayerSpeed: int := 8

  const BlockWidth: int := 60
  const BlockHeight: int := 20
  const CountBlocksX: int := 11
  const CountBlocksY: int := 4

  /** Distance of the paddle's centre above the bottom of the window at start. */
  const PlayerStartLift: int := 50

  /** Exact absolute value (the source's `abs`, with whole-number arguments). */
  function Abs(v: int): (r: int)
    ensures r >= 0 && (r == v || r == -v)
  {
    if v < 0 then -v else v
  }
}
