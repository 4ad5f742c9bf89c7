/** The three entities of the game as values, and the rules that move them and
    resolve their collisions. The classes in module Breakout are proved to follow
    these rules. */
module Entities {
  import opened Constants
  import opened Geometry

  /** The ball: centre and velocity. */
  datatype BallState = BallState(x: int, y: int, vx: int, vy: int) {
    /** The ball's bounding square, centred on the ball, with side twice the radius. */
    function Bounds(): (b: Box)
      ensures b.Left() + b.Right() == 2 * x && b.Top() + b.Bottom() == 2 * y
      ensures b.Right() - b.Left() == 2 * BallRadius && b.Bottom() - b.Top() == 2 * BallRadius
    {
      Box(x, y, BallRadius, BallRadius)
    }
  }

  /** The paddle: centre and velocity. */
  datatype PaddleState = PaddleState(x: int, y: int, vx: int, vy: int) {
    /** The paddle's rectangle, centred on the paddle, of the paddle's size. */
    function Bounds(): (b: Box)
      ensures b.Left() + b.Right() == 2 * x && b.Top() + b.Bottom() == 2 * y
      ensures b.Right() - b.Left() == PlayerWidth && b.Bottom() - b.Top() == PlayerHeight
    {
      Box(x, y, PlayerWidth / 2, PlayerHeight / 2)
    }
  }

  /** A brick: centre (fixed at creation) and whether it has been hit. */
  datatype Brick = Brick(x: int, y: int, destroyed: bool) {
    /** The brick's rectangle, centred on the brick, of the block size. */
    function Bounds(): (b: Box)
      ensures b.Left() + b.Right() == 2 * x && b.Top() + b.Bottom() == 2 * y
      ensures b.Right() - b.Left() == BlockWidth && b.Bottom() - b.Top() == BlockHeight
    {
      Box(x, y, BlockWidth / 2, BlockHeight / 2)
    }
  }

  /** Each velocity component of the ball has magnitude BallSpeed. */
  predicate UnitSpeed(b: BallState) {
    Abs(b.vx) == BallSpeed && Abs(b.vy) == BallSpeed
  }

  /** One ball update: move by the velocity, then bounce off the walls. A wall
      that the ball has crossed sets the matching component to point back inside;
      on each axis the low wall is checked first. */
  function BallUpdate(b: BallState): (r: BallState)
    ensures r.x == b.x + b.vx && r.y == b.y + b.vy
    ensures r.Bounds().Left() < 0 ==> r.vx == BallSpeed
    ensures r.Bounds().Left() >= 0 && r.Bounds().Right() > WindowWidth ==> r.vx == -BallSpeed
    ensures 0 <= r.Bounds().Left() && r.Bounds().Right() <= WindowWidth ==> r.vx == b.vx
    ensures r.Bounds().Top() < 0 ==> r.vy == BallSpeed
    ensures r.Bounds().Top() >= 0 && r.Bounds().Bottom() > WindowHeight ==> r.vy == -BallSpeed
    ensures 0 <= r.Bounds().Top() && r.Bounds().Bottom() <= WindowHeight ==> r.vy == b.vy
    ensures UnitSpeed(b) ==> UnitSpeed(r)
  {
    var moved := b.(x := b.x + b.vx, y := b.y + b.vy);
    var box := moved.Bounds();
    var vx := if box.Left() < 0 then BallSpeed
              else if box.Right() > WindowWidth then -BallSpeed
              else b.vx;
    var vy := if box.Top() < 0 then BallSpeed
              else if box.Bottom() > WindowHeight then -BallSpeed
              else b.vy;
    moved.(vx := vx, vy := vy)
  }

  /** One paddle update: move by the velocity, then derive the horizontal velocity
      from the two arrow keys and the window edges. Left wins over right; the edge
      is checked on the position just reached, before the next move. */
  function PlayerUpdate(p: PaddleState, leftPressed: bool, rightPressed: bool): (r: PaddleState)
    ensures r.x == p.x + p.vx && r.y == p.y + p.vy && r.vy == p.vy
    ensures r.vx == -PlayerSpeed || r.vx == 0 || r.vx == PlayerSpeed
    ensures r.vx == -PlayerSpeed <==> leftPressed && r.Bounds().Left() > 0
    ensures r.vx == PlayerSpeed <==>
              !(leftPressed && r.Bounds().Left() > 0) && rightPressed && r.Bounds().Right() < WindowWidth
  {
    var moved := p.(x := p.x + p.vx, y := p.y + p.vy);
    var box := moved.Bounds();
    var vx := if leftPressed && box.Left() > 0 then -PlayerSpeed
              else if rightPressed && box.Right() < WindowWidth then PlayerSpeed
              else 0;
    moved.(vx := vx)
  }

  /** The paddle's invariant from the start of the game on: it sits on its row, does
      not move vertically, moves towards an edge only while inside that edge, and is
      never more than one step outside the window. */
  predicate PaddleInvariant(p: PaddleState) {
    p.y == WindowHeight - PlayerStartLift && p.vy == 0 &&
    (p.vx == -PlayerSpeed || p.vx == 0 || p.vx == PlayerSpeed) &&
    (p.vx == -PlayerSpeed ==> p.Bounds().Left() > 0) &&
    (p.vx == PlayerSpeed ==> p.Bounds().Right() < WindowWidth) &&
    p.Bounds().Left() > -PlayerSpeed && p.Bounds().Right() < WindowWidth + PlayerSpeed
  }

  lemma PlayerUpdateKeepsInvariant(p: PaddleState, leftPressed: bool, rightPressed: bool)
    requires PaddleInvariant(p)
    ensures PaddleInvariant(PlayerUpdate(p, leftPressed, rightPressed))
  {
  }

  /** The paddle is not kept inside the window: holding left from a left edge two
      pixels inside the window carries it six pixels past the wall. */
  lemma PaddleCanLeaveWindow()
    ensures var p := PaddleState(40, WindowHeight - PlayerStartLift, -PlayerSpeed, 0);
            var p1 := PlayerUpdate(p, true, false);
            var p2 := PlayerUpdate(p1, true, false);
            PaddleInvariant(p) && p1.Bounds().Left() == 2 && p2.Bounds().Left() == -6
  {
  }

  /** Paddle/ball response: on contact the ball is sent upwards and steered to the
      side of the paddle's centre on which the ball's centre lies; otherwise nothing
      changes. The ball is never moved. */
  function PaddleCollision(p: PaddleState, b: BallState): (r: BallState)
    ensures !Intersects(p.Bounds(), b.Bounds()) ==> r == b
    ensures r.x == b.x && r.y == b.y
    ensures Intersects(p.Bounds(), b.Bounds()) ==>
              r.vy == -BallSpeed && Abs(r.vx) == BallSpeed && (r.vx < 0 <==> b.x < p.x)
    ensures UnitSpeed(b) ==> UnitSpeed(r)
  {
    if Intersects(p.Bounds(), b.Bounds()) then
      b.(vy := -BallSpeed, vx := if b.x < p.x then -BallSpeed else BallSpeed)
    else
      b
  }

  /** Resolving the same contact twice gives the same ball as resolving it once. */
  lemma PaddleCollisionIdempotent(p: PaddleState, b: BallState)
    ensures PaddleCollision(p, PaddleCollision(p, b)) == PaddleCollision(p, b)
  {
  }

  /** The penetration analysis of a brick/ball contact: the four overlaps, the side
      chosen on each axis and the overlap kept for each axis. */
  datatype Penetration = Penetration(
    left: int, right: int, top: int, bottom: int,
    fromLeft: bool, fromTop: bool,
    minX: int, minY: int)

  /** The analysis as the game computes it. The top/bottom side test compares the
      top overlap with itself, so it never holds and the bottom overlap is always
      the one kept for the vertical axis. */
  function Penetrate(brick: Brick, ball: BallState): (pen: Penetration)
    ensures pen.left + pen.right == BlockWidth + 2 * BallRadius
    ensures pen.top + pen.bottom == BlockHeight + 2 * BallRadius
    ensures Intersects(brick.Bounds(), ball.Bounds()) <==>
              pen.left >= 0 && pen.right >= 0 && pen.top >= 0 && pen.bottom >= 0
    ensures pen.fromLeft <==> Abs(pen.left) < Abs(pen.right)
    ensures pen.minX == (if pen.fromLeft then pen.left else pen.right)
    ensures Abs(pen.minX) <= Abs(pen.left) && Abs(pen.minX) <= Abs(pen.right)
    ensures !pen.fromTop && pen.minY == pen.bottom
  {
    var overlapLeft := ball.Bounds().Right() - brick.Bounds().Left();
    var overlapRight := brick.Bounds().Right() - ball.Bounds().Left();
    var overlapTop := ball.Bounds().Bottom() - brick.Bounds().Top();
    var overlapBottom := brick.Bounds().Bottom() - ball.Bounds().Top();
    var fromLeft := Abs(overlapLeft) < Abs(overlapRight);
    var fromTop := Abs(overlapTop) < Abs(overlapTop);
    Penetration(overlapLeft, overlapRight, overlapTop, overlapBottom,
                fromLeft, fromTop,
                if fromLeft then overlapLeft else overlapRight,
                if fromTop then overlapTop else overlapBottom)
  }

  /** The outcome of one brick/ball test. */
  datatype Hit = Hit(brick: Brick, ball: BallState)

  /** Brick/ball response: on contact the brick is destroyed and exactly one
      velocity component of the ball is reassigned, chosen by the axis of smaller
      penetration; otherwise nothing changes. The ball is never moved. */
  function BrickCollision(brick: Brick, ball: BallState): (h: Hit)
    ensures !Intersects(brick.Bounds(), ball.Bounds()) ==> h == Hit(brick, ball)
    ensures h.ball.x == ball.x && h.ball.y == ball.y
    ensures h.brick.x == brick.x && h.brick.y == brick.y
    ensures h.brick.destroyed <==> brick.destroyed || Intersects(brick.Bounds(), ball.Bounds())
    ensures Intersects(brick.Bounds(), ball.Bounds()) ==>
              var pen := Penetrate(brick, ball);
              if Abs(pen.minX) < Abs(pen.minY) then
                h.ball.vy == ball.vy && Abs(h.ball.vx) == BallSpeed &&
                (h.ball.vx < 0 <==> Abs(pen.left) < Abs(pen.right))
              else
                h.ball.vx == ball.vx && h.ball.vy == BallSpeed
    ensures UnitSpeed(ball) ==> UnitSpeed(h.ball)
  {
    if Intersects(brick.Bounds(), ball.Bounds()) then
      var pen := Penetrate(brick, ball);
      var ball' :=
        if Abs(pen.minX) < Abs(pen.minY) then
          ball.(vx := if pen.fromLeft then -BallSpeed else BallSpeed)
        else
          ball.(vy := if pen.fromTop then -BallSpeed else BallSpeed);
      Hit(brick.(destroyed := true), ball')
    else
      Hit(brick, ball)
  }

  /** A ball falling onto the top face of the first brick of the grid, with far less
      penetration from the top than from the bottom, is not bounced back up: its
      vertical velocity stays downward because the top side is never selected. */
  lemma TopApproachKeepsFalling()
    ensures var brick := Brick(85, 46, false);
            var ball := BallState(85, 28, BallSpeed, BallSpeed);
            var pen := Penetrate(brick, ball);
            var h := BrickCollision(brick, ball);
            Intersects(brick.Bounds(), ball.Bounds()) &&
            pen.top == 2 && pen.bottom == 38 &&
            h.brick.destroyed && h.ball.vy == BallSpeed
  {
  }
}
