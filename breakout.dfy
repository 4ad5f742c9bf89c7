/** The game's objects as they are updated in place: the ball and the paddle are
    objects whose fields change, the bricks live by value in a vector (an array and
    a size). Every method is proved to follow the rules of modules Entities and
    World. */
module Breakout {
  import opened Constants
  import opened Geometry
  import opened Entities
  import opened World

  class Ball {
    var x: int
    var y: int
    var vx: int
    var vy: int

    function State(): BallState
      reads this
    {
      BallState(x, y, vx, vy)
    }

    /** The ball's bounding square (its left/right/top/bottom edges). */
    function Bounds(): Box
      reads this
    {
      State().Bounds()
    }

    /** A ball centred at (x0, y0), moving up and to the left. */
    constructor (x0: int, y0: int)
      ensures State() == BallState(x0, y0, -BallSpeed, -BallSpeed)
      ensures UnitSpeed(State())
    {
      x, y := x0, y0;
      vx, vy := -BallSpeed, -BallSpeed;
    }

    method Update()
      modifies this
      ensures State() == BallUpdate(old(State()))
    {
      x, y := x + vx, y + vy;
      if Bounds().Left() < 0 {
        vx := BallSpeed;
      } else if Bounds().Right() > WindowWidth {
        vx := -BallSpeed;
      }
      if Bounds().Top() < 0 {
        vy := BallSpeed;
      } else if Bounds().Bottom() > WindowHeight {
        vy := -BallSpeed;
      }
    }
  }

  class Player {
    var x: int
    var y: int
    var vx: int
    var vy: int

    function State(): PaddleState
      reads this
    {
      PaddleState(x, y, vx, vy)
    }

    /** The paddle's rectangle (its left/right/top/bottom edges). */
    function Bounds(): Box
      reads this
    {
      State().Bounds()
    }

    /** A paddle centred at (x0, y0), at rest. */
    constructor (x0: int, y0: int)
      ensures State() == PaddleState(x0, y0, 0, 0)
    {
      x, y := x0, y0;
      vx, vy := 0, 0;
    }

    /** The keyboard is read by the caller and passed in as the two flags. */
    method Update(leftPressed: bool, rightPressed: bool)
      modifies this
      ensures State() == PlayerUpdate(old(State()), leftPressed, rightPressed)
    {
      x, y := x + vx, y + vy;
      if leftPressed && Bounds().Left() > 0 {
        vx := -PlayerSpeed;
      } else if rightPressed && Bounds().Right() < WindowWidth {
        vx := PlayerSpeed;
      } else {
        vx := 0;
      }
    }
  }

  /** The paddle/ball test: changes the ball's velocity only. */
  method TestPaddleCollision(player: Player, ball: Ball)
    modifies ball
    ensures ball.State() == PaddleCollision(player.State(), old(ball.State()))
  {
    if Intersects(player.Bounds(), ball.Bounds()) {
      ball.vy := -BallSpeed;
      if ball.x < player.x {
        ball.vx := -BallSpeed;
      } else {
        ball.vx := BallSpeed;
      }
    }
  }

  /** The brick/ball test on the brick in slot i of the vector: changes that slot and
      the ball's velocity only. */
  method TestBrickCollision(bricks: array<Brick>, i: nat, ball: Ball)
    requires i < bricks.Length
    modifies bricks, ball
    ensures var h := BrickCollision(old(bricks[i]), old(ball.State()));
            bricks[..] == old(bricks[..])[i := h.brick] && ball.State() == h.ball
  {
    var brick := bricks[i];
    if Intersects(brick.Bounds(), ball.Bounds()) {
      bricks[i] := brick.(destroyed := true);

      var overlapLeft := ball.Bounds().Right() - brick.Bounds().Left();
      var overlapRight := brick.Bounds().Right() - ball.Bounds().Left();
      var overlapTop := ball.Bounds().Bottom() - brick.Bounds().Top();
      var overlapBottom := brick.Bounds().Bottom() - ball.Bounds().Top();

      var ballFromLeft := Abs(overlapLeft) < Abs(overlapRight);
      var ballFromTop := Abs(overlapTop) < Abs(overlapTop);

      var minOverlapX := if ballFromLeft then overlapLeft else overlapRight;
      var minOverlapY := if ballFromTop then overlapTop else overlapBottom;

      if Abs(minOverlapX) < Abs(minOverlapY) {
        ball.vx := if ballFromLeft then -BallSpeed else BallSpeed;
      } else {
        ball.vy := if ballFromTop then -BallSpeed else BallSpeed;
      }
    }
  }

  /** The brick/ball test on each of the first n bricks in turn. */
  method TestEveryBrick(bricks: array<Brick>, n: nat, ball: Ball)
    requires n <= bricks.Length
    modifies bricks, ball
    ensures Sweep(bricks[..n], ball.State()) == CollideAll(old(bricks[..n]), old(ball.State()))
  {
    ghost var before := bricks[..n];
    ghost var start := ball.State();
    var i := 0;
    while i < n
      invariant i <= n
      invariant forall k :: i <= k < n ==> bricks[k] == before[k]
      invariant Sweep(bricks[..i], ball.State()) == CollideAll(before[..i], start)
    {
      ghost var prefix := bricks[..i];
      CollideAllSnoc(before[..i], before[i], start);
      assert before[..i + 1] == before[..i] + [before[i]];
      TestBrickCollision(bricks, i, ball);
      assert bricks[..i + 1] == prefix + [bricks[i]];
      i := i + 1;
    }
    assert before[..n] == before;
  }

  /** Erase-remove of the destroyed bricks among the first n slots: the survivors are
      moved to the front in their order and the new size is returned. */
  method EraseDestroyed(a: array<Brick>, n: nat) returns (m: nat)
    requires n <= a.Length
    modifies a
    ensures m <= n
    ensures a[..m] == Survivors(old(a[..n]))
  {
    ghost var orig := a[..n];
    m := 0;
    var i := 0;
    while i < n
      invariant m <= i <= n
      invariant a[..m] == Survivors(orig[..i])
      invariant forall k :: i <= k < n ==> a[k] == orig[k]
    {
      SurvivorsSnoc(orig[..i], orig[i]);
      assert orig[..i + 1] == orig[..i] + [orig[i]];
      if !a[i].destroyed {
        ghost var kept := a[..m];
        a[m] := a[i];
        assert a[..m + 1] == kept + [orig[i]];
        m := m + 1;
      }
      i := i + 1;
    }
    assert orig[..n] == orig;
  }

  /** Fills a new brick vector column by column, each column top row first. */
  method BuildGrid() returns (a: array<Brick>, n: nat)
    ensures fresh(a) && n == a.Length && a[..] == Grid()
  {
    a := new Brick[CountBlocksX * CountBlocksY];
    n := 0;
    for ix := 0 to CountBlocksX
      invariant n == ix * CountBlocksY
      invariant a[..n] == Columns(ix)
    {
      for iy := 0 to CountBlocksY
        invariant n == ix * CountBlocksY + iy
        invariant a[..n] == Columns(ix) + Column(ix)[..iy]
      {
        ghost var built := a[..n];
        a[n] := Brick((ix + 1) * (BlockWidth + 3) + 22, (iy + 2) * (BlockHeight + 3), false);
        assert a[n] == GridBrick(ix, iy) == Column(ix)[iy];
        assert a[..n + 1] == built + [Column(ix)[iy]];
        assert Column(ix)[..iy + 1] == Column(ix)[..iy] + [Column(ix)[iy]];
        n := n + 1;
      }
      assert Column(ix)[..CountBlocksY] == Column(ix);
    }
    assert a[..] == a[..n];
  }

  /** The state kept by the game loop: the ball, the paddle and the brick vector
      (its storage and its size). */
  class Game {
    const ball: Ball
    const player: Player
    const bricks: array<Brick>
    var count: nat

    ghost predicate Valid()
      reads this
    {
      count <= bricks.Length
    }

    ghost function State(): World
      reads this, ball, player, bricks
      requires Valid()
    {
      World(ball.State(), player.State(), bricks[..count])
    }

    /** Ball at the centre of the window, paddle near the bottom, and the grid. */
    constructor ()
      ensures Valid() && State() == InitialWorld()
      ensures fresh(ball) && fresh(player) && fresh(bricks)
    {
      ball := new Ball(WindowWidth / 2, WindowHeight / 2);
      player := new Player(WindowWidth / 2, WindowHeight - PlayerStartLift);
      var a, n := BuildGrid();
      bricks, count := a, n;
    }

    /** One frame of the game loop with the given keys pressed. */
    method Frame(leftPressed: bool, rightPressed: bool)
      requires Valid()
      modifies this, ball, player, bricks
      ensures Valid()
      ensures State() == NextFrame(old(State()), Input(leftPressed, rightPressed))
    {
      ball.Update();
      player.Update(leftPressed, rightPressed);
      TestPaddleCollision(player, ball);
      TestEveryBrick(bricks, count, ball);
      count := EraseDestroyed(bricks, count);
    }
  }
}
