/** The whole game state as a value: the start layout, the sweep of the ball over
    the bricks, the compaction of destroyed bricks, one frame, and runs of frames. */
module World {
  import opened Constants
  import opened Geometry
  import opened Entities

  /** The state the game loop keeps between frames. */
  datatype World = World(ball: BallState, paddle: PaddleState, bricks: seq<Brick>)

  /** The state of the two arrow keys during one frame. */
  datatype Input = Input(left: bool, right: bool)

  /** The brick in column ix and row iy of the start grid. */
  function GridBrick(ix: int, iy: int): Brick {
    Brick((ix + 1) * (BlockWidth + 3) + 22, (iy + 2) * (BlockHeight + 3), false)
  }

  /** Column ix of the grid, top row first. */
  function Column(ix: int): seq<Brick> {
    seq(CountBlocksY, iy => GridBrick(ix, iy))
  }

  /** The first n columns of the grid, in insertion order (column by column). */
  function Columns(n: nat): (r: seq<Brick>)
    ensures |r| == n * CountBlocksY
  {
    if n == 0 then [] else Columns(n - 1) + Column(n - 1)
  }

  /** The start grid. */
  function Grid(): seq<Brick> {
    Columns(CountBlocksX)
  }

  /** Where the brick of column ix, row iy sits among the first n columns. */
  lemma {:induction false} ColumnsAt(n: nat, ix: int, iy: int)
    requires 0 <= ix < n && 0 <= iy < CountBlocksY
    ensures ix * CountBlocksY + iy < |Columns(n)|
    ensures Columns(n)[ix * CountBlocksY + iy] == GridBrick(ix, iy)
  {
    if ix < n - 1 {
      ColumnsAt(n - 1, ix, iy);
    }
  }

  /** The start grid holds 44 bricks, none destroyed; the brick of column ix and
      row iy is the (4 ix + iy)-th one inserted, and these are all of them. */
  lemma GridLayout()
    ensures |Grid()| == CountBlocksX * CountBlocksY == 44
    ensures forall ix, iy :: 0 <= ix < CountBlocksX && 0 <= iy < CountBlocksY ==>
              Grid()[ix * CountBlocksY + iy] == GridBrick(ix, iy)
    ensures forall k :: 0 <= k < |Grid()| ==> Grid()[k] == GridBrick(k / CountBlocksY, k % CountBlocksY)
    ensures forall b :: b in Grid() ==> !b.destroyed
  {
    forall ix, iy | 0 <= ix < CountBlocksX && 0 <= iy < CountBlocksY
      ensures Grid()[ix * CountBlocksY + iy] == GridBrick(ix, iy)
    {
      ColumnsAt(CountBlocksX, ix, iy);
    }
    forall k | 0 <= k < |Grid()|
      ensures Grid()[k] == GridBrick(k / CountBlocksY, k % CountBlocksY)
    {
      ColumnsAt(CountBlocksX, k / CountBlocksY, k % CountBlocksY);
    }
  }

  /** The state before the first frame. */
  function InitialWorld(): World {
    World(BallState(WindowWidth / 2, WindowHeight / 2, -BallSpeed, -BallSpeed),
          PaddleState(WindowWidth / 2, WindowHeight - PlayerStartLift, 0, 0),
          Grid())
  }

  /** The bricks and the ball after a sweep over the bricks. */
  datatype Sweep = Sweep(bricks: seq<Brick>, ball: BallState)

  /** Tests every brick against the ball, first to last; each test sees the ball as
      the previous tests left it. Bricks keep their places, a destroyed brick stays
      destroyed, a brick ends destroyed exactly when it was already or the ball's
      box meets it, a brick that is not destroyed afterwards is unchanged, and the
      ball does not move. */
  function CollideAll(s: seq<Brick>, b: BallState): (r: Sweep)
    ensures |r.bricks| == |s|
    ensures forall i :: 0 <= i < |s| ==>
              r.bricks[i].x == s[i].x && r.bricks[i].y == s[i].y &&
              (s[i].destroyed ==> r.bricks[i].destroyed)
    ensures forall i :: 0 <= i < |s| && !r.bricks[i].destroyed ==> r.bricks[i] == s[i]
    ensures forall i :: 0 <= i < |s| ==>
              (r.bricks[i].destroyed <==> s[i].destroyed || Intersects(s[i].Bounds(), b.Bounds()))
    ensures r.ball.x == b.x && r.ball.y == b.y
    ensures UnitSpeed(b) ==> UnitSpeed(r.ball)
  {
    if s == [] then Sweep([], b)
    else
      var r := CollideAll(s[..|s| - 1], b);
      var h := BrickCollision(s[|s| - 1], r.ball);
      Sweep(r.bricks + [h.brick], h.ball)
  }

  /** The sweep over a collection grown by one brick tests that brick last. */
  lemma CollideAllSnoc(s: seq<Brick>, x: Brick, b: BallState)
    ensures var r := CollideAll(s, b);
            var h := BrickCollision(x, r.ball);
            CollideAll(s + [x], b) == Sweep(r.bricks + [h.brick], h.ball)
  {
    assert (s + [x])[..|s|] == s;
  }

  /** The bricks that are not destroyed, in their order. */
  function Survivors(s: seq<Brick>): (r: seq<Brick>)
    ensures forall k :: 0 <= k < |r| ==> !r[k].destroyed
    ensures |r| <= |s|
  {
    if s == [] then []
    else Survivors(s[..|s| - 1]) + (if s[|s| - 1].destroyed then [] else [s[|s| - 1]])
  }

  /** Compaction of a collection grown by one brick. */
  lemma SurvivorsSnoc(s: seq<Brick>, b: Brick)
    ensures Survivors(s + [b]) == Survivors(s) + (if b.destroyed then [] else [b])
  {
    assert (s + [b])[..|s|] == s;
  }

  /** Exactly the bricks that are not destroyed survive compaction. */
  lemma {:induction false} SurvivorsMembers(s: seq<Brick>)
    ensures forall b :: b in Survivors(s) <==> b in s && !b.destroyed
  {
    if s != [] {
      var init := s[..|s| - 1];
      assert s == init + [s[|s| - 1]];
      SurvivorsMembers(init);
    }
  }

  /** Once every brick has been destroyed the collection compacts to nothing. */
  lemma SurvivorsAllDestroyed(s: seq<Brick>)
    requires forall b :: b in s ==> b.destroyed
    ensures Survivors(s) == []
  {
    SurvivorsMembers(s);
    if Survivors(s) != [] {
      assert Survivors(s)[0] in Survivors(s);
    }
  }

  /** Compaction distributes over concatenation: together with its value on one
      brick this pins it down as the order-preserving filter. */
  lemma {:induction false} SurvivorsAppend(s: seq<Brick>, t: seq<Brick>)
    ensures Survivors(s + t) == Survivors(s) + Survivors(t)
  {
    if t == [] {
      assert s + t == s;
    } else {
      var t' := t[..|t| - 1];
      assert (s + t)[..|s + t| - 1] == s + t';
      SurvivorsAppend(s, t');
    }
  }

  /** A collection with no destroyed brick is left as it is. */
  lemma {:induction false} SurvivorsKeepsIntact(s: seq<Brick>)
    requires forall b :: b in s ==> !b.destroyed
    ensures Survivors(s) == s
  {
    if s != [] {
      assert s[..|s| - 1] + [s[|s| - 1]] == s;
      SurvivorsKeepsIntact(s[..|s| - 1]);
    }
  }

  /** The bricks that are neither destroyed nor met by the given ball box, in
      their order. */
  function Untouched(s: seq<Brick>, ball: Box): (r: seq<Brick>)
    ensures |r| <= |s|
  {
    if s == [] then []
    else
      var last := s[|s| - 1];
      Untouched(s[..|s| - 1], ball) +
        (if last.destroyed || Intersects(last.Bounds(), ball) then [] else [last])
  }

  /** A brick is left by the filter iff it was there, not destroyed and not met. */
  lemma {:induction false} UntouchedMembers(s: seq<Brick>, ball: Box)
    ensures forall b :: b in Untouched(s, ball) <==>
              b in s && !b.destroyed && !Intersects(b.Bounds(), ball)
  {
    if s != [] {
      var init := s[..|s| - 1];
      assert s == init + [s[|s| - 1]];
      UntouchedMembers(init, ball);
    }
  }

  /** Sweeping the ball over the bricks and then compacting removes exactly the
      bricks that were destroyed or that the ball's box meets, keeping the rest in
      their order. */
  lemma {:induction false} SweepThenCompact(s: seq<Brick>, b: BallState)
    ensures Survivors(CollideAll(s, b).bricks) == Untouched(s, b.Bounds())
  {
    if s != [] {
      var init, last := s[..|s| - 1], s[|s| - 1];
      var r := CollideAll(init, b);
      var h := BrickCollision(last, r.ball);
      assert r.ball.Bounds() == b.Bounds();
      SweepThenCompact(init, b);
      SurvivorsSnoc(r.bricks, h.brick);
    }
  }

  /** One frame, in the game's order: ball update, paddle update, paddle test,
      every brick test, compaction. */
  function NextFrame(w: World, input: Input): (r: World)
    ensures r.paddle == PlayerUpdate(w.paddle, input.left, input.right)
    ensures r.bricks == Untouched(w.bricks, BallUpdate(w.ball).Bounds())
    ensures forall b :: b in r.bricks ==> !b.destroyed
    ensures forall b :: b in r.bricks ==> b in w.bricks
    ensures |r.bricks| <= |w.bricks|
    ensures r.ball.x == w.ball.x + w.ball.vx && r.ball.y == w.ball.y + w.ball.vy
  {
    var ball1 := BallUpdate(w.ball);
    var paddle := PlayerUpdate(w.paddle, input.left, input.right);
    var ball2 := PaddleCollision(paddle, ball1);
    var swept := CollideAll(w.bricks, ball2);
    var r := World(swept.ball, paddle, Survivors(swept.bricks));
    SweepThenCompact(w.bricks, ball2);
    UntouchedMembers(w.bricks, ball2.Bounds());
    r
  }

  /** In a frame that starts with no destroyed brick, a brick is gone at the end
      of the frame exactly when the moved ball's box meets it. */
  lemma NextFrameRemovesHitBricks(w: World, input: Input)
    requires forall b :: b in w.bricks ==> !b.destroyed
    ensures forall b :: b in NextFrame(w, input).bricks <==>
              b in w.bricks && !Intersects(b.Bounds(), BallUpdate(w.ball).Bounds())
  {
    UntouchedMembers(w.bricks, BallUpdate(w.ball).Bounds());
  }

  /** The frames of a run, one input per frame. */
  function Run(w: World, inputs: seq<Input>): World
    decreases |inputs|
  {
    if inputs == [] then w else Run(NextFrame(w, inputs[0]), inputs[1..])
  }

  /** What holds between any two frames: the ball's speed, the paddle's invariant,
      and no destroyed brick left in the collection. */
  predicate Playable(w: World) {
    UnitSpeed(w.ball) && PaddleInvariant(w.paddle) &&
    forall b :: b in w.bricks ==> !b.destroyed
  }

  lemma InitialIsPlayable()
    ensures Playable(InitialWorld())
  {
    GridLayout();
  }

  lemma NextFrameKeepsPlayable(w: World, input: Input)
    requires Playable(w)
    ensures Playable(NextFrame(w, input))
  {
    PlayerUpdateKeepsInvariant(w.paddle, input.left, input.right);
  }

  /** Whatever keys are pressed, every state the game reaches is playable: in
      particular each ball velocity component always has magnitude 8. */
  lemma {:induction false} RunKeepsPlayable(w: World, inputs: seq<Input>)
    requires Playable(w)
    ensures Playable(Run(w, inputs))
    decreases |inputs|
  {
    if inputs != [] {
      NextFrameKeepsPlayable(w, inputs[0]);
      RunKeepsPlayable(NextFrame(w, inputs[0]), inputs[1..]);
    }
  }

  lemma ReachableIsPlayable(inputs: seq<Input>)
    ensures Playable(Run(InitialWorld(), inputs))
  {
    InitialIsPlayable();
    RunKeepsPlayable(InitialWorld(), inputs);
  }
}
