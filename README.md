# Breakout simulation core in Dafny

A model of the simulation core of a small brick-breaker game written in C++ with
SFML: one ball, one paddle steered by the arrow keys, and an 11 × 4 grid of bricks.
Each frame the ball moves and bounces off the four walls. Then the paddle moves and
picks its next velocity from the keys. Then the ball is tested against the paddle and
against every brick. Last, the destroyed bricks are erased from the brick vector.

Every constant of the game is a whole number (window 800 × 600, ball radius 10,
ball speed 8, paddle and brick 60 × 20, paddle speed 8). The start positions are
whole numbers too, and every move is by 0 or ±8. So the C++ floats only ever hold
integers, and coordinates are modelled as `int` with an exact `Abs`.

Layout:

- `constants.dfy` (module `Constants`): the playfield constants and `Abs`.
- `geometry.dfy` (module `Geometry`): a centre-plus-half-extents `Box` with its
  left/right/top/bottom edges, and the generic overlap test `Intersects`.
- `entities.dfy` (module `Entities`): the ball, paddle and brick as values, and
  the pure rules. These are the ball update, the paddle update, the paddle/ball
  response, the penetration analysis and the brick/ball response.
- `world.dfy` (module `World`): the start grid, the sweep of the ball over all
  bricks, the compaction, one frame (`NextFrame`), runs of frames, and the
  invariant every reachable state keeps.
- `breakout.dfy` (module `Breakout`): the in-place version. `Ball` and `Player`
  are classes whose fields the methods update. The bricks live by value in an
  array with a size, as in `std::vector<Brick>`. `Game` holds what `main` keeps
  between frames. Each method is proved to produce exactly the state the pure rule
  gives for the old state.

Three behaviours of the code are modelled exactly as written:

- The vertical side test of the brick response compares `overlap_top` with itself
  (src/main.cpp:187), so it is always false. `Penetrate` pins that the bottom
  overlap is always the one kept. `TopApproachKeepsFalling` gives a concrete ball
  that falls onto the top of a brick and is not bounced back up.
- The code's comment at src/main.cpp:96-98 speaks of keeping the paddle "inside
  the window". The edge is checked on the position just reached, before the next
  move, so the paddle can still leave the window. `PaddleCanLeaveWindow` shows a
  left edge going from 2 to −6. What does hold is the weaker bound in
  `PaddleInvariant`: the paddle is never a whole step (8 pixels) outside the window.
- The sweep tests every brick in the vector (src/main.cpp:248-249), without
  skipping destroyed ones. None is destroyed at the start of a frame, because
  compaction ends every frame (`ReachableIsPlayable`).

## Model

| member | source | states |
|---|---|---|
| `Geometry.IntersectsSymmetric` | src/main.cpp:141-148 | the overlap test gives the same answer with its arguments swapped |
| `Geometry.IntersectsIffCommonPoint` | src/main.cpp:141-148 | for boxes of non-negative size the test holds exactly when the closed boxes share a point, so boxes touching at an edge or corner intersect |
| `Entities.BallState.Bounds` | src/main.cpp:68-73 | the ball's box is centred on the ball and its side is twice the radius |
| `Entities.PaddleState.Bounds` | src/main.cpp:110-115 | the paddle's box is centred on the paddle and is 60 × 20 |
| `Entities.Brick.Bounds` | src/main.cpp:131-136 | a brick's box is centred on the brick and is 60 × 20 |
| `Entities.BallUpdate` | src/main.cpp:41-65 | the ball moves by exactly its velocity. Then, per axis, a crossed low wall makes the component +8, a crossed high wall (low one not crossed) makes it −8, and otherwise it is kept. Unit speed is preserved |
| `Entities.PlayerUpdate` | src/main.cpp:89-108 | the paddle moves by its velocity and vy is kept. The new vx is in {−8, 0, 8}. It is −8 iff left is pressed and the new left edge is > 0. It is +8 iff that fails, right is pressed and the new right edge is < 800 |
| `Entities.PlayerUpdateKeepsInvariant` | src/main.cpp:89-108 | the paddle keeps its row, has vy = 0, moves toward an edge only while inside it, and stays less than 8 pixels outside the window |
| `Entities.PaddleCanLeaveWindow` | src/main.cpp:89-108 | holding left from a left edge at 2 moves the edge to −6, so containment in the window does not hold |
| `Entities.PaddleCollision` | src/main.cpp:151-166 | no contact: ball unchanged. Contact: vy = −8, and vx = ±8 with vx < 0 iff the ball's centre is left of the paddle's. The ball never moves. Unit speed is preserved |
| `Entities.PaddleCollisionIdempotent` | src/main.cpp:151-166 | resolving a paddle contact a second time changes nothing more |
| `Entities.Penetrate` | src/main.cpp:174-191 | the two overlaps of an axis add up to the two extents. Contact holds iff all four overlaps are ≥ 0. The kept x overlap is the one of smaller magnitude, and from-left holds iff the left overlap is smaller. From-top never holds, and the kept y overlap is always the bottom one |
| `Entities.BrickCollision` | src/main.cpp:168-203 | no contact: brick and ball unchanged. Contact: the brick is destroyed in place and the ball does not move. If the kept x overlap is smaller than the kept y overlap, only vx changes, to ±8, pointing left iff the ball came from the left. Otherwise only vy changes, to +8. Unit speed is preserved |
| `Entities.TopApproachKeepsFalling` | src/main.cpp:184-202 | a ball falling 2 pixels into the top of a brick destroys it but keeps falling (vy = +8) |
| `World.Columns` | src/main.cpp:219-224 | the first n columns hold 4n bricks |
| `World.ColumnsAt` | src/main.cpp:219-224 | the brick of column ix and row iy is inserted at position 4·ix + iy |
| `World.GridLayout` | src/main.cpp:219-224 | the grid has 44 bricks, none destroyed. Brick (ix, iy) is at ((ix+1)·63+22, (iy+2)·23), inserted column-major, and every position is one of these |
| `World.CollideAll` | src/main.cpp:248-249 | the sweep keeps every brick in its place and position. Brick i ends destroyed iff it was destroyed already or the ball's box meets it. A brick not destroyed afterwards is unchanged. The ball never moves and unit speed is preserved |
| `World.CollideAllSnoc` | src/main.cpp:248-249 | the brick appended last is tested last, against the ball as the earlier tests left it |
| `World.Survivors` | src/main.cpp:261-263 | compaction keeps no destroyed brick and never grows the collection |
| `World.SurvivorsMembers` | src/main.cpp:261-263 | a brick survives compaction iff it was in the collection and not destroyed |
| `World.SurvivorsSnoc` | src/main.cpp:261-263 | compacting a collection grown by one brick appends that brick iff it is not destroyed |
| `World.SurvivorsAppend` | src/main.cpp:261-263 | compaction distributes over concatenation, so it keeps the survivors in their relative order |
| `World.SurvivorsKeepsIntact` | src/main.cpp:261-263 | a collection with no destroyed brick is left exactly as it is |
| `World.SurvivorsAllDestroyed` | src/main.cpp:261-263 | if every brick is destroyed, nothing is left |
| `World.UntouchedMembers` | src/main.cpp:248-263 | a brick passes the filter iff it was in the collection, is not destroyed and is not met by the given ball box |
| `World.SweepThenCompact` | src/main.cpp:248-263 | sweeping and then compacting leaves exactly the bricks that were neither destroyed nor met by the ball's box, in their order |
| `World.NextFrame` | src/main.cpp:240-263 | after a frame the paddle is the paddle update's result, and the ball has moved by its old velocity. The remaining bricks are exactly, in order, the previous frame's bricks that were not destroyed and that the moved ball's box does not meet. Each one is an unchanged brick of the previous frame, and none is destroyed |
| `World.NextFrameRemovesHitBricks` | src/main.cpp:240-263 | from a collection with no destroyed brick, a brick is gone after the frame iff the moved ball's box meets it |
| `World.InitialIsPlayable` | src/main.cpp:206-224 | the start state has unit ball speed (−8, −8), a paddle at rest on its row, and no destroyed brick |
| `World.NextFrameKeepsPlayable` | src/main.cpp:240-263 | a frame preserves unit ball speed, the paddle invariant and the absence of destroyed bricks |
| `World.RunKeepsPlayable` | src/main.cpp:231-263 | any run of frames from a playable state, under any keys, ends in a playable state |
| `World.ReachableIsPlayable` | src/main.cpp:206-263 | every state reachable from the start has both ball velocity components of magnitude 8 and no destroyed brick |
| `Breakout.Ball.constructor` | src/main.cpp:26-36 | a new ball is centred at the given point with velocity (−8, −8) |
| `Breakout.Ball.Update` | src/main.cpp:41-65 | the ball's fields become the ball update of their old values |
| `Breakout.Player.constructor` | src/main.cpp:78-87 | a new paddle is centred at the given point with zero velocity |
| `Breakout.Player.Update` | src/main.cpp:89-108 | the paddle's fields become the paddle update of their old values |
| `Breakout.TestPaddleCollision` | src/main.cpp:151-166 | only the ball changes, to the paddle/ball response |
| `Breakout.TestBrickCollision` | src/main.cpp:168-203 | only the given vector slot and the ball change, to the brick/ball response |
| `Breakout.TestEveryBrick` | src/main.cpp:248-249 | testing the bricks in order leaves the vector and the ball as the sweep gives them |
| `Breakout.EraseDestroyed` | src/main.cpp:261-263 | the erase-remove leaves exactly the survivors at the front, in order, and returns their number |
| `Breakout.BuildGrid` | src/main.cpp:216-224 | the nested loop of appends fills the vector with exactly the start grid |
| `Breakout.Game.constructor` | src/main.cpp:208-224 | the game starts in the start state |
| `Breakout.Game.Frame` | src/main.cpp:239-263 | one frame changes the game state exactly as `NextFrame` |

## Left out

- Window creation, clearing, drawing, display, the 60 fps frame-rate limit and colours (src/main.cpp:226-233 and 265-278). They are presentation only.
- The Escape-key exit of the game loop (src/main.cpp:235-237). A run is modelled as a finite sequence of per-frame key states, so stopping is the end of that sequence.
- `Keyboard::isKeyPressed` (src/main.cpp:99-101). The paddle update takes the two key states as boolean parameters.
- Floating-point rounding, and which `abs` overload the C++ resolves to. All values are whole numbers, so coordinates are `int` and `Abs` is exact.
- src/game-loop.cpp is not part of this model. It holds only empty stubs and a window loop, with no game logic.
- Brick references: `test_collision(Brick&, Ball&)` receives a reference to a vector element. It is modelled as a slot index into the array that holds the bricks by value, and the frame passes the slot, so no other aliasing is modelled.
- Vector growth: `emplace_back` is modelled as writing the next slot of a 44-slot array and bumping the size. The elements `remove_if` leaves after the new end are left unspecified.
