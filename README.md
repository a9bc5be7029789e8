# pico-rex game simulation in Dafny

pico-rex is a T-Rex runner game for a Raspberry Pi Pico with a 128x64 OLED screen. This
project models its simulation: the T-Rex with its jump/fall state machine, the bounded queue of
cactus obstacles that scroll left and are recycled, the scrolling ground strip, the collision
test, the `Game` object that ties them together, and one pass of the main loop, including the
press counter that resets a finished game.

The project has four modules, one per file:

- `Geometry` (`geometry.dfy`) covers the integer geometry of embedded-graphics that the game relies on.
  - A point is two `i32` coordinates and a size is two `u32`.
  - A rectangle is a top-left point and a size.
  - `bottom_right` is `top_left + size - 1`, and is absent for an empty rectangle.
- `Sprites` (`sprites.dfy`) covers `src/sprites/mod.rs`.
  - The constants.
  - `Trex` as a class over its image, position and state.
  - `Obstacle` as a value.
  - `Obstacles` as a class over a four-slot ring buffer with a head and a tail. This gives `heapless::spsc::Queue` semantics: one slot always stays free, so at most three obstacles are stored.
  - `Ground` as a class.
  - `get_random_num`.
- `Game` (`game.dfy`) covers `src/game.rs`.
  - `bounding_boxes_overlap`.
  - The `Game` class with `new`, `move_world`, `draw_trex` (its state-advancing part), `trex_jump`, `check_collison` and `game_over`.
- `MainLoop` (`main_loop.dfy`) covers the loop of `main` in `src/main.rs`.
  - `Frame` is one pass of the loop body over the game and the press count.
  - `Play` creates the game and runs one pass per poll of the button.

Every class has an abstract value, such as `View()` or `Contents()`. A pure function states what each operation does to that value, for example `UpdatedTrex`, `UpdatedQueue`, `MovedGround`, `MovedWorld` or `FrameResult`. Each method is proved to produce exactly that. The properties of the game are lemmas about these functions and are carried to runs of any length: `RunQueue` for the queue alone, `Run` for the whole loop.

The heights of the sprites come from bitmap data that is not part of this model, so they are a parameter `heights: Raw -> nat`. The widths are the constants the raw images are declared with. The hardware random source is modelled by its raw output: one `random: nat` per poll.

A few behaviours of the code are worth stating plainly:

- The reset gesture counts every press in `clicked_count` (src/main.rs:64-71), and the count is never cleared. So presses need not be consecutive (`ResetGesture`). After a first reset, any later game over is reset on the next poll (`LaterGameOverResetsAtOnce`).
- The sixth `update_state` from `Obstacles::new` recycles. The front cactus reaches -22 < 0, is removed, and a new one enters at 228, leaving `[78, 228]` (`FirstRecycleOnSixthCall`).
- An obstacle is recycled as soon as its left edge is left of column 0 (src/sprites/mod.rs:164), not once it is fully off-screen.

## Model

| member | source | states |
|---|---|---|
| Geometry.Rectangle.BottomRight | src/game.rs:165-166 | there is no corner exactly when width or height is 0; otherwise the corner is a pixel of the rectangle and every pixel of the rectangle is at or above-left of it |
| Sprites.GetRandomNum | src/sprites/mod.rs:220-224 | the result is below `limit`; a zero limit is excluded because Rust's `%` panics on it |
| Sprites.NewTrex | src/sprites/mod.rs:64-72 | a new T-Rex is running at (x, y), and it is in a reachable state (on track) exactly when y is the ground height 29 |
| Sprites.UpdatedTrexCases | src/sprites/mod.rs:80-102 | jumping: y drops by 10, and if the result is at most 3 it becomes 3 and the state turns to Falling, otherwise it stays Jumping; falling: y grows by 15, and if the result is at least 29 it becomes 29 and the state turns to Running, otherwise it stays Falling; the image follows the position; running changes nothing |
| Sprites.UpdatedTrexKeepsTrack | src/sprites/mod.rs:80-102 | a step keeps 3 <= y <= 29, Running only at y = 29, and the image at the position; jumping strictly rises without landing, falling strictly drops without jumping again |
| Sprites.AdvancedTrexKeepsTrack | src/sprites/mod.rs:64-102 | any number of steps from a reachable T-Rex keeps it reachable and in the same column |
| Sprites.RunningTrexHolds | src/sprites/mod.rs:100 | steps of a running T-Rex never change it |
| Sprites.JumpArc | src/sprites/mod.rs:80-102 | from the ground, a jump passes through 19, 9 and 3 (turning to Falling), then 18, and lands at 29 running |
| Sprites.LandsWithinFiveSteps | src/sprites/mod.rs:80-102 | every reachable T-Rex is back on the ground and running after five steps |
| Sprites.Trex.constructor | src/sprites/mod.rs:64-72 | the new object's fields are those of a running T-Rex at (x, y) with its image there |
| Sprites.Trex.UpdatePosition | src/sprites/mod.rs:74-78 | the image becomes the T-Rex bitmap at (x, y); the position and the state are untouched |
| Sprites.Trex.UpdateState | src/sprites/mod.rs:80-102 | the fields after the call are one step of the state machine applied to the fields before it |
| Sprites.MoveKeepsPlaced | src/sprites/mod.rs:121-126 | moving an obstacle shifts its column by exactly `velocity` and keeps its image at its column, with the same bitmap |
| Sprites.MovedAll | src/sprites/mod.rs:157-159 | the loop over `iter_mut` moves every obstacle by `velocity` in queue order and keeps the length; the column gap between any two obstacles is unchanged |
| Sprites.UpdatedQueueShape | src/sprites/mod.rs:156-179 | an update returns true exactly when the front obstacle's column after the shift is below 0; without a recycle every obstacle moves by -25 in place; with a recycle only the front one leaves, the others move up one place, and the new back element is the chosen cactus at 228; the length is unchanged |
| Sprites.InitialQueueInv | src/sprites/mod.rs:136-150 | the seeded queue (cacti at 128 and 228) has two obstacles and satisfies the queue invariant |
| Sprites.UpdatedQueueKeepsInv | src/sprites/mod.rs:156-179 | an update keeps the invariant: at most 3 obstacles, each on the cactus line at its own column between 0 and 228, and later ones at least 25 columns behind earlier ones |
| Sprites.RunQueueKeepsInv | src/sprites/mod.rs:156-179 | any sequence of updates keeps the invariant and the length |
| Sprites.ReachableQueues | src/sprites/mod.rs:136-179 | every queue reachable from `Obstacles::new` holds two obstacles ordered by column from front to back, none beyond 228 |
| Sprites.FirstRecycleOnSixthCall | src/sprites/mod.rs:136-179 | from `Obstacles::new`, calls 1 to 5 return false and call 6 returns true, leaving the second cactus at 78 and the new cactus at 228 |
| Sprites.Obstacles.Len | src/sprites/mod.rs:13 | the four-slot queue never holds more than three obstacles |
| Sprites.Obstacles.constructor | src/sprites/mod.rs:136-150 | the new queue holds the first cactus at 128 and then the second cactus at 228 |
| Sprites.Obstacles.Peek | src/sprites/mod.rs:163 | the front obstacle of the queue, or none when the queue is empty |
| Sprites.Obstacles.Enqueue | src/sprites/mod.rs:169-175 | succeeds exactly when fewer than three obstacles are stored, and then appends at the back; a failed enqueue leaves the queue as it was |
| Sprites.Obstacles.Dequeue | src/sprites/mod.rs:167 | returns the front obstacle and removes it, or returns none and changes nothing when the queue is empty |
| Sprites.Obstacles.UpdateState | src/sprites/mod.rs:156-179 | the stored obstacles and the result after the call are `UpdatedQueue` of the obstacles before it: every obstacle moved by -25 in place, then a front obstacle left of 0 recycled |
| Sprites.MovedGroundBounds | src/sprites/mod.rs:199-205 | the strip shifts by `velocity`, or resets to exactly 0 when the shift would take it below -1072; it always ends at or right of -1072, on the same line, with its image at its position |
| Sprites.MovedGroundKeepsTrack | src/sprites/mod.rs:189-205 | scrolling left keeps the strip between -1072 and 0 on the ground line 54 |
| Sprites.GroundSawtooth | src/sprites/mod.rs:199-205 | after n moves by -25 from the start, the strip is at exactly -25 * (n mod 43) |
| Sprites.GroundResetsOnCall43 | src/sprites/mod.rs:199-205 | the 42nd move from 0 leaves the strip at -1050 and the 43rd resets it to 0 |
| Sprites.Ground.constructor | src/sprites/mod.rs:189-196 | the new strip starts at (0, 54) with its image there |
| Sprites.Ground.MoveByVelocity | src/sprites/mod.rs:199-205 | the fields after the call are `MovedGround` of the fields before it |
| Game.EmptyBoxOverlapsNothing | src/game.rs:164-176 | a box with zero width or height overlaps nothing, in either argument position |
| Game.OverlapSymmetric | src/game.rs:164-176 | the overlap test does not depend on the order of its arguments |
| Game.OverlapSharesPixel | src/game.rs:168-172 | overlapping boxes share a pixel |
| Game.SharedBlockOverlaps | src/game.rs:168-172 | boxes that share a two-by-two block of pixels overlap |
| Game.TouchingEdgesDoNotOverlap | src/game.rs:168-172 | the test is strict: when one box's last column is the other's first column, or its last row is the other's first row, the boxes do not overlap |
| Game.SelfOverlap | src/game.rs:168-172 | a box overlaps itself exactly when it is at least two pixels wide and two high |
| Game.OnePixelWideBoxesNeverOverlap | src/game.rs:168-172 | two boxes one pixel wide never overlap |
| Game.CollisionEdgeExample | src/game.rs:164-176 | a T-Rex box and a cactus box that share only one column do not overlap; one column further left, they do |
| Game.NewWorldInv | src/game.rs:41-56 | a new game is Playing with score 0, the T-Rex running at (10, 29), the ground at 0 and the two seeded cacti, and it satisfies the world invariant |
| Game.MovedWorldScore | src/game.rs:58-65 | `move_world` adds exactly 1 to the score when the front obstacle is recycled and nothing otherwise; it moves the ground by -25; the T-Rex and the state are untouched; it keeps the invariant |
| Game.JumpedFacts | src/game.rs:122-129 | a jump is taken exactly when the T-Rex is running, and it leaves the T-Rex jumping at height 19; otherwise nothing changes; only the T-Rex changes; the invariant is kept |
| Game.TrexDrawnIsOneStep | src/game.rs:107-115 | `draw_trex` always amounts to exactly one step of the T-Rex, since a running T-Rex's step changes nothing; it keeps the invariant |
| Game.Game.constructor | src/game.rs:41-56 | the new game's value is the new world |
| Game.Game.MoveWorld | src/game.rs:58-65 | the game's value after the call is `MovedWorld` of its value before it, with the same objects |
| Game.Game.DrawTrex | src/game.rs:107-115 | the game's value after the call is the T-Rex advanced when it is not running, with the same objects |
| Game.Game.TrexJump | src/game.rs:122-129 | the game's value and the result are `Jumped` of the value before the call |
| Game.Game.CheckCollision | src/game.rs:131-141 | returns true exactly when some queued obstacle's box overlaps the T-Rex's box, and it modifies nothing |
| Game.Game.GameOver | src/game.rs:143-147 | only the state changes, to GameOver |
| MainLoop.Frame | src/main.rs:65-101 | the game and the count after one pass are `FrameResult` of those before it; the game is either the same object with the same parts or a freshly made one |
| MainLoop.Play | src/main.rs:60-101 | after creating the game, calling `draw_trex` once (which leaves the running T-Rex as it is), and running one pass per poll, the game and the count are `Run` from the new world with count 0, and the game satisfies the world invariant |
| MainLoop.FrameKeepsInv | src/main.rs:65-101 | every pass keeps the world invariant |
| MainLoop.PlayingFrame | src/main.rs:78-100 | a playing pass leaves the count alone, adds at most one point, and ends in GameOver exactly when the T-Rex overlaps an obstacle at the end of it |
| MainLoop.JumpFrameStepsTwice | src/main.rs:81-90 | on a pass where a running T-Rex jumps, it steps both in `trex_jump` and in `draw_trex`, from 29 to 9, still jumping |
| MainLoop.NoPressKeepsRunning | src/main.rs:81-90 | without a press, a running T-Rex stays as it is |
| MainLoop.GameOverFrame | src/main.rs:66-75 | after a game over, a pass adds one to the count on a press and replaces the game by a new one (Playing, score 0) exactly when the count exceeds 2; otherwise nothing changes |
| MainLoop.ScoreOnlyResets | src/main.rs:66-101 | no pass lowers the score, except a reset of a finished game to a new one with score 0 |
| MainLoop.RunKeepsInv | src/main.rs:65-101 | any run of passes from a state satisfying the invariant keeps it |
| MainLoop.ReachableWorlds | src/main.rs:60-101 | every state reachable from a new game satisfies the invariant |
| MainLoop.CountNeverDecreases | src/main.rs:64-71 | no run lowers the press count |
| MainLoop.LaterGameOverResetsAtOnce | src/main.rs:64-75 | once the count exceeds 2, a game over is reset on the next poll whether or not the button is pressed |
| MainLoop.ResetGesture | src/main.rs:66-75 | from a game over with count 0, two presses do not reset the game while a third does, even when a poll without a press falls in between |
| MainLoop.NoJumpCollidesOnFourthFrame | src/main.rs:78-97 | without any press, the first three passes end without a collision and with score 0; a T-Rex taller than 7 pixels hits the first cactus on the fourth pass, before any point is scored |

## Left out

- Drawing is not modelled: `clear_screen`, `draw_score` with its text formatting, `draw_obstacles`, `draw_ground`, `draw_game_over`, and the image draws in `draw_trex` and `game_over`. The same goes for `display.flush()`. These are calls into the display driver and have no effect on the simulated state.
- The error results of the display (`D::Error`) and the `unwrap` panics on them are not modelled. Every operation is modelled as succeeding.
- The bitmap data of the sprites is not modelled. Heights are a parameter, widths are the declared constants, and `Image` is reduced to a bitmap tag and a top-left point.
- The ring-oscillator random source (`RoscRng`) is not modelled. Its output is a `random: nat` parameter of each poll.
- The hardware is not modelled: board setup, I2C, the GPIO button and the LED (src/main.rs:43-62). The same goes for the `Timer::after_millis` waits, the async executor, the program metadata statics, and the commented-out button task, which would involve concurrency. A poll of the button is a `Poll` value.
- The loop of `main` is infinite. `Play` runs it for as many passes as there are polls.
- The `heapless::spsc::Queue` internals are not modelled. The ring buffer follows the queue's documented behaviour: N slots, a capacity of N - 1, and an enqueue that fails when `increment(tail) == head`. Its split into producer and consumer halves is not modelled, because the game never splits it.
- `Obstacle::move_by_velocity` mutates an obstacle through `iter_mut`. `Sprites.Obstacle.MoveByVelocity` instead computes the moved obstacle as a value, and `Obstacles.UpdateState` writes it back into its slot of the buffer array. Nothing else refers to obstacles, so there is no aliasing to lose.
- `get_current` returns a reference to the queue. It is modelled as `Obstacles.Contents()`, the stored obstacles from front to back.
- Integer widths are not modelled. The `u32` score, the `i32` coordinates and the `i32` press count `clicked_count` (src/main.rs:64, incremented at src/main.rs:68) are unbounded integers. On every reachable state the coordinates stay within small bounds (`ReachableWorlds`), so no `i32` overflow can occur. A `u32` score overflow would need more than four billion recycles. An `i32` press-count overflow would need more than two billion presses during game overs.
- Sprites.GetRandomNum: its input is an unbounded natural instead of a `u32`. The contract only uses the bound `r < limit`, so this has no effect.
