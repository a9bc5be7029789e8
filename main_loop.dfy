/** The frame loop of `main`: while playing, one poll of the button drives one frame of the game;
    after a game over, each poll counts button presses towards a reset. The count is kept across
    games and never cleared. */
module MainLoop {
  import opened Geometry
  import opened Sprites
  import opened Game

  /** One pass of the loop reads the button (low means pressed) and, if a cactus is recycled,
      one value of the random source. */
  datatype Poll = Poll(buttonLow: bool, random: nat)

  /** What one pass of the loop does to the game and to the press count. */
  function FrameResult(w: World, clickedCount: nat, poll: Poll, heights: SpriteHeights): (World, nat) {
    if w.state == GameOver then
      var count := if poll.buttonLow then clickedCount + 1 else clickedCount;
      (if count > 2 then NewWorld() else w, count)
    else
      var jumped := if poll.buttonLow then Jumped(w).0 else w;
      var drawn := TrexDrawn(MovedWorld(jumped, poll.random));
      (if Collides(drawn, heights) then Ended(drawn) else drawn, clickedCount)
  }

  /** Successive passes of the loop. */
  function Run(w: World, clickedCount: nat, polls: seq<Poll>, heights: SpriteHeights): (World, nat)
    decreases |polls|
  {
    if polls == [] then
      (w, clickedCount)
    else
      var next := FrameResult(w, clickedCount, polls[0], heights);
      Run(next.0, next.1, polls[1..], heights)
  }

  /** One pass of the loop body: in GameOver, count a press and reset after more than two;
      otherwise jump on a press, move the world, advance the T-Rex and end the game on a collision. */
  method Frame(game: Game, clickedCount: nat, poll: Poll, heights: SpriteHeights) returns (next: Game, nextCount: nat)
    requires game.Valid()
    modifies game.Repr
    ensures next.Valid()
    ensures (next == game && next.Repr == old(game.Repr)) || fresh(next.Repr)
    ensures (next.View(), nextCount) == FrameResult(old(game.View()), clickedCount, poll, heights)
  {
    next, nextCount := game, clickedCount;
    if game.state == GameState.GameOver {
      if poll.buttonLow {
        nextCount := nextCount + 1;
      }
      if nextCount > 2 {
        next := new Game();
      }
      return;
    }
    if poll.buttonLow {
      var jumped := game.TrexJump();
    }
    game.MoveWorld(poll.random);
    game.DrawTrex();
    var hit := game.CheckCollision(heights);
    if hit {
      game.GameOver();
    }
  }

  /** `main` from the creation of the game on, for as many passes of its loop as there are polls. */
  method Play(polls: seq<Poll>, heights: SpriteHeights) returns (game: Game, clickedCount: nat)
    ensures game.Valid()
    ensures (game.View(), clickedCount) == Run(NewWorld(), 0, polls, heights)
    ensures WorldInv(game.View())
  {
    game := new Game();
    game.DrawTrex();
    clickedCount := 0;
    var i := 0;
    while i < |polls|
      invariant 0 <= i <= |polls|
      invariant game.Valid()
      invariant fresh(game.Repr)
      invariant Run(game.View(), clickedCount, polls[i..], heights) == Run(NewWorld(), 0, polls, heights)
    {
      ghost var before, count := game.View(), clickedCount;
      game, clickedCount := Frame(game, clickedCount, polls[i], heights);
      RunStep(before, count, polls[i..], heights);
      assert polls[i..][1..] == polls[i + 1..];
      i := i + 1;
    }
    assert polls[i..] == [];
    ReachableWorlds(polls, heights);
  }

  /** A run is its first pass followed by the rest. */
  lemma RunStep(w: World, clickedCount: nat, polls: seq<Poll>, heights: SpriteHeights)
    requires polls != []
    ensures var next := FrameResult(w, clickedCount, polls[0], heights);
      Run(w, clickedCount, polls, heights) == Run(next.0, next.1, polls[1..], heights)
  {
  }

  // ---------------------------------------------------------------------------------------------
  // Properties of one pass

  /** Every pass keeps the invariant. */
  lemma FrameKeepsInv(w: World, clickedCount: nat, poll: Poll, heights: SpriteHeights)
    requires WorldInv(w)
    ensures WorldInv(FrameResult(w, clickedCount, poll, heights).0)
  {
    if w.state == GameOver {
      NewWorldInv();
    } else {
      JumpedFacts(w);
      var jumped := if poll.buttonLow then Jumped(w).0 else w;
      MovedWorldScore(jumped, poll.random);
      TrexDrawnIsOneStep(MovedWorld(jumped, poll.random));
    }
  }

  /** A playing pass leaves the press count alone, scores at most one point, and ends in GameOver
      exactly when the T-Rex it leaves overlaps an obstacle. */
  lemma PlayingFrame(w: World, clickedCount: nat, poll: Poll, heights: SpriteHeights)
    requires WorldInv(w) && w.state == Playing
    ensures var (r, count) := FrameResult(w, clickedCount, poll, heights);
      && count == clickedCount
      && w.score <= r.score <= w.score + 1
      && (r.state == GameOver <==> Collides(r, heights))
  {
    JumpedFacts(w);
    var jumped := if poll.buttonLow then Jumped(w).0 else w;
    MovedWorldScore(jumped, poll.random);
  }

  /** On a pass where a running T-Rex jumps, it steps twice, first in `trex_jump` and again in
      `draw_trex`: from 29 up to 9, still jumping, whether or not the pass ends the game. */
  lemma JumpFrameStepsTwice(w: World, clickedCount: nat, poll: Poll, heights: SpriteHeights)
    requires WorldInv(w) && w.state == Playing && w.trex.state == Running && poll.buttonLow
    ensures var r := FrameResult(w, clickedCount, poll, heights).0;
      r.trex.position == Point(TREX_X, 9) && r.trex.state == Jumping
  {
    JumpedFacts(w);
    MovedWorldScore(Jumped(w).0, poll.random);
  }

  /** Without a press a running T-Rex stays where it is. */
  lemma NoPressKeepsRunning(w: World, clickedCount: nat, poll: Poll, heights: SpriteHeights)
    requires WorldInv(w) && w.state == Playing && w.trex.state == Running && !poll.buttonLow
    ensures FrameResult(w, clickedCount, poll, heights).0.trex == w.trex
  {
    MovedWorldScore(w, poll.random);
  }

  /** After a game over a pass only counts: a press adds one to the count, and the game is
      replaced by a new one exactly when the count exceeds two; otherwise nothing changes. */
  lemma GameOverFrame(w: World, clickedCount: nat, poll: Poll, heights: SpriteHeights)
    requires w.state == GameOver
    ensures var (r, count) := FrameResult(w, clickedCount, poll, heights);
      && count == clickedCount + (if poll.buttonLow then 1 else 0)
      && (count > 2 ==> r == NewWorld() && r.state == Playing && r.score == 0)
      && (count <= 2 ==> r == w)
  {
  }

  /** The score never drops, except to 0 when a finished game is reset. */
  lemma ScoreOnlyResets(w: World, clickedCount: nat, poll: Poll, heights: SpriteHeights)
    ensures var r := FrameResult(w, clickedCount, poll, heights).0;
      r.score >= w.score || (w.state == GameOver && r == NewWorld() && r.score == 0)
  {
  }

  // ---------------------------------------------------------------------------------------------
  // Properties of runs

  /** Every run from a state satisfying the invariant keeps it. */
  lemma {:induction false} RunKeepsInv(w: World, clickedCount: nat, polls: seq<Poll>, heights: SpriteHeights)
    requires WorldInv(w)
    ensures WorldInv(Run(w, clickedCount, polls, heights).0)
    decreases |polls|
  {
    if polls != [] {
      FrameKeepsInv(w, clickedCount, polls[0], heights);
      var next := FrameResult(w, clickedCount, polls[0], heights);
      RunKeepsInv(next.0, next.1, polls[1..], heights);
    }
  }

  /** Every state the loop reaches from the start satisfies the invariant. */
  lemma ReachableWorlds(polls: seq<Poll>, heights: SpriteHeights)
    ensures WorldInv(Run(NewWorld(), 0, polls, heights).0)
  {
    NewWorldInv();
    RunKeepsInv(NewWorld(), 0, polls, heights);
  }

  /** The press count is never cleared: no run lowers it. */
  lemma {:induction false} CountNeverDecreases(w: World, clickedCount: nat, polls: seq<Poll>, heights: SpriteHeights)
    ensures Run(w, clickedCount, polls, heights).1 >= clickedCount
    decreases |polls|
  {
    if polls != [] {
      var next := FrameResult(w, clickedCount, polls[0], heights);
      CountNeverDecreases(next.0, next.1, polls[1..], heights);
    }
  }

  /** Once the count has passed two, for example after a first reset, every later game over is
      reset on the next poll whether or not the button is pressed. */
  lemma LaterGameOverResetsAtOnce(w: World, clickedCount: nat, polls: seq<Poll>, poll: Poll, heights: SpriteHeights)
    requires clickedCount > 2
    requires Run(w, clickedCount, polls, heights).0.state == GameOver
    ensures FrameResult(Run(w, clickedCount, polls, heights).0, Run(w, clickedCount, polls, heights).1, poll, heights).0 == NewWorld()
  {
    CountNeverDecreases(w, clickedCount, polls, heights);
  }

  /** From a game over with no presses counted, two presses do not reset the game and a third
      does; the presses need not be consecutive. */
  lemma ResetGesture(w: World, heights: SpriteHeights, r1: nat, r2: nat, r3: nat, r4: nat)
    requires w.state == GameOver
    ensures Run(w, 0, [Poll(true, r1), Poll(true, r2)], heights) == (w, 2)
    ensures Run(w, 0, [Poll(true, r1), Poll(true, r2), Poll(true, r3)], heights) == (NewWorld(), 3)
    ensures Run(w, 0, [Poll(true, r1), Poll(false, r2), Poll(true, r3), Poll(true, r4)], heights) == (NewWorld(), 3)
  {
    var p1, p2, p3, p4 := Poll(true, r1), Poll(true, r2), Poll(true, r3), Poll(true, r4);
    var q2 := Poll(false, r2);
    assert [p1, p2][1..] == [p2] && [p2][1..] == [];
    assert Run(w, 0, [p1, p2], heights) == Run(w, 1, [p2], heights) == Run(w, 2, [], heights);
    assert [p1, p2, p3][1..] == [p2, p3] && [p2, p3][1..] == [p3] && [p3][1..] == [];
    assert Run(w, 0, [p1, p2, p3], heights) == Run(w, 1, [p2, p3], heights);
    assert Run(w, 1, [p2, p3], heights) == Run(w, 2, [p3], heights) == Run(NewWorld(), 3, [], heights);
    assert [p1, q2, p3, p4][1..] == [q2, p3, p4] && [q2, p3, p4][1..] == [p3, p4] && [p3, p4][1..] == [p4] && [p4][1..] == [];
    assert Run(w, 0, [p1, q2, p3, p4], heights) == Run(w, 1, [q2, p3, p4], heights);
    assert Run(w, 1, [q2, p3, p4], heights) == Run(w, 1, [p3, p4], heights);
    assert Run(w, 1, [p3, p4], heights) == Run(w, 2, [p4], heights) == Run(NewWorld(), 3, [], heights);
  }

  /** Without ever pressing, a T-Rex taller than seven pixels runs into the first cactus (if that
      has any height) on the fourth frame, before any point is scored; the first three frames
      pass without a collision whatever the heights. */
  lemma NoJumpCollidesOnFourthFrame(heights: SpriteHeights, r1: nat, r2: nat, r3: nat, r4: nat)
    ensures var w3 := Run(NewWorld(), 0, [Poll(false, r1), Poll(false, r2), Poll(false, r3)], heights).0;
      w3.state == Playing && w3.score == 0
    ensures heights(RawTrex) > 7 && heights(RawCactus1) > 0 ==>
      var w4 := Run(NewWorld(), 0, [Poll(false, r1), Poll(false, r2), Poll(false, r3), Poll(false, r4)], heights).0;
      w4.state == GameOver && w4.score == 0
  {
    var w0 := NewWorld();
    QuietFrame(w0, 128, 228, Poll(false, r1), heights);
    var w1 := FrameResult(w0, 0, Poll(false, r1), heights).0;
    QuietFrame(w1, 103, 203, Poll(false, r2), heights);
    var w2 := FrameResult(w1, 0, Poll(false, r2), heights).0;
    QuietFrame(w2, 78, 178, Poll(false, r3), heights);
    var w3 := FrameResult(w2, 0, Poll(false, r3), heights).0;
    var s3 := [Poll(false, r1), Poll(false, r2), Poll(false, r3)];
    assert s3[1..] == [Poll(false, r2), Poll(false, r3)] && s3[1..][1..] == [Poll(false, r3)] && s3[1..][1..][1..] == [];
    RunStep(w0, 0, s3, heights);
    RunStep(w1, 0, s3[1..], heights);
    RunStep(w2, 0, s3[1..][1..], heights);
    if heights(RawTrex) > 7 && heights(RawCactus1) > 0 {
      CollidingFrame(w3, Poll(false, r4), heights);
      var s4 := [Poll(false, r1), Poll(false, r2), Poll(false, r3), Poll(false, r4)];
      assert s4[1..] == [Poll(false, r2), Poll(false, r3), Poll(false, r4)];
      assert s4[1..][1..] == [Poll(false, r3), Poll(false, r4)];
      assert s4[1..][1..][1..] == [Poll(false, r4)] && s4[1..][1..][1..][1..] == [];
      RunStep(w0, 0, s4, heights);
      RunStep(w1, 0, s4[1..], heights);
      RunStep(w2, 0, s4[1..][1..], heights);
      RunStep(w3, 0, s4[1..][1..][1..], heights);
    }
  }

  /** A frame without a press, the T-Rex running and both cacti still at column 78 or beyond:
      the cacti move left by 25, the ground scrolls, and nothing else happens. */
  lemma QuietFrame(w: World, a: int, b: int, poll: Poll, heights: SpriteHeights)
    requires w.state == Playing && w.trex == NewTrex(TREX_X, TREX_GROUND_Y) && !poll.buttonLow
    requires w.obstacles == [Obstacle.New(RawCactus1, a, 35), Obstacle.New(RawCactus2, b, 35)]
    requires 78 <= a <= b
    ensures FrameResult(w, 0, poll, heights) ==
      (w.(obstacles := [Obstacle.New(RawCactus1, a - 25, 35), Obstacle.New(RawCactus2, b - 25, 35)],
          ground := MovedGround(w.ground, OBSTACLE_VELOCITY)), 0)
  {
    var moved := w.(obstacles := [Obstacle.New(RawCactus1, a - 25, 35), Obstacle.New(RawCactus2, b - 25, 35)],
                    ground := MovedGround(w.ground, OBSTACLE_VELOCITY));
    assert MovedAll(w.obstacles, OBSTACLE_VELOCITY) == moved.obstacles;
    assert MovedWorld(w, poll.random) == moved;
    NoCollisionAt(moved, heights);
  }

  /** The fourth frame without a press: the first cactus reaches column 28 and overlaps a T-Rex
      taller than seven pixels. */
  lemma CollidingFrame(w: World, poll: Poll, heights: SpriteHeights)
    requires w.state == Playing && w.trex == NewTrex(TREX_X, TREX_GROUND_Y) && !poll.buttonLow
    requires w.obstacles == [Obstacle.New(RawCactus1, 53, 35), Obstacle.New(RawCactus2, 153, 35)]
    requires heights(RawTrex) > 7 && heights(RawCactus1) > 0
    ensures FrameResult(w, 0, poll, heights).0.state == GameOver
    ensures FrameResult(w, 0, poll, heights).0.score == w.score
  {
    var moved := w.(obstacles := [Obstacle.New(RawCactus1, 28, 35), Obstacle.New(RawCactus2, 128, 35)],
                    ground := MovedGround(w.ground, OBSTACLE_VELOCITY));
    assert MovedAll(w.obstacles, OBSTACLE_VELOCITY) == moved.obstacles;
    assert MovedWorld(w, poll.random) == moved;
    assert BoundingBoxesOverlap(moved.trex.img.BoundingBox(heights), moved.obstacles[0].img.BoundingBox(heights));
  }

  /** While the T-Rex stands at TREX_X, no cactus at column 53 or further right touches it. */
  lemma NoCollisionAt(w: World, heights: SpriteHeights)
    requires w.trex.img.topLeft.x == TREX_X && w.trex.img.raw == RawTrex
    requires forall i :: 0 <= i < |w.obstacles| ==> w.obstacles[i].img.topLeft.x >= 53
    ensures !Collides(w, heights)
  {
  }
}
