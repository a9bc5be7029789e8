/** The game: the T-Rex, the obstacles, the ground, the score and the state of play, with the
    operations the frame loop calls and the collision test. */
module Game {
  import opened Geometry
  import opened Sprites

  datatype GameState = Playing | GameOver

  /** The fields of a `Game` that the simulation uses, as a value (the display is not modelled). */
  datatype World = World(state: GameState, obstacles: seq<Obstacle>, score: nat, trex: TrexView, ground: GroundView)

  // ---------------------------------------------------------------------------------------------
  // Collision test

  /** `bounding_boxes_overlap`: both boxes must have a bottom-right corner, and each must start
      strictly before the other's last pixel on both axes. */
  function BoundingBoxesOverlap(bbox1: Rectangle, bbox2: Rectangle): bool {
    match (bbox1.BottomRight(), bbox2.BottomRight())
    case (Some(br1), Some(br2)) =>
      var xOverlap := bbox1.topLeft.x < br2.x && br1.x > bbox2.topLeft.x;
      var yOverlap := bbox1.topLeft.y < br2.y && br1.y > bbox2.topLeft.y;
      xOverlap && yOverlap
    case _ => false
  }

  /** An empty box overlaps nothing, because it has no bottom-right corner. */
  lemma EmptyBoxOverlapsNothing(a: Rectangle, b: Rectangle)
    requires a.size.width == 0 || a.size.height == 0 || b.size.width == 0 || b.size.height == 0
    ensures !BoundingBoxesOverlap(a, b) && !BoundingBoxesOverlap(b, a)
  {
  }

  /** Overlap does not depend on the order of the boxes. */
  lemma OverlapSymmetric(a: Rectangle, b: Rectangle)
    ensures BoundingBoxesOverlap(a, b) == BoundingBoxesOverlap(b, a)
  {
  }

  /** Overlapping boxes share a pixel. */
  lemma OverlapSharesPixel(a: Rectangle, b: Rectangle)
    requires BoundingBoxesOverlap(a, b)
    ensures exists p :: a.Contains(p) && b.Contains(p)
  {
    var x := if a.topLeft.x < b.topLeft.x then b.topLeft.x else a.topLeft.x;
    var y := if a.topLeft.y < b.topLeft.y then b.topLeft.y else a.topLeft.y;
    assert a.Contains(Point(x, y)) && b.Contains(Point(x, y));
  }

  /** Boxes that share a two-by-two block of pixels overlap. */
  lemma SharedBlockOverlaps(a: Rectangle, b: Rectangle, p: Point)
    requires a.Contains(p) && a.Contains(Point(p.x + 1, p.y + 1))
    requires b.Contains(p) && b.Contains(Point(p.x + 1, p.y + 1))
    ensures BoundingBoxesOverlap(a, b)
  {
  }

  /** The test is strict: a box whose last column is the other's first column, or whose last row
      is the other's first row, does not overlap it. */
  lemma TouchingEdgesDoNotOverlap(a: Rectangle, b: Rectangle)
    requires a.topLeft.x + a.size.width - 1 == b.topLeft.x || a.topLeft.y + a.size.height - 1 == b.topLeft.y
    ensures !BoundingBoxesOverlap(a, b) && !BoundingBoxesOverlap(b, a)
  {
  }

  /** A box overlaps itself exactly when it is at least two pixels wide and two pixels high. */
  lemma SelfOverlap(a: Rectangle)
    ensures BoundingBoxesOverlap(a, a) <==> a.size.width >= 2 && a.size.height >= 2
  {
  }

  /** Two boxes one pixel wide never overlap. */
  lemma OnePixelWideBoxesNeverOverlap(a: Rectangle, b: Rectangle)
    requires a.size.width == 1 && b.size.width == 1
    ensures !BoundingBoxesOverlap(a, b)
  {
  }

  /** A T-Rex box from (10, 29) to (19, 39) and a cactus box from (19, 35) to (25, 45) only share
      the column x = 19 and do not overlap; moved one pixel left, the cactus does. */
  lemma CollisionEdgeExample()
    ensures !BoundingBoxesOverlap(Rectangle(Point(10, 29), Size(10, 11)), Rectangle(Point(19, 35), Size(7, 11)))
    ensures BoundingBoxesOverlap(Rectangle(Point(10, 29), Size(10, 11)), Rectangle(Point(18, 35), Size(7, 11)))
  {
  }

  /** Some queued obstacle's box overlaps the T-Rex's box. */
  predicate Collides(w: World, heights: SpriteHeights) {
    exists i :: 0 <= i < |w.obstacles| && BoundingBoxesOverlap(w.trex.img.BoundingBox(heights), w.obstacles[i].img.BoundingBox(heights))
  }

  // ---------------------------------------------------------------------------------------------
  // What each operation of `Game` does to the world

  /** `Game::new`: score 0, playing, the T-Rex running on the ground, fresh ground and obstacles. */
  function NewWorld(): World {
    World(Playing, InitialQueue(), 0, NewTrex(TREX_X, TREX_GROUND_Y), InitialGround())
  }

  /** `Game::move_world`: updates the obstacles, scores one point for a recycle, scrolls the ground. */
  function MovedWorld(w: World, random: nat): World {
    var (obstacles, recycled) := UpdatedQueue(w.obstacles, random);
    w.(obstacles := obstacles,
       score := if recycled then w.score + 1 else w.score,
       ground := MovedGround(w.ground, OBSTACLE_VELOCITY))
  }

  /** The state effect of `Game::draw_trex`: the T-Rex takes one step unless it is running. */
  function TrexDrawn(w: World): World {
    if w.trex.state != Running then w.(trex := UpdatedTrex(w.trex)) else w
  }

  /** `Game::trex_jump`: a running T-Rex starts jumping and takes its first step at once; otherwise
      nothing happens. Returns whether the jump was taken. */
  function Jumped(w: World): (World, bool) {
    if w.trex.state == Running then (w.(trex := UpdatedTrex(w.trex.(state := Jumping))), true) else (w, false)
  }

  /** `Game::game_over`: only the state changes. */
  function Ended(w: World): World {
    w.(state := GameOver)
  }

  /** The invariant of a game in progress. */
  predicate WorldInv(w: World) {
    && TrexOnTrack(w.trex) && w.trex.position.x == TREX_X
    && QueueInv(w.obstacles) && |w.obstacles| == 2
    && GroundOnTrack(w.ground)
  }

  /** A new game: playing, score 0, the T-Rex at (TREX_X, TREX_GROUND_Y) running, the ground at 0
      and the two initial cacti; it satisfies the invariant. */
  lemma NewWorldInv()
    ensures var w := NewWorld();
      && WorldInv(w)
      && w.state == Playing && w.score == 0
      && w.trex.position == Point(TREX_X, TREX_GROUND_Y) && w.trex.state == Running
      && w.ground.position.x == 0 && w.obstacles == InitialQueue()
  {
    InitialQueueInv();
  }

  /** `move_world` scores exactly one point when the front obstacle leaves the screen and none
      otherwise, always scrolls the ground by OBSTACLE_VELOCITY, and keeps the invariant; the
      T-Rex and the state of play are untouched. */
  lemma MovedWorldScore(w: World, random: nat)
    requires WorldInv(w)
    ensures var r := MovedWorld(w, random);
      && r.score == (if w.obstacles[0].x + OBSTACLE_VELOCITY < 0 then w.score + 1 else w.score)
      && r.ground == MovedGround(w.ground, OBSTACLE_VELOCITY)
      && r.trex == w.trex && r.state == w.state
      && WorldInv(r)
  {
    UpdatedQueueShape(w.obstacles, random);
    UpdatedQueueKeepsInv(w.obstacles, random);
    MovedGroundKeepsTrack(w.ground, OBSTACLE_VELOCITY);
  }

  /** No double jump: a running T-Rex jumps and ends its first step at height 19, still jumping;
      a T-Rex in the air is refused and nothing changes. The invariant is kept. */
  lemma JumpedFacts(w: World)
    requires WorldInv(w)
    ensures var (r, jumped) := Jumped(w);
      && (jumped <==> w.trex.state == Running)
      && (jumped ==> r.trex.state == Jumping && r.trex.position == Point(TREX_X, 19))
      && (!jumped ==> r == w)
      && r.(trex := w.trex) == w
      && WorldInv(r)
  {
  }

  /** The guard of `draw_trex` never matters: a running T-Rex's step changes nothing, so drawing
      always amounts to exactly one step of the state machine. The invariant is kept. */
  lemma TrexDrawnIsOneStep(w: World)
    requires WorldInv(w)
    ensures TrexDrawn(w) == w.(trex := UpdatedTrex(w.trex))
    ensures WorldInv(TrexDrawn(w))
  {
    UpdatedTrexKeepsTrack(w.trex);
  }

  /** The game object: the state of play, the obstacles, the score, the T-Rex and the ground. */
  class Game {
    var state: GameState
    var obstacles: Obstacles
    var score: nat
    var trex: Trex
    var ground: Ground
    ghost var Repr: set<object>

    ghost predicate Valid()
      reads this, Repr
    {
      && obstacles in Repr
      && Repr == {this, obstacles, obstacles.buffer, trex, ground}
      && obstacles.Valid()
    }

    ghost function View(): World
      reads this, Repr
      requires Valid()
    {
      World(state, obstacles.Contents(), score, trex.View(), ground.View())
    }

    /** `Game::new`. */
    constructor ()
      ensures Valid() && fresh(Repr)
      ensures View() == NewWorld()
    {
      score := 0;
      trex := new Trex(TREX_X, TREX_GROUND_Y);
      ground := new Ground();
      obstacles := new Obstacles();
      state := Playing;
      new;
      Repr := {this, obstacles, obstacles.buffer, trex, ground};
    }

    /** `Game::move_world`, without drawing the obstacles. */
    method MoveWorld(random: nat)
      requires Valid()
      modifies Repr
      ensures Valid() && Repr == old(Repr)
      ensures View() == MovedWorld(old(View()), random)
    {
      var recycled := obstacles.UpdateState(random);
      if recycled {
        score := score + 1;
      }
      ground.MoveByVelocity(OBSTACLE_VELOCITY);
    }

    /** `Game::draw_trex`, without drawing: advances the T-Rex unless it is running. */
    method DrawTrex()
      requires Valid()
      modifies Repr
      ensures Valid() && Repr == old(Repr)
      ensures View() == TrexDrawn(old(View()))
    {
      if trex.state != Running {
        trex.UpdateState();
      }
    }

    /** `Game::trex_jump`. */
    method TrexJump() returns (jumped: bool)
      requires Valid()
      modifies Repr
      ensures Valid() && Repr == old(Repr)
      ensures (View(), jumped) == Jumped(old(View()))
    {
      if trex.state == Running {
        trex.state := Jumping;
        trex.UpdateState();
        return true;
      }
      return false;
    }

    /** `Game::check_collison`: looks for a queued obstacle whose box overlaps the T-Rex's box,
        stopping at the first one; changes nothing. */
    method CheckCollision(heights: SpriteHeights) returns (hit: bool)
      requires Valid()
      ensures hit <==> (exists i :: 0 <= i < |obstacles.Contents()| &&
                          BoundingBoxesOverlap(trex.img.BoundingBox(heights), obstacles.Contents()[i].img.BoundingBox(heights)))
      ensures hit <==> Collides(View(), heights)
    {
      var trexBox := trex.img.BoundingBox(heights);
      var current := obstacles.Contents();
      for i := 0 to |current|
        invariant forall j :: 0 <= j < i ==> !BoundingBoxesOverlap(trexBox, current[j].img.BoundingBox(heights))
      {
        if BoundingBoxesOverlap(trexBox, current[i].img.BoundingBox(heights)) {
          return true;
        }
      }
      return false;
    }

    /** `Game::game_over`, without drawing: the state becomes GameOver. */
    method GameOver()
      requires Valid()
      modifies this
      ensures Valid() && Repr == old(Repr)
      ensures View() == Ended(old(View()))
    {
      state := GameState.GameOver;
    }
  }
}
