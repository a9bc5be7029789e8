/** The sprites of the game: the T-Rex with its jump/fall state machine, the cactus obstacles
    and the bounded queue that scrolls and recycles them, and the scrolling ground strip. */
module Sprites {
  import opened Geometry

  /** Number of slots of the obstacle queue. */
  const BUFF_SIZE: nat := 4
  /** A `heapless::spsc::Queue` with N slots keeps one slot free, so it holds at most N - 1 elements. */
  const QUEUE_CAPACITY: nat := BUFF_SIZE - 1
  const OLED_WIDTH: int := 128

  const GROUND_X_LENGTH: int := 1200
  const GROUND_Y: int := 54
  const GROUND_X_START: int := 0

  const TREX_X: int := 10
  const TREX_GROUND_Y: int := 29
  const TREX_MIN_Y: int := 3

  const CACTUS_Y: int := 35

  const TREX_VELOCITY: int := -10
  const GRAVITY: int := 15
  const OBSTACLE_VELOCITY: int := -25
  const OBSTACLE_GAP: int := 100

  /** Where a recycled obstacle re-enters, just past the right edge of the screen. */
  const SPAWN_X: int := OLED_WIDTH + OBSTACLE_GAP

  /** The raw bitmaps the sprites are drawn from. */
  datatype Raw = RawGround | RawTrex | RawCactus1 | RawCactus2 | RawCactus3 | RawGameOver

  /** The width each raw bitmap is declared with. */
  function Width(raw: Raw): nat {
    match raw
    case RawGround => 1200
    case RawTrex => 25
    case RawCactus1 => 11
    case RawCactus2 => 22
    case RawCactus3 => 21
    case RawGameOver => 100
  }

  /** The height of each raw bitmap follows from its pixel data, which is not part of this model. */
  type SpriteHeights = Raw -> nat

  /** The three cactus bitmaps a new obstacle is chosen from. */
  const OBSTACLES: seq<Raw> := [RawCactus1, RawCactus2, RawCactus3]

  /** A raw bitmap placed at a screen position. */
  datatype Image = Image(raw: Raw, topLeft: Point) {
    function Translate(offset: Point): Image {
      Image(raw, topLeft.Add(offset))
    }

    /** The rectangle the image covers. */
    function BoundingBox(heights: SpriteHeights): Rectangle {
      Rectangle(topLeft, Size(Width(raw), heights(raw)))
    }
  }

  /** `get_random_num`: reduces the raw 32-bit value of the random source below `limit`.
      Rust panics on a remainder by zero, hence the precondition. */
  function GetRandomNum(random: nat, limit: nat): (r: nat)
    requires 0 < limit
    ensures r < limit
  {
    random % limit
  }

  // ---------------------------------------------------------------------------------------------
  // The T-Rex

  datatype TrexState = Running | Jumping | Falling

  /** The fields of a `Trex`, as a value. */
  datatype TrexView = TrexView(img: Image, position: Point, state: TrexState)

  /** The T-Rex moved to height `y` in state `s`, its image following its position. */
  function Repositioned(t: TrexView, y: int, s: TrexState): TrexView {
    var p := Point(t.position.x, y);
    TrexView(Image(RawTrex, p), p, s)
  }

  /** What `Trex::update_state` does: one physics step of the jump/fall state machine. */
  function UpdatedTrex(t: TrexView): TrexView {
    match t.state
    case Jumping =>
      var y := t.position.y + TREX_VELOCITY;
      if y <= TREX_MIN_Y then Repositioned(t, TREX_MIN_Y, Falling) else Repositioned(t, y, Jumping)
    case Falling =>
      var y := t.position.y + GRAVITY;
      if y >= TREX_GROUND_Y then Repositioned(t, TREX_GROUND_Y, Running) else Repositioned(t, y, Falling)
    case Running => t
  }

  /** `n` consecutive steps. */
  function AdvancedTrex(t: TrexView, n: nat): TrexView
    decreases n
  {
    if n == 0 then t else AdvancedTrex(UpdatedTrex(t), n - 1)
  }

  /** The states a T-Rex created on the ground can reach: its image is at its position, it stays
      between the top of the jump and the ground, it runs only on the ground, and it is never
      jumping at the top nor falling on the ground. */
  predicate TrexOnTrack(t: TrexView) {
    && t.img == Image(RawTrex, t.position)
    && TREX_MIN_Y <= t.position.y <= TREX_GROUND_Y
    && (t.state == Running ==> t.position.y == TREX_GROUND_Y)
    && (t.state == Jumping ==> t.position.y > TREX_MIN_Y)
    && (t.state == Falling ==> t.position.y < TREX_GROUND_Y)
  }

  /** A T-Rex as `Trex::new(x, y)` makes it. */
  function NewTrex(x: int, y: int): (t: TrexView)
    ensures t.state == Running && t.position == Point(x, y)
    ensures y == TREX_GROUND_Y <==> TrexOnTrack(t)
  {
    TrexView(Image(RawTrex, Point(x, y)), Point(x, y), Running)
  }

  /** One step in each state: jumping rises by TREX_VELOCITY and turns to falling at the top,
      clamped to TREX_MIN_Y; falling drops by GRAVITY and turns to running on the ground, clamped
      to TREX_GROUND_Y; running changes nothing. The image is moved to the new position. */
  lemma UpdatedTrexCases(t: TrexView)
    ensures var r := UpdatedTrex(t);
      && r.position.x == t.position.x
      && (t.state == Jumping ==>
            if t.position.y - 10 <= 3 then r.position.y == 3 && r.state == Falling
            else r.position.y == t.position.y - 10 && r.state == Jumping)
      && (t.state == Falling ==>
            if t.position.y + 15 >= 29 then r.position.y == 29 && r.state == Running
            else r.position.y == t.position.y + 15 && r.state == Falling)
      && (t.state != Running ==> r.img == Image(RawTrex, r.position))
      && (t.state == Running ==> r == t)
  {
  }

  /** A step keeps a T-Rex on track; while jumping it strictly rises and never lands in one step,
      while falling it strictly drops and never jumps again, running it holds still. */
  lemma UpdatedTrexKeepsTrack(t: TrexView)
    requires TrexOnTrack(t)
    ensures var r := UpdatedTrex(t);
      && TrexOnTrack(r)
      && r.position.x == t.position.x
      && (t.state == Jumping ==> r.position.y < t.position.y && r.state != Running)
      && (t.state == Falling ==> r.position.y > t.position.y && r.state != Jumping)
      && (t.state == Running ==> r == t)
  {
  }

  /** Any number of steps keeps a T-Rex on track, at the same column. */
  lemma {:induction false} AdvancedTrexKeepsTrack(t: TrexView, n: nat)
    requires TrexOnTrack(t)
    ensures TrexOnTrack(AdvancedTrex(t, n)) && AdvancedTrex(t, n).position.x == t.position.x
    decreases n
  {
    if n > 0 {
      UpdatedTrexKeepsTrack(t);
      AdvancedTrexKeepsTrack(UpdatedTrex(t), n - 1);
    }
  }

  /** A running T-Rex stays as it is however many steps are taken. */
  lemma {:induction false} RunningTrexHolds(t: TrexView, n: nat)
    requires t.state == Running
    ensures AdvancedTrex(t, n) == t
    decreases n
  {
    if n > 0 {
      RunningTrexHolds(UpdatedTrex(t), n - 1);
    }
  }

  /** The arc of a jump from the ground: 29, 19, 9, then 3 and falling, 18, then 29 and running. */
  lemma JumpArc(x: int)
    ensures var t0 := TrexView(Image(RawTrex, Point(x, 29)), Point(x, 29), Jumping);
      && UpdatedTrex(t0) == TrexView(Image(RawTrex, Point(x, 19)), Point(x, 19), Jumping)
      && AdvancedTrex(t0, 2) == TrexView(Image(RawTrex, Point(x, 9)), Point(x, 9), Jumping)
      && AdvancedTrex(t0, 3) == TrexView(Image(RawTrex, Point(x, 3)), Point(x, 3), Falling)
      && AdvancedTrex(t0, 4) == TrexView(Image(RawTrex, Point(x, 18)), Point(x, 18), Falling)
      && AdvancedTrex(t0, 5) == TrexView(Image(RawTrex, Point(x, 29)), Point(x, 29), Running)
  {
    var t0 := TrexView(Image(RawTrex, Point(x, 29)), Point(x, 29), Jumping);
    var t1 := UpdatedTrex(t0);
    var t2 := UpdatedTrex(t1);
    var t3 := UpdatedTrex(t2);
    var t4 := UpdatedTrex(t3);
    assert AdvancedTrex(t0, 2) == AdvancedTrex(t1, 1) == t2;
    assert AdvancedTrex(t0, 3) == AdvancedTrex(t2, 1) == t3;
    assert AdvancedTrex(t0, 4) == AdvancedTrex(t3, 1) == t4;
    assert AdvancedTrex(t0, 5) == AdvancedTrex(t4, 1);
  }

  /** No T-Rex on track stays in the air: five steps always bring it back to the ground, running. */
  lemma LandsWithinFiveSteps(t: TrexView)
    requires TrexOnTrack(t)
    ensures AdvancedTrex(t, 5).state == Running && AdvancedTrex(t, 5).position.y == TREX_GROUND_Y
  {
    var t1 := UpdatedTrex(t);
    var t2 := UpdatedTrex(t1);
    var t3 := UpdatedTrex(t2);
    var t4 := UpdatedTrex(t3);
    var t5 := UpdatedTrex(t4);
    assert AdvancedTrex(t, 5) == t5 by {
      assert AdvancedTrex(t4, 1) == t5;
      assert AdvancedTrex(t3, 2) == t5;
      assert AdvancedTrex(t2, 3) == t5;
      assert AdvancedTrex(t1, 4) == t5;
    }
  }

  /** A running T-Rex: its image and where it stands, and its state. */
  class Trex {
    var img: Image
    var position: Point
    var state: TrexState

    function View(): TrexView
      reads this
    {
      TrexView(img, position, state)
    }

    /** `Trex::new`: a running T-Rex at (x, y). */
    constructor (x: int, y: int)
      ensures View() == NewTrex(x, y)
    {
      var p := Point(x, y);
      img := Image(RawTrex, p);
      state := Running;
      position := p;
    }

    /** `Trex::update_posistion`: moves the image to (x, y). */
    method UpdatePosition(x: int, y: int)
      modifies this`img
      ensures img == Image(RawTrex, Point(x, y))
    {
      img := Image(RawTrex, Point(x, y));
    }

    /** `Trex::update_state`: one step of the jump/fall state machine. */
    method UpdateState()
      modifies this
      ensures View() == UpdatedTrex(old(View()))
    {
      match state
      case Jumping =>
        position := position.(y := position.y + TREX_VELOCITY);
        if position.y <= TREX_MIN_Y {
          position := position.(y := TREX_MIN_Y);
          state := Falling;
        }
        UpdatePosition(position.x, position.y);
      case Falling =>
        position := position.(y := position.y + GRAVITY);
        if position.y >= TREX_GROUND_Y {
          position := position.(y := TREX_GROUND_Y);
          state := Running;
        }
        UpdatePosition(position.x, position.y);
      case Running =>
    }
  }

  // ---------------------------------------------------------------------------------------------
  // Obstacles

  /** A cactus: its image and the column it stands at. */
  datatype Obstacle = Obstacle(img: Image, x: int) {

    /** `Obstacle::new`: the cactus `raw` at (x, y). */
    static function New(raw: Raw, x: int, y: int): Obstacle {
      Obstacle(Image(raw, Point(x, y)), x)
    }

    /** `Obstacle::move_by_velocity`: the column and the image move together by `velocity`. */
    function MoveByVelocity(velocity: int): Obstacle {
      Obstacle(img.Translate(Point(velocity, 0)), x + velocity)
    }
  }

  /** An obstacle is placed when it shows a cactus on the cactus line at its own column. */
  predicate Placed(o: Obstacle) {
    o.img.raw in OBSTACLES && o.img.topLeft == Point(o.x, CACTUS_Y)
  }

  /** Moving a placed obstacle shifts its column by exactly `velocity` and keeps its image at its column. */
  lemma MoveKeepsPlaced(o: Obstacle, velocity: int)
    requires Placed(o)
    ensures Placed(o.MoveByVelocity(velocity))
    ensures o.MoveByVelocity(velocity).x == o.x + velocity
    ensures o.MoveByVelocity(velocity).img.raw == o.img.raw
  {
  }

  /** Every obstacle of the queue moved by `velocity`, in order: a common shift, so the gaps
      between any two obstacles are the same as before. */
  function MovedAll(q: seq<Obstacle>, velocity: int): (r: seq<Obstacle>)
    ensures |r| == |q|
    ensures forall i :: 0 <= i < |q| ==> r[i] == q[i].MoveByVelocity(velocity)
    ensures forall i, j :: 0 <= i < j < |q| ==> r[j].x - r[i].x == q[j].x - q[i].x
  {
    seq(|q|, i requires 0 <= i < |q| => q[i].MoveByVelocity(velocity))
  }

  /** The queue `Obstacles::new` fills: the first cactus at the right edge, the second a gap further. */
  function InitialQueue(): seq<Obstacle> {
    [Obstacle.New(RawCactus1, OLED_WIDTH, CACTUS_Y), Obstacle.New(RawCactus2, OLED_WIDTH + OBSTACLE_GAP, CACTUS_Y)]
  }

  /** The cactus that enters when the front one is recycled, chosen by the random value. */
  function Spawned(random: nat): Obstacle {
    Obstacle.New(OBSTACLES[GetRandomNum(random, 3)], OLED_WIDTH + OBSTACLE_GAP, 35)
  }

  /** What `Obstacles::update_state` does to the queue, and whether it recycled: every obstacle
      moves by OBSTACLE_VELOCITY; then, if the front one is off the left edge, it is dequeued and a
      new cactus is enqueued at the back (an enqueue into a full queue is dropped). */
  function UpdatedQueue(q: seq<Obstacle>, random: nat): (seq<Obstacle>, bool) {
    var moved := MovedAll(q, OBSTACLE_VELOCITY);
    if |moved| > 0 && moved[0].x < 0 then
      var rest := moved[1..];
      (if |rest| < QUEUE_CAPACITY then rest + [Spawned(random)] else rest, true)
    else
      (moved, false)
  }

  /** One update: it recycles exactly when the front obstacle, once moved, is left of the screen;
      only that one is removed, the others keep their order and move by OBSTACLE_VELOCITY, the new
      cactus is at the back at SPAWN_X, and the queue keeps its length. */
  lemma UpdatedQueueShape(q: seq<Obstacle>, random: nat)
    requires |q| <= QUEUE_CAPACITY
    ensures var r := UpdatedQueue(q, random);
      && |r.0| == |q|
      && (r.1 <==> |q| > 0 && q[0].x + OBSTACLE_VELOCITY < 0)
      && (!r.1 ==> forall i :: 0 <= i < |q| ==> r.0[i] == q[i].MoveByVelocity(OBSTACLE_VELOCITY))
      && (r.1 ==> forall i :: 0 <= i < |q| - 1 ==> r.0[i] == q[i + 1].MoveByVelocity(OBSTACLE_VELOCITY))
      && (r.1 ==> r.0[|q| - 1] == Spawned(random) && r.0[|q| - 1].x == SPAWN_X)
  {
  }

  /** Obstacles are in front-to-back order of their columns. */
  predicate Ordered(q: seq<Obstacle>) {
    forall i, j :: 0 <= i < j < |q| ==> q[i].x <= q[j].x
  }

  /** The invariant of the queue: within capacity, every obstacle placed and on or right of the
      left edge but not past the spawn column, and any two at least one step's distance apart in
      queue order. */
  predicate QueueInv(q: seq<Obstacle>) {
    && |q| <= QUEUE_CAPACITY
    && (forall i :: 0 <= i < |q| ==> Placed(q[i]) && 0 <= q[i].x <= SPAWN_X)
    && (forall i, j :: 0 <= i < j < |q| ==> q[i].x - OBSTACLE_VELOCITY <= q[j].x)
  }

  lemma QueueInvOrdered(q: seq<Obstacle>)
    requires QueueInv(q)
    ensures Ordered(q)
  {
  }

  lemma InitialQueueInv()
    ensures QueueInv(InitialQueue()) && |InitialQueue()| == 2
  {
  }

  /** An update keeps the invariant and the length. */
  lemma UpdatedQueueKeepsInv(q: seq<Obstacle>, random: nat)
    requires QueueInv(q)
    ensures QueueInv(UpdatedQueue(q, random).0) && |UpdatedQueue(q, random).0| == |q|
  {
    UpdatedQueueShape(q, random);
    var r := UpdatedQueue(q, random).0;
    forall i | 0 <= i < |q|
      ensures Placed(q[i].MoveByVelocity(OBSTACLE_VELOCITY))
    {
      MoveKeepsPlaced(q[i], OBSTACLE_VELOCITY);
    }
  }

  /** A run of updates, one random value per call: the final queue and whether each call recycled. */
  function RunQueue(q: seq<Obstacle>, randoms: seq<nat>): (r: (seq<Obstacle>, seq<bool>))
    ensures |r.1| == |randoms|
    decreases |randoms|
  {
    if randoms == [] then
      (q, [])
    else
      var step := UpdatedQueue(q, randoms[0]);
      var rest := RunQueue(step.0, randoms[1..]);
      (rest.0, [step.1] + rest.1)
  }

  /** Any run of updates keeps the invariant and the length. */
  lemma {:induction false} RunQueueKeepsInv(q: seq<Obstacle>, randoms: seq<nat>)
    requires QueueInv(q)
    ensures QueueInv(RunQueue(q, randoms).0) && |RunQueue(q, randoms).0| == |q|
    decreases |randoms|
  {
    if randoms != [] {
      UpdatedQueueKeepsInv(q, randoms[0]);
      RunQueueKeepsInv(UpdatedQueue(q, randoms[0]).0, randoms[1..]);
    }
  }

  /** Every queue reachable from `Obstacles::new` holds two obstacles, ordered by column, none past SPAWN_X. */
  lemma ReachableQueues(randoms: seq<nat>)
    ensures var q := RunQueue(InitialQueue(), randoms).0;
      |q| == 2 && Ordered(q) && forall i :: 0 <= i < |q| ==> q[i].x <= SPAWN_X
  {
    InitialQueueInv();
    RunQueueKeepsInv(InitialQueue(), randoms);
    QueueInvOrdered(RunQueue(InitialQueue(), randoms).0);
  }

  /** From `Obstacles::new`, calls 1 to 5 do not recycle and call 6 does, leaving the second
      cactus at column 78 and the new one at SPAWN_X. */
  lemma FirstRecycleOnSixthCall(randoms: seq<nat>)
    requires |randoms| == 6
    ensures var r := RunQueue(InitialQueue(), randoms);
      && r.1 == [false, false, false, false, false, true]
      && |r.0| == 2 && r.0[0] == Obstacle.New(RawCactus2, 78, CACTUS_Y) && r.0[1] == Spawned(randoms[5])
  {
    var q0 := InitialQueue();
    var q1 := UpdatedQueue(q0, randoms[0]).0;
    assert q1 == [Obstacle.New(RawCactus1, 103, 35), Obstacle.New(RawCactus2, 203, 35)];
    var q2 := UpdatedQueue(q1, randoms[1]).0;
    assert q2 == [Obstacle.New(RawCactus1, 78, 35), Obstacle.New(RawCactus2, 178, 35)];
    var q3 := UpdatedQueue(q2, randoms[2]).0;
    assert q3 == [Obstacle.New(RawCactus1, 53, 35), Obstacle.New(RawCactus2, 153, 35)];
    var q4 := UpdatedQueue(q3, randoms[3]).0;
    assert q4 == [Obstacle.New(RawCactus1, 28, 35), Obstacle.New(RawCactus2, 128, 35)];
    var q5 := UpdatedQueue(q4, randoms[4]).0;
    assert q5 == [Obstacle.New(RawCactus1, 3, 35), Obstacle.New(RawCactus2, 103, 35)];
    var q6 := UpdatedQueue(q5, randoms[5]).0;
    assert q6 == [Obstacle.New(RawCactus2, 78, 35), Spawned(randoms[5])];
    assert randoms[5..][1..] == [] && randoms[5..][0] == randoms[5];
    assert RunQueue(q6, randoms[5..][1..]) == (q6, []);
    assert UpdatedQueue(q5, randoms[5..][0]) == (q6, true);
    assert randoms[4..][1..] == randoms[5..];
    assert randoms[3..][1..] == randoms[4..];
    assert randoms[2..][1..] == randoms[3..];
    assert randoms[1..][1..] == randoms[2..];
    assert [true] + [] == [true];
    assert RunQueue(q5, randoms[5..]) == (q6, [true]);
    assert [false] + [true] == [false, true];
    assert RunQueue(q4, randoms[4..]) == (q6, [false, true]);
    assert [false] + [false, true] == [false, false, true];
    assert RunQueue(q3, randoms[3..]) == (q6, [false, false, true]);
    assert [false] + [false, false, true] == [false, false, false, true];
    assert RunQueue(q2, randoms[2..]) == (q6, [false, false, false, true]);
    assert [false] + [false, false, false, true] == [false, false, false, false, true];
    assert RunQueue(q1, randoms[1..]) == (q6, [false, false, false, false, true]);
    assert [false] + [false, false, false, false, true] == [false, false, false, false, false, true];
  }

  /** A ring-buffer index below twice the number of slots, taken modulo the number of slots. */
  function Slot(i: nat): (r: nat)
    requires i < 2 * BUFF_SIZE
    ensures r == i % BUFF_SIZE
  {
    if i < BUFF_SIZE then i else i - BUFF_SIZE
  }

  /** The ring-buffer index after `i`, as the queue advances its head and tail. */
  function Increment(i: nat): nat
    requires i < BUFF_SIZE
  {
    if i + 1 < BUFF_SIZE then i + 1 else 0
  }

  /** The obstacle queue: a `heapless::spsc::Queue` of BUFF_SIZE slots, a ring buffer whose
      elements run from `head` up to, not including, `tail`, one slot always left free. */
  class Obstacles {
    var buffer: array<Obstacle>
    var head: nat
    var tail: nat

    ghost predicate Valid()
      reads this
    {
      buffer.Length == BUFF_SIZE && head < BUFF_SIZE && tail < BUFF_SIZE
    }

    /** The number of stored obstacles. */
    function Len(): (n: nat)
      reads this
      requires Valid()
      ensures n <= QUEUE_CAPACITY
      ensures n == if head <= tail then tail - head else tail + BUFF_SIZE - head
    {
      (tail + BUFF_SIZE - head) % BUFF_SIZE
    }

    /** The stored obstacles, front first; `get_current().iter()` visits them in this order. */
    function Contents(): (s: seq<Obstacle>)
      reads this, buffer
      requires Valid()
      ensures |s| == Len()
      ensures forall k :: 0 <= k < |s| ==> s[k] == buffer[Slot(head + k)]
    {
      (buffer[..] + buffer[..])[head..head + Len()]
    }

    /** `Obstacles::new`: two cacti, at the right edge and one gap further. */
    constructor ()
      ensures Valid() && fresh(buffer)
      ensures Contents() == InitialQueue()
    {
      buffer := new Obstacle[BUFF_SIZE];
      head, tail := 0, 0;
      new;
      var first := Enqueue(Obstacle.New(RawCactus1, OLED_WIDTH, CACTUS_Y));
      assert first;
      var second := Enqueue(Obstacle.New(RawCactus2, OLED_WIDTH + OBSTACLE_GAP, CACTUS_Y));
      assert second;
    }

    /** `Queue::peek`: the front obstacle, if any. */
    function Peek(): (r: Option<Obstacle>)
      reads this, buffer
      requires Valid()
      ensures r == if |Contents()| == 0 then None else Some(Contents()[0])
    {
      if head == tail then None else Some(buffer[head])
    }

    /** `Queue::enqueue`: appends at the back unless the queue is full. */
    method Enqueue(o: Obstacle) returns (ok: bool)
      requires Valid()
      modifies this, buffer
      ensures Valid() && buffer == old(buffer)
      ensures ok <==> old(Len()) < QUEUE_CAPACITY
      ensures Contents() == if ok then old(Contents()) + [o] else old(Contents())
    {
      var next := Increment(tail);
      if next == head {
        ok := false;
      } else {
        buffer[tail] := o;
        tail := next;
        ok := true;
      }
    }

    /** `Queue::dequeue`: removes and returns the front obstacle, if any. */
    method Dequeue() returns (r: Option<Obstacle>)
      requires Valid()
      modifies this
      ensures Valid() && buffer == old(buffer)
      ensures r == if old(Len()) == 0 then None else Some(old(Contents())[0])
      ensures Contents() == if old(Len()) == 0 then old(Contents()) else old(Contents())[1..]
    {
      if head == tail {
        r := None;
      } else {
        r := Some(buffer[head]);
        head := Increment(head);
      }
    }

    /** `Obstacles::update_state`: moves every obstacle in place, then recycles the front one if it
        has left the screen; returns whether it did. */
    method UpdateState(random: nat) returns (newCactus: bool)
      requires Valid()
      modifies this, buffer
      ensures Valid() && buffer == old(buffer)
      ensures (Contents(), newCactus) == UpdatedQueue(old(Contents()), random)
    {
      ghost var before := Contents();
      var n := Len();
      var k := 0;
      while k < n
        invariant 0 <= k <= n
        invariant forall j :: 0 <= j < n ==>
          buffer[Slot(head + j)] == if j < k then before[j].MoveByVelocity(OBSTACLE_VELOCITY) else before[j]
        modifies buffer
      {
        var i := Slot(head + k);
        buffer[i] := buffer[i].MoveByVelocity(OBSTACLE_VELOCITY);
        k := k + 1;
      }
      assert Contents() == MovedAll(before, OBSTACLE_VELOCITY);

      newCactus := false;
      var first := Peek();
      if first.Some? && first.value.x < 0 {
        newCactus := true;
        var gone := Dequeue();
        var obsIdx := GetRandomNum(random, 3);
        var ok := Enqueue(Obstacle.New(OBSTACLES[obsIdx], OLED_WIDTH + OBSTACLE_GAP, 35));
      }
    }
  }

  // ---------------------------------------------------------------------------------------------
  // The ground

  /** The fields of a `Ground`, as a value. */
  datatype GroundView = GroundView(img: Image, position: Point)

  /** The ground as `Ground::new` lays it: the strip starting at the left edge on the ground line. */
  function InitialGround(): GroundView {
    GroundView(Image(RawGround, Point(GROUND_X_START, GROUND_Y)), Point(GROUND_X_START, GROUND_Y))
  }

  /** What `Ground::move_by_velocity` does: the strip scrolls by `velocity` and jumps back to
      GROUND_X_START once its right end would come inside the screen. */
  function MovedGround(g: GroundView, velocity: int): GroundView {
    var x := g.position.x + velocity;
    var p := Point(if x < OLED_WIDTH - GROUND_X_LENGTH then GROUND_X_START else x, g.position.y);
    GroundView(Image(RawGround, p), p)
  }

  /** The strip's offset lies in [OLED_WIDTH - GROUND_X_LENGTH, 0] and its image is at its position. */
  predicate GroundOnTrack(g: GroundView) {
    && g.img == Image(RawGround, g.position)
    && g.position.y == GROUND_Y
    && OLED_WIDTH - GROUND_X_LENGTH <= g.position.x <= GROUND_X_START
  }

  /** A move shifts the strip by `velocity`, or resets it to exactly 0 when the shift would take it
      below -1072; either way it ends at or right of -1072, on the same line, image at position. */
  lemma MovedGroundBounds(g: GroundView, velocity: int)
    ensures var r := MovedGround(g, velocity);
      && r.position.x >= OLED_WIDTH - GROUND_X_LENGTH
      && r.position.y == g.position.y
      && r.img == Image(RawGround, r.position)
      && (g.position.x + velocity >= -1072 ==> r.position.x == g.position.x + velocity)
      && (g.position.x + velocity < -1072 ==> r.position.x == 0)
  {
  }

  /** Scrolling leftwards keeps the ground on track. */
  lemma MovedGroundKeepsTrack(g: GroundView, velocity: int)
    requires GroundOnTrack(g) && velocity <= 0
    ensures GroundOnTrack(MovedGround(g, velocity))
  {
  }

  /** `n` moves by OBSTACLE_VELOCITY, as the game makes once per frame. */
  function ScrolledGround(g: GroundView, n: nat): GroundView
    decreases n
  {
    if n == 0 then g else MovedGround(ScrolledGround(g, n - 1), OBSTACLE_VELOCITY)
  }

  /** The ground offset is a sawtooth of period 43 with no drift: after n moves from the start
      it is exactly -25 * (n mod 43). */
  lemma {:induction false} GroundSawtooth(n: nat)
    ensures ScrolledGround(InitialGround(), n).position.x == OBSTACLE_VELOCITY * (n % 43)
    ensures ScrolledGround(InitialGround(), n) == GroundView(Image(RawGround, Point(OBSTACLE_VELOCITY * (n % 43), GROUND_Y)), Point(OBSTACLE_VELOCITY * (n % 43), GROUND_Y))
    decreases n
  {
    if n > 0 {
      GroundSawtooth(n - 1);
      if (n - 1) % 43 == 42 {
        assert n % 43 == 0;
      } else {
        assert n % 43 == (n - 1) % 43 + 1;
      }
    }
  }

  /** With velocity -25 from 0 the 42nd move leaves the strip at -1050 and the 43rd resets it to 0. */
  lemma GroundResetsOnCall43()
    ensures ScrolledGround(InitialGround(), 42).position.x == -1050
    ensures ScrolledGround(InitialGround(), 43).position.x == 0
  {
    GroundSawtooth(42);
    GroundSawtooth(43);
  }

  /** The scrolling ground strip. */
  class Ground {
    var img: Image
    var position: Point

    function View(): GroundView
      reads this
    {
      GroundView(img, position)
    }

    /** `Ground::new`. */
    constructor ()
      ensures View() == InitialGround()
    {
      var p := Point(GROUND_X_START, GROUND_Y);
      img := Image(RawGround, p);
      position := p;
    }

    /** `Ground::move_by_velocity`. */
    method MoveByVelocity(velocity: int)
      modifies this
      ensures View() == MovedGround(old(View()), velocity)
    {
      position := position.(x := position.x + velocity);
      if position.x < OLED_WIDTH - GROUND_X_LENGTH {
        position := position.(x := GROUND_X_START);
      }
      img := Image(RawGround, position);
    }
  }
}
