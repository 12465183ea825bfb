/** A game as a sequence of events: key presses and timer ticks, strictly
    interleaved as the single-threaded event loop delivers them. Lemmas here
    carry the one-step facts over whole runs, and a few concrete runs pin
    down the behaviour of particular situations. */
module Play {
  import opened Board
  import opened Game
  import opened Invariants

  /** A key press with its key name, or a timer tick; a tick carries the cell
      food placement would pick if the snake eats on it. */
  datatype Event = KeyDown(key: string) | Timer(spawn: Point)

  function Step(s: State, e: Event): (r: State)
    requires |s.snake| >= 1
    ensures |r.snake| >= |s.snake|
  {
    match e
    case KeyDown(key) => HandleKey(s, key)
    case Timer(spawn) => Tick(s, spawn)
  }

  function Run(s: State, events: seq<Event>): (r: State)
    requires |s.snake| >= 1
    ensures |r.snake| >= |s.snake|
    decreases |events|
  {
    if |events| == 0 then s else Run(Step(s, events[0]), events[1..])
  }

  /** Every tick of the run that eats gets a food cell off the grown snake,
      as food placement guarantees whenever it returns. */
  predicate FoodPlacedOffSnake(s: State, events: seq<Event>)
    requires |s.snake| >= 1
    decreases |events|
  {
    |events| == 0 ||
    ((events[0].Timer? ==> SpawnOk(s, events[0].spawn)) &&
     FoodPlacedOffSnake(Step(s, events[0]), events[1..]))
  }

  /** The invariants hold after any run, score and high score never drop, and
      the tick interval never grows. */
  lemma {:induction false} RunKeepsInvariant(s: State, events: seq<Event>)
    requires Invariant(s) && FoodPlacedOffSnake(s, events)
    ensures Invariant(Run(s, events))
    ensures Run(s, events).score >= s.score
    ensures Run(s, events).highScore >= s.highScore
    ensures Run(s, events).speed <= s.speed
    decreases |events|
  {
    if |events| > 0 {
      match events[0] {
        case KeyDown(key) => HandleKeyPreserves(s, key);
        case Timer(spawn) => TickPreserves(s, spawn);
      }
      RunKeepsInvariant(Step(s, events[0]), events[1..]);
    }
  }

  /** Every state a game reaches from its start satisfies the invariants: on
      a running game the snake's cells are on the board and distinct, and the
      food is off the snake. */
  lemma ReachableInvariant(highScore: int, spawn: Point, events: seq<Event>)
    requires OnBoard(spawn) && spawn != StartCell
    requires FoodPlacedOffSnake(Init(highScore, spawn), events)
    ensures Invariant(Run(Init(highScore, spawn), events))
    ensures Run(Init(highScore, spawn), events).highScore >= highScore
  {
    InitEstablishes(highScore, spawn);
    RunKeepsInvariant(Init(highScore, spawn), events);
  }

  /** The high score never decreases, whatever happens. */
  lemma {:induction false} HighScoreNeverDecreases(s: State, events: seq<Event>)
    requires |s.snake| >= 1
    ensures Run(s, events).highScore >= s.highScore
    decreases |events|
  {
    if |events| > 0 {
      HighScoreNeverDecreases(Step(s, events[0]), events[1..]);
    }
  }

  /** Once a game is over, ticks do nothing and key presses only touch the
      pending direction. */
  lemma {:induction false} FinishedGameStaysFinished(s: State, events: seq<Event>)
    requires |s.snake| >= 1 && s.isGameOver
    ensures Run(s, events) == s.(nextDirection := Run(s, events).nextDirection)
    decreases |events|
  {
    if |events| > 0 {
      FinishedGameStaysFinished(Step(s, events[0]), events[1..]);
    }
  }

  /** Without any key press the snake never moves: a game that has not had a
      direction yet stands still under any number of ticks. */
  lemma {:induction false} IdleGameStandsStill(s: State, events: seq<Event>)
    requires |s.snake| >= 1 && s.direction == Zero && s.nextDirection == Zero
    requires forall e | e in events :: e.Timer?
    ensures Run(s, events) == s
    decreases |events|
  {
    if |events| > 0 {
      assert events[0] in events;
      assert Heading(s) == Zero;
      assert forall e | e in events[1..] :: e in events;
      IdleGameStandsStill(s, events[1..]);
    }
  }

  /** Pressing Right on a fresh game and ticking moves the head from (10,10)
      to (11,10); away from the food the snake stays one cell long. */
  lemma FirstMoveRight(highScore: int, food: Point, spawn: Point)
    requires OnBoard(food) && food != StartCell && food != Point(11, 10)
    ensures Tick(HandleKey(Init(highScore, food), "ArrowRight"), spawn).snake
            == [Point(11, 10)]
  {
    var s1 := State([StartCell], food, Zero, Right, 0, InitialSpeed, false, highScore);
    assert Update(s1, spawn).snake == [Point(11, 10)];
    assert HandleKey(Init(highScore, food), "ArrowRight") == s1 by {
      assert KeyDelta("ArrowRight") == Some(Right);
    }
  }

  /** A three-cell snake with two points, heading right onto the food, grows
      to four cells, scores its third point and ticks 5 ms faster. */
  lemma EatingGrows(spawn: Point)
    ensures var s := State([Point(5, 5), Point(4, 5), Point(3, 5)], Point(6, 5),
                           Right, Right, 2, 190, false, 0);
            var r := Update(s, spawn);
            |r.snake| == 4 && r.score == 3 && r.speed == 185 && r.food == spawn
  {
  }

  /** A Left press while a long snake heads right is dropped, and the snake
      keeps heading right. */
  lemma ReversalRejected(spawn: Point)
    ensures var s := State([Point(5, 5), Point(4, 5), Point(3, 5)], Point(0, 0),
                           Right, Right, 2, 190, false, 0);
            var r := Tick(HandleKey(s, "ArrowLeft"), spawn);
            r.direction == Right && r.snake[0] == Point(6, 5)
  {
    var s := State([Point(5, 5), Point(4, 5), Point(3, 5)], Point(0, 0),
                   Right, Right, 2, 190, false, 0);
    assert "ArrowLeft"[5] != "ArrowDown"[5];
    assert KeyDelta("ArrowLeft") == Some(Left);
    assert HandleKey(s, "ArrowLeft") == s;
    assert Heading(s) == Right;
  }

  /** Moving into the cell the tail is about to leave still ends the game:
      the collision test looks at the body before the tail moves. The snake
      here is a square of four cells whose head, heading left, turns down
      into the tail cell. */
  lemma TailChaseEndsGame(spawn: Point)
    ensures var s := State([Point(0, 0), Point(1, 0), Point(1, 1), Point(0, 1)], Point(5, 5),
                           Left, Down, 3, 185, false, 0);
            Update(s, spawn).isGameOver
  {
  }

  /** Game over with score 7 and high score 5 records the new high score. */
  lemma NewHighScore()
    ensures var s := State([StartCell], Point(0, 0), Right, Right, 7, 165, false, 5);
            GameOver(s).highScore == 7
  {
  }
}
