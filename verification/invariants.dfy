/** What stays true of a game while it runs: the snake is a repetition-free,
    unbroken path of cells on the board whose head is one step ahead of its
    neck, the food lies on a free cell, the snake is one cell longer than the
    score, and the tick interval is determined by the score. */
module Invariants {
  import opened Board
  import opened Game
  import Food

  /** The tick interval after `score` foods: 5 ms shorter per food, floored. */
  function SpeedFor(score: int): int {
    Max(MinSpeed, InitialSpeed - SpeedIncrement * score)
  }

  /** Facts that hold in every state, over or not. */
  predicate Invariant(s: State) {
    && |s.snake| >= 1
    && s.score >= 0
    && s.speed == SpeedFor(s.score)
    && IsDirection(s.direction)
    && IsDirection(s.nextDirection)
    && (!s.isGameOver ==> Playing(s))
  }

  /** Facts that hold while the game runs. After a crash the snake keeps the
      cell it crashed into, so these need not hold any longer. */
  predicate Playing(s: State)
    requires |s.snake| >= 1
  {
    && AllOnBoard(s.snake)
    && Distinct(s.snake)
    && Contiguous(s.snake)
    && OnBoard(s.food)
    && s.food !in s.snake
    && |s.snake| == s.score + 1
    && (|s.snake| > 1 ==> s.snake[0] == Add(s.snake[1], s.direction))
  }

  /** What food placement guarantees of the cell it returns: when a tick
      eats, the new food is a board cell off the grown snake. */
  predicate SpawnOk(s: State, spawn: Point)
    requires |s.snake| >= 1
  {
    Eats(s) ==> OnBoard(spawn) && spawn !in Grown(s)
  }

  lemma InitEstablishes(highScore: int, spawn: Point)
    requires OnBoard(spawn) && spawn != StartCell
    ensures Invariant(Init(highScore, spawn))
  {
  }

  /** The interval stays within [50, 200] for every reachable score. */
  lemma SpeedBounds(s: State)
    requires Invariant(s)
    ensures MinSpeed <= s.speed <= InitialSpeed
  {
  }

  /** Eating once more shortens the interval of the score-determined speed
      exactly as the tick does. */
  lemma SpeedStep(score: int)
    requires score >= 0
    ensures SpeedFor(score + 1) == Max(MinSpeed, SpeedFor(score) - SpeedIncrement)
    ensures SpeedFor(score + 1) <= SpeedFor(score)
  {
  }

  /** For a snake longer than one cell, with unit directions, the pending
      direction takes over exactly when it repeats the current direction or
      switches between the horizontal and the vertical axis: a reversal is
      never committed. */
  lemma CommitTurnsOnly(length: int, direction: Point, next: Point)
    requires length != 1 && IsUnit(direction) && IsUnit(next)
    ensures CommitDirection(length, direction, next) == next <==>
              next == direction || (next.x == 0) != (direction.x == 0)
    ensures CommitDirection(length, direction, next) != Neg(direction)
  {
  }

  /** For unit moves the componentwise test is the plain "not the exact
      reverse" rule: every pending move except the reverse takes over. */
  lemma CommitIsNotReverse(length: int, direction: Point, next: Point)
    requires length != 1 && IsUnit(direction) && IsUnit(next)
    ensures CommitDirection(length, direction, next) ==
              (if next != Neg(direction) then next else direction)
  {
  }

  /** The two rules part only when a snake longer than one cell has no
      direction: then the componentwise test refuses every move. A running
      game never gets there, since its head and neck differ. */
  lemma CommitStuckWithoutDirection(length: int, next: Point)
    requires length != 1 && IsUnit(next)
    ensures CommitDirection(length, Zero, next) == Zero
  {
  }

  /** A running snake longer than one cell always has a unit direction. */
  lemma LongSnakeMoves(s: State)
    requires Invariant(s) && !s.isGameOver && |s.snake| > 1
    ensures IsUnit(s.direction)
  {
    assert s.snake[0] != s.snake[1];
  }

  /** A tick never reverses the snake into its own neck. */
  lemma {:induction false} NeverIntoNeck(s: State)
    requires Invariant(s) && !s.isGameOver && |s.snake| > 1
    ensures NewHead(s) != s.snake[1]
  {
    // head and neck differ, so the snake is moving
    assert s.snake[0] != s.snake[1];
    assert s.direction != Zero;
    // a changed direction passed the guard, so its x differs from the reverse's
    assert Heading(s) == s.direction ||
           (Heading(s) == s.nextDirection && s.nextDirection.x != -s.direction.x);
  }

  /** A tick that eats keeps every invariant: the grown snake gains a fresh
      head cell, and the new food is off it. */
  lemma {:induction false} EatKeepsInvariant(s: State, spawn: Point)
    requires Invariant(s) && !s.isGameOver && SpawnOk(s, spawn)
    requires Heading(s) != Zero && OnBoard(NewHead(s)) && NewHead(s) !in s.snake
    requires NewHead(s) == s.food
    ensures Invariant(Update(s, spawn))
  {
    var h := NewHead(s);
    var next := s.(direction := Heading(s), snake := [h] + s.snake, score := s.score + 1,
                   food := spawn, speed := Max(MinSpeed, s.speed - SpeedIncrement));
    assert Update(s, spawn) == next by {
      assert Grown(s)[1..] == s.snake;
    }
    assert Invariant(next) by {
      assert Adjacent(s.snake[0], h);
      DistinctCons(h, s.snake);
      ContiguousCons(h, s.snake);
      SpeedStep(s.score);
    }
  }

  /** A plain move keeps every invariant: the head enters a free cell and
      the tail cell is given up. */
  lemma {:induction false} MoveKeepsInvariant(s: State, spawn: Point)
    requires Invariant(s) && !s.isGameOver
    requires Heading(s) != Zero && OnBoard(NewHead(s)) && NewHead(s) !in s.snake
    requires NewHead(s) != s.food
    ensures Invariant(Update(s, spawn))
  {
    var h := NewHead(s);
    var t := s.snake[..|s.snake| - 1];
    var next := s.(direction := Heading(s), snake := [h] + t);
    assert Update(s, spawn) == next by {
      var g := Grown(s);
      assert g[1..] == s.snake;
      assert g[..|g| - 1] == [h] + t;
    }
    assert Invariant(next) by {
      assert Adjacent(s.snake[0], h);
      PrefixKeepsShape(s.snake, |s.snake| - 1);
      DistinctCons(h, t);
      ContiguousCons(h, t);
    }
  }

  /** A tick from a running game keeps every invariant, scores never drop,
      and the interval never grows. */
  lemma {:induction false} UpdatePreserves(s: State, spawn: Point)
    requires Invariant(s) && !s.isGameOver && SpawnOk(s, spawn)
    ensures Invariant(Update(s, spawn))
    ensures Update(s, spawn).score >= s.score
    ensures Update(s, spawn).speed <= s.speed
    ensures Update(s, spawn).highScore >= s.highScore
  {
    assert IsDirection(Heading(s));
    if Heading(s) != Zero {
      var h := NewHead(s);
      if !OnBoard(h) || h in s.snake {
      } else if h == s.food {
        EatKeepsInvariant(s, spawn);
      } else {
        MoveKeepsInvariant(s, spawn);
      }
    }
  }

  /** The same for the timer callback, which also covers finished games. */
  lemma TickPreserves(s: State, spawn: Point)
    requires Invariant(s) && SpawnOk(s, spawn)
    ensures Invariant(Tick(s, spawn))
    ensures Tick(s, spawn).score >= s.score
    ensures Tick(s, spawn).speed <= s.speed
    ensures Tick(s, spawn).highScore >= s.highScore
  {
    if !s.isGameOver {
      UpdatePreserves(s, spawn);
    }
  }

  /** Key presses keep every invariant: they only touch the pending
      direction, and only ever with a unit move. */
  lemma HandleKeyPreserves(s: State, key: string)
    requires Invariant(s)
    ensures Invariant(HandleKey(s, key))
  {
    var r := HandleKey(s, key);
    assert r.nextDirection == s.nextDirection || Some(r.nextDirection) == KeyDelta(key);
    assert r == s.(nextDirection := r.nextDirection);
  }

  /** While the snake moves, a key press never queues the exact reverse of
      the current direction: reversal keys are dropped. */
  lemma KeyNeverReverses(s: State, key: string)
    requires IsUnit(s.direction)
    ensures HandleKey(s, key).nextDirection != s.nextDirection ==>
              HandleKey(s, key).nextDirection != Neg(s.direction)
  {
  }

  /** Food placement that succeeds meets the requirement a tick puts on the
      new food cell. */
  lemma GeneratedFoodIsSpawn(s: State, draws: seq<Food.Draw>)
    requires |s.snake| >= 1 && Food.ValidDraws(draws)
    requires Food.GenerateFood(Grown(s), draws).Some?
    ensures SpawnOk(s, Food.GenerateFood(Grown(s), draws).value)
  {
  }
}
