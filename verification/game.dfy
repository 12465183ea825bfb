/** The game state and its transitions: starting a game, the timer tick that
    commits the pending direction and moves the snake, the end of a game with
    its high-score rule, and the arrow-key handler. Every transition is a pure
    function from state to state. */
module Game {
  import opened Board

  /** Interval between ticks at the start of a game, in milliseconds. */
  const InitialSpeed: int := 200
  /** How much shorter the interval gets per food eaten. */
  const SpeedIncrement: int := 5
  /** The interval never drops below this. */
  const MinSpeed: int := 50
  /** Where every game's one-cell snake starts. */
  const StartCell := Point(10, 10)

  /** Everything a game keeps between events. `snake` is head first;
      `nextDirection` is the direction the player asked for, taken over by
      `direction` on the next tick; `speed` is the tick interval. */
  datatype State = State(
    snake: seq<Point>,
    food: Point,
    direction: Point,
    nextDirection: Point,
    score: int,
    speed: int,
    isGameOver: bool,
    highScore: int)

  function Max(a: int, b: int): int {
    if a < b then b else a
  }

  /** A fresh game: a one-cell snake at the start cell, standing still, with
      food at `spawn`, the cell food placement chose. The high score carries
      over from earlier games. */
  function Init(highScore: int, spawn: Point): (s: State)
    requires OnBoard(spawn) && spawn != StartCell
    ensures s.snake == [StartCell] && AllOnBoard(s.snake)
    ensures s.food == spawn && s.food !in s.snake
    ensures !s.isGameOver && s.score == 0 && s.speed == InitialSpeed
    ensures s.direction == Zero && s.nextDirection == Zero
    ensures s.highScore == highScore
  {
    State([StartCell], spawn, Zero, Zero, 0, InitialSpeed, false, highScore)
  }

  /** The first step of a tick: the pending direction takes over unless it is
      zero, or the snake is longer than one cell and the pending direction
      shares a component with the reverse of the current one. */
  function CommitDirection(length: int, direction: Point, next: Point): (r: Point)
    ensures r == direction || r == next
    ensures next == Zero ==> r == direction
    ensures length == 1 && next != Zero ==> r == next
    ensures length != 1 && next == Neg(direction) ==> r == direction
  {
    if next != Zero && (length == 1 || (next.x != -direction.x && next.y != -direction.y))
    then next
    else direction
  }

  /** The direction a tick from `s` moves in. */
  function Heading(s: State): Point {
    CommitDirection(|s.snake|, s.direction, s.nextDirection)
  }

  /** The cell the head moves to on a tick from `s`. */
  function NewHead(s: State): Point
    requires |s.snake| >= 1
  {
    Add(s.snake[0], Heading(s))
  }

  /** The snake once the new head has been put in front and before the tail
      has been dropped: the shape the collision test looks at. */
  function Grown(s: State): seq<Point>
    requires |s.snake| >= 1
  {
    [NewHead(s)] + s.snake
  }

  /** The self-collision test: does the first cell occur again further on? */
  predicate SelfCollision(cells: seq<Point>)
    requires |cells| >= 1
  {
    Occupies(cells[1..], cells[0])
  }

  /** A tick from `s` moves the snake, and onto the food without crashing. */
  predicate Eats(s: State)
    requires |s.snake| >= 1
  {
    Heading(s) != Zero && OnBoard(NewHead(s)) && !SelfCollision(Grown(s))
    && NewHead(s) == s.food
  }

  /** The end of a game: the state is frozen and the high score becomes the
      larger of itself and the final score. */
  function GameOver(s: State): (r: State)
    ensures r.isGameOver
    ensures r.highScore >= s.highScore && r.highScore >= s.score
    ensures r.highScore == s.highScore || r.highScore == s.score
    ensures r.highScore != s.highScore <==> s.score > s.highScore
    ensures r.(isGameOver := s.isGameOver, highScore := s.highScore) == s
  {
    var best := if s.score > s.highScore then s.score else s.highScore;
    s.(isGameOver := true, highScore := best)
  }

  /** One tick of the game (`update`). `spawn` is the cell food placement
      picks when the snake eats; it is unused otherwise. */
  function Update(s: State, spawn: Point): (r: State)
    requires |s.snake| >= 1
    ensures r.direction == Heading(s) && r.nextDirection == s.nextDirection
    // standing still: nothing at all changes
    ensures Heading(s) == Zero ==> r == s
    // moving: the head advances one step and the rest of the body follows
    ensures Heading(s) != Zero ==>
      && |r.snake| >= 1
      && r.snake[0] == Add(s.snake[0], Heading(s))
      && (r.snake[1..] == s.snake || r.snake[1..] == s.snake[..|s.snake| - 1])
    // the game ends exactly on leaving the board or running into the body
    // as it was before the move, tail cell included
    ensures Heading(s) != Zero ==>
      (r.isGameOver <==> s.isGameOver || !OnBoard(r.snake[0]) || r.snake[0] in s.snake)
    ensures Heading(s) != Zero && (!OnBoard(r.snake[0]) || r.snake[0] in s.snake) ==>
      && |r.snake| == |s.snake| + 1
      && r.score == s.score && r.speed == s.speed && r.food == s.food
      && r.highScore == Max(s.highScore, s.score)
    // eating: one point more, a shorter interval, new food, a longer snake
    ensures Heading(s) != Zero && OnBoard(r.snake[0]) && r.snake[0] !in s.snake
            && r.snake[0] == s.food ==>
      && |r.snake| == |s.snake| + 1
      && r.score == s.score + 1 && r.speed == Max(MinSpeed, s.speed - SpeedIncrement)
      && r.food == spawn && r.highScore == s.highScore
    // plain move: the tail cell is vacated and the counters stay
    ensures Heading(s) != Zero && OnBoard(r.snake[0]) && r.snake[0] !in s.snake
            && r.snake[0] != s.food ==>
      && |r.snake| == |s.snake|
      && r.score == s.score && r.speed == s.speed && r.food == s.food
      && r.highScore == s.highScore
  {
    var c := s.(direction := Heading(s));
    if c.direction == Zero then c
    else
      var grown := Grown(s);
      if !OnBoard(grown[0]) || SelfCollision(grown) then
        GameOver(c.(snake := grown))
      else if grown[0] == c.food then
        c.(snake := grown, score := c.score + 1, food := spawn,
           speed := Max(MinSpeed, c.speed - SpeedIncrement))
      else
        c.(snake := grown[..|grown| - 1])
  }

  /** What the repeating timer does: tick, unless the game is over. */
  function Tick(s: State, spawn: Point): (r: State)
    requires |s.snake| >= 1
    ensures s.isGameOver ==> r == s
    ensures !s.isGameOver ==> r == Update(s, spawn)
  {
    if s.isGameOver then s else Update(s, spawn)
  }

  /** The move an arrow key asks for; other keys ask for nothing. */
  function KeyDelta(key: string): (r: Option<Point>)
    ensures r.Some? ==> IsUnit(r.value)
    ensures key == "ArrowUp" ==> r == Some(Up)
    ensures key == "ArrowDown" ==> r == Some(Down)
    ensures key == "ArrowLeft" ==> r == Some(Left)
    ensures key == "ArrowRight" ==> r == Some(Right)
    ensures r.None? <==>
      key != "ArrowUp" && key != "ArrowDown" && key != "ArrowLeft" && key != "ArrowRight"
  {
    if key == "ArrowUp" then Some(Up)
    else if key == "ArrowDown" then Some(Down)
    else if key == "ArrowLeft" then Some(Left)
    else if key == "ArrowRight" then Some(Right)
    else None
  }

  /** The key handler: an arrow key on the axis the snake is not moving along
      becomes the pending direction. Up and Down are accepted while the
      direction's y is zero, Left and Right while its x is zero. */
  function HandleKey(s: State, key: string): (r: State)
    ensures r == s.(nextDirection := r.nextDirection)
    ensures KeyDelta(key).None? ==> r == s
    ensures KeyDelta(key).Some? ==>
      r.nextDirection == KeyDelta(key).value || r.nextDirection == s.nextDirection
  {
    match KeyDelta(key)
    case None => s
    case Some(d) =>
      var accepted := if d.x == 0 then s.direction.y == 0 else s.direction.x == 0;
      if accepted then s.(nextDirection := d) else s
  }

  /** An arrow key is taken exactly when its move is at right angles to the
      current direction (scalar product zero), which includes the case of no
      direction yet; otherwise the pending direction stays as it was. */
  lemma KeyTakenIffCrosswise(s: State, key: string)
    requires KeyDelta(key).Some?
    ensures HandleKey(s, key).nextDirection ==
              (if Dot(KeyDelta(key).value, s.direction) == 0 then KeyDelta(key).value
               else s.nextDirection)
  {
  }
}
