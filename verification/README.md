# Snake game core in Dafny

A model of the state machine of a single-player grid snake game
(`index.tsx`): a 20×20 board, a snake stored head first, one food cell, a
direction the snake moves in, a pending direction set by the arrow keys, a
score, a tick interval ("speed") that shrinks by 5 ms per food down to 50 ms,
a game-over flag and a high score that survives from game to game.

Every transition is a pure function on an immutable `State` record:

- `Board` — cells and moves (`Point`), the board bounds, the `some`-style
  membership scan `Occupies`, and facts about repetition-free and unbroken
  cell sequences.
- `Food` — `generateFood` as rejection sampling over a given stream of
  `Math.random()` pairs: the first drawn cell off the snake, or `None` when
  the stream runs out (the game's loop would still be running).
- `Game` — `Init`, the direction commit, `Update` (the tick), `Tick` (the
  timer callback with its game-over guard), `GameOver` and `HandleKey`.
- `Invariants` — what holds while a game runs, and that every transition
  keeps it.
- `Play` — runs as sequences of key presses and timer ticks, the run-level
  lemmas, and a few concrete situations.

The fresh food cell that `update` places after eating is a parameter
(`spawn`) of `Update`; the preservation lemmas require it to be on the board
and off the grown snake, which is exactly what `GenerateFood` guarantees
whenever it returns (`Invariants.GeneratedFoodIsSpawn`).

The direction commit is modelled as written at index.tsx:64-70: the pending
direction takes over when it is non-zero and either the snake has one cell or
*both* of its components differ from the reverse of the current direction.
For unit moves this has the same effect as "not the exact reverse": every
pending move except the reverse takes over, a pending move equal to the
direction changing nothing (`Invariants.CommitIsNotReverse`). The two rules
part only when a snake longer than one cell has no direction, where the
componentwise test refuses every move (`Invariants.CommitStuckWithoutDirection`);
a running game never reaches that state (`Invariants.LongSnakeMoves`).
JavaScript's `0 === -0` makes plain integer comparison exact here.

The key handler has no game-over guard in the code, so the model has none
either: after a game ends, key presses still change the pending direction
and nothing else (`Play.FinishedGameStaysFinished`).

## Model

| member | source | states |
|---|---|---|
| `Board.Occupies` | index.tsx:145-148 | the `some` scan over a cell list is true exactly when the cell is a member of the list |
| `Food.Scale` | index.tsx:135-136 | `Math.floor(r * BOARD_SIZE)` for `r` in [0,1) is a coordinate in [0,20) and is the floor of `r * 20` |
| `Food.SampleCell` | index.tsx:134-137 | every drawn cell is on the board |
| `Food.GenerateFood` | index.tsx:132-143 | a placed food cell is on the board and off the snake; it is the first drawn cell off the snake, every earlier draw having hit the snake; no cell is placed exactly when every draw hits the snake |
| `Food.FullBoardNeverPlaces` | index.tsx:132-143 | when the snake covers every board cell no draw is ever accepted, so the loop cannot exit |
| `Game.Init` | index.tsx:33-51 | a new game has a one-cell snake at (10,10), no direction, score 0, interval 200, is running, keeps the high score, and has food on a free board cell |
| `Game.CommitDirection` | index.tsx:63-70 | the direction after the commit is the old one or the pending one; a zero pending direction never commits; with one cell any non-zero pending direction commits; with more cells the exact reverse never commits |
| `Game.GameOver` | index.tsx:150-161 | the game is marked over; the high score becomes the larger of high score and score, changes only when the score is strictly greater, never decreases; nothing else changes |
| `Game.Update` | index.tsx:62-104 | with no direction after the commit nothing changes; otherwise the new head is the old head plus the direction, the rest of the body is the old snake or the old snake without its tail; the game ends exactly when the new head is off the board or on any cell of the pre-move snake, tail included, leaving the grown snake; eating adds exactly one point, sets the interval to max(50, interval-5), places the new food and keeps the tail; otherwise score, interval and food stay and the length is unchanged |
| `Game.Tick` | index.tsx:55-59 | the interval callback leaves a finished game exactly as it is, and on a running game performs one tick |
| `Game.KeyDelta` | index.tsx:164-176 | ArrowUp names (0,-1), ArrowDown (0,1), ArrowLeft (-1,0), ArrowRight (1,0); every other key names no move |
| `Board.UnitsAreTheFourMoves` | index.tsx:164-176 | the unit moves the invariants speak of are exactly the four moves the arrow keys name |
| `Game.HandleKey` | index.tsx:163-178 | a key press changes at most the pending direction; non-arrow keys change nothing; an arrow key either sets its move as pending or leaves the state alone |
| `Game.KeyTakenIffCrosswise` | index.tsx:163-178 | an arrow key is taken exactly when its move is at right angles to the current direction (zero scalar product), which holds for any key while there is no direction yet |
| `Invariants.InitEstablishes` | index.tsx:33-51 | a new game satisfies every running-game invariant |
| `Invariants.SpeedBounds` | index.tsx:96 | the interval of a reachable state lies in [50, 200] |
| `Invariants.SpeedStep` | index.tsx:96 | one more food moves the score-determined interval exactly as `max(50, speed - 5)` does, and never lengthens it |
| `Invariants.CommitTurnsOnly` | index.tsx:64-70 | on a snake longer than one cell, with unit moves, the pending direction commits exactly when it repeats the direction or switches axis; the committed direction is never the reverse |
| `Invariants.CommitIsNotReverse` | index.tsx:64-70 | on a snake longer than one cell, with unit moves, the pending direction takes over exactly when it is not the reverse of the current one |
| `Invariants.CommitStuckWithoutDirection` | index.tsx:64-70 | on a snake longer than one cell with no direction, the componentwise test refuses every pending move |
| `Invariants.LongSnakeMoves` | index.tsx:64-76 | a running snake longer than one cell always has one of the four moves as its direction, so the case above never arises in play |
| `Invariants.NeverIntoNeck` | index.tsx:64-76 | on a running snake longer than one cell the new head is never the neck cell |
| `Invariants.EatKeepsInvariant` | index.tsx:91-97 | an eating tick keeps the snake on the board, repetition-free and unbroken, the food off the snake, the length one more than the score, and the interval determined by the score |
| `Invariants.MoveKeepsInvariant` | index.tsx:98-100 | a plain move keeps the same invariants while giving up the tail cell |
| `Invariants.UpdatePreserves` | index.tsx:62-104 | a tick of a running game keeps every invariant, never lowers score or high score, and never lengthens the interval |
| `Invariants.TickPreserves` | index.tsx:55-59 | the same for the timer callback, finished games included |
| `Invariants.HandleKeyPreserves` | index.tsx:163-178 | a key press keeps every invariant |
| `Invariants.KeyNeverReverses` | index.tsx:163-178 | while the snake moves, a key press never queues the exact reverse of the current direction |
| `Invariants.GeneratedFoodIsSpawn` | index.tsx:91-94 | a cell placed by food placement on the grown snake meets what an eating tick needs of the new food |
| `Play.Step` | index.tsx:181 | handling one event never shortens the snake |
| `Play.Run` | index.tsx:55-59 | a run of events never shortens the snake |
| `Play.RunKeepsInvariant` | index.tsx:55-59 | after any run of key presses and ticks the invariants hold, score and high score have not dropped and the interval has not grown |
| `Play.ReachableInvariant` | index.tsx:33-51 | every state reachable from a new game satisfies the invariants: while running, cells are on the board and distinct and the food is off the snake |
| `Play.HighScoreNeverDecreases` | index.tsx:156-160 | the high score never decreases over any run |
| `Play.FinishedGameStaysFinished` | index.tsx:55-58 | once a game is over, any run changes at most the pending direction |
| `Play.IdleGameStandsStill` | index.tsx:72-73 | with no direction and no pending direction, any number of ticks leaves the state unchanged |
| `Play.FirstMoveRight` | index.tsx:72-76 | Right then a tick on a new game puts the head at (11,10) and, away from the food, keeps one cell |
| `Play.EatingGrows` | index.tsx:91-97 | a three-cell snake with score 2 eating grows to four cells, scores 3 and ticks at 185 ms |
| `Play.ReversalRejected` | index.tsx:171-172 | Left while a long snake heads right is dropped and the snake moves on to the right |
| `Play.TailChaseEndsGame` | index.tsx:79-88 | moving into the cell the tail is about to leave ends the game |
| `Play.NewHighScore` | index.tsx:156-157 | game over with score 7 and high score 5 records 7 |

## Left out

- DOM lookups, text and class toggling, the start and play-again buttons
  (index.tsx:13-20, 43-47, 93, 153-155, 159, 180-195): user-interface
  plumbing with no effect on the game state.
- Canvas drawing in `draw` and `showInitialScreen` (index.tsx:106-130,
  191-197): a projection of the state that changes nothing.
- `setInterval`/`clearInterval` timing in `startGameLoop` (index.tsx:53-60):
  only the interval value and the game-over guard of the callback are
  modelled; a run is an explicit sequence of ticks and key presses.
- `localStorage` (index.tsx:28, 158): the high score is a plain state field,
  and `Init` takes its starting value as a parameter; parsing the stored
  string is not modelled.
- `Math.random` (index.tsx:135-136): the random values are inputs, modelled
  as mathematical reals in [0,1) rather than IEEE doubles.
- Food.GenerateFood: the unbounded retry loop is modelled over a finite
  stream of draws; `None` stands for a loop that has not exited yet, so
  termination (which needs luck, and fails on a full board) is not claimed.
- Game.HandleKey: the model starts at `init`. The key listener is attached
  at load (index.tsx:181) while `direction` is still undefined
  (index.tsx:25), so an arrow key pressed before the first game reads a
  field of `undefined` at index.tsx:166-175 and throws, changing nothing;
  every modelled `State` has a direction, so this path is not represented.
- Game.Update: the new food cell is a parameter instead of a call to
  food placement; the invariant lemmas require it to be free, as food
  placement guarantees whenever it returns.
- JavaScript numbers are modelled as unbounded integers; score and interval
  stay far below the range where doubles lose precision.
