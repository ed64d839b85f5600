# mini-snake: the snake simulation, modelled in Dafny

This project models the game core of the mini-snake Android game
(`SnakeGame.java`). A snake moves on a grid of cells. It grows by eating
food. The game ends when the snake runs off the board or into its own body.
The game object has three states: INITIAL, RUNNING and GAME_OVER. A long
press starts or restarts a game, and a drag steers the snake.

The project has three modules:

- `SnakeRules` (`snake_rules.dfy`) holds the rules as pure functions over a
  `World` snapshot. These are `Tick` (the body of `updateGame`), `Step` (one
  pass of the game loop), `Reset`/`Release` (the long-press restart),
  `Steer`/`DragDirection` (the drag), `CommitHighScore` (the high-score
  commit) and `Play` (any number of loop passes). It also defines the
  invariant `Consistent`: the body is on the board and has no repeated
  cell, the food is in its range, and the body has one cell more than the
  score once a game has started.
- `SnakeProperties` (`snake_properties.dfy`) holds the lemmas that state
  what a tick, a restart, a drag and the game loop promise.
- `SnakeGame` (`snake_game.dfy`) holds the class `SnakeGame`. Like the Java
  object, it keeps the body as a list that it updates in place, and it
  keeps the food, the scores, the direction, the state and the touch fields.
  `UpdateGame`, `RunOnce`, `TouchUp` and `TouchMove` are each proved to
  give the world of the matching rule (`Tick`, `Step`, `Release`,
  `Steer`). The constructor, these four, `TouchDown`, `OnTouchEvent`,
  `SaveHighScore` and `ResetGame` establish or keep the object invariant
  `Valid()`. `RandomizeFood` does not mention `Valid()`, because the
  constructor calls it before the first food cell exists; it states only
  that the new food is in range.
  `Contains` is the index loop of the self-collision test.

Representation choices:

- Coordinates are whole cells, with a cell size of 1.
- The board is `cols` x `rows` cells, so a cell is on the board when
  `0 <= x < cols` and `0 <= y < rows`.
- Food is drawn from `[0, maxX) x [0, maxY)`, where `maxX = cols - 1` and
  `maxY = rows - 1`. As a result, food never lands in the last column or the
  last row.
- The food-hit test `|head - food| < gridSize` becomes cell equality.
- The random draw is a nondeterministic choice inside `RandomizeFood`.
- The clock is a `now` parameter in milliseconds.
- The preference store is a ghost log `persisted` that records every value
  written to it.

Two behaviours of the tick are worth stating directly.

- Eating keeps the tail. `[(5,5)]` heading right onto food at `(6,5)`
  becomes `[(6,5), (5,5)]`. See `SnakeProperties.ScenarioEat`.
- The collision test skips index 0 but includes the tail cell, even though
  a move without food would vacate that cell in the same tick. See
  `SnakeProperties.TickHitsTail` and `SnakeProperties.HitsBodyIgnoresHead`.

## Model

| member | source | states |
|---|---|---|
| SnakeRules.Next | app/src/main/java/de/nazmi/minisnake/SnakeGame.java:82-96 | the new head is exactly one cell from the old head (Manhattan distance 1), on the same row for LEFT/RIGHT, to the right for RIGHT, to the left for LEFT, below for DOWN and above for UP |
| SnakeRules.CommitHighScore | app/src/main/java/de/nazmi/minisnake/SnakeGame.java:221-226 | the committed high score is at least the old high score and at least the score, is one of the two, and differs from the old one exactly when the score beats it |
| SnakeRules.DragDirection | app/src/main/java/de/nazmi/minisnake/SnakeGame.java:182-187 | the chosen direction is one along which the drag goes furthest; a tie in size picks UP or DOWN; a larger horizontal size picks LEFT or RIGHT; a zero drag picks UP |
| SnakeRules.HitsBody | app/src/main/java/de/nazmi/minisnake/SnakeGame.java:229-237 | the collision test holds exactly when the cell occurs at some index of at least 1, and so only for a body of at least two cells; this is the reference that `Contains` is proved against, and `HitsBodyIgnoresHead` states that index 0 plays no part |
| SnakeRules.Tick | app/src/main/java/de/nazmi/minisnake/SnakeGame.java:77-112 | a tick never changes the direction or lowers the high score; it keeps the state or sets GAME_OVER; a non-empty body stays non-empty and is either kept whole or becomes a new head in front of a prefix of the old body. Its branch-by-branch behaviour is stated by `TickEmptyIsNoOp`, `TickMoves`, `TickEats`, `TickHitsWall`, `TickHitsSelf`, `TickHitsTail`, `TickGrowth`, `TickHighScore` and `TickPreservesConsistent` |
| SnakeRules.Step | app/src/main/java/de/nazmi/minisnake/SnakeGame.java:65-67 | outside RUNNING a loop pass leaves the world unchanged; a pass never changes the direction or lowers the high score; `StepPreservesConsistent` states that it keeps the invariant |
| SnakeRules.Reset | app/src/main/java/de/nazmi/minisnake/SnakeGame.java:198-204 | a reset leaves one body cell, the start cell (5,5), with direction RIGHT, score 0 and the newly drawn food, and keeps the state and the high score; `ReleaseStarts` states the full restart |
| SnakeRules.Release | app/src/main/java/de/nazmi/minisnake/SnakeGame.java:174-180 | a release either changes nothing, or turns a game that was not RUNNING into a RUNNING one after a press of at least 1000 ms; it never changes the high score; `ReleaseStarts`, `ReleaseIgnored` and `ReleasePreservesConsistent` state the rest |
| SnakeRules.Steer | app/src/main/java/de/nazmi/minisnake/SnakeGame.java:182-187 | a drag leaves the body, food, score, high score and state unchanged; `SteerSetsDirection` and `SteerCanReverse` state the direction it sets |
| SnakeRules.Play | app/src/main/java/de/nazmi/minisnake/SnakeGame.java:64-74 | any number of loop passes never change the direction, and leave the state as it was or GAME_OVER; `PlayFrozenUnlessRunning`, `PlayPreservesConsistent` and `PlayMonotone` state the rest |
| SnakeGame.Contains | app/src/main/java/de/nazmi/minisnake/SnakeGame.java:229-237 | the scan returns true exactly when the collision test `HitsBody` holds, that is, when the point occurs at some index of at least 1; index 0 is never compared |
| SnakeProperties.TickEmptyIsNoOp | app/src/main/java/de/nazmi/minisnake/SnakeGame.java:78-80 | a tick on an empty body leaves the world unchanged |
| SnakeProperties.TickMoves | app/src/main/java/de/nazmi/minisnake/SnakeGame.java:82-111 | a free move that misses the food makes the body the new head followed by the old body without its last cell; the length, score, high score, food, state and direction are unchanged |
| SnakeProperties.TickEats | app/src/main/java/de/nazmi/minisnake/SnakeGame.java:104-108 | a free move onto the food keeps the whole old body behind the new head; the length and the score both rise by exactly 1, and the food becomes the newly drawn cell |
| SnakeProperties.TickHitsWall | app/src/main/java/de/nazmi/minisnake/SnakeGame.java:98-101 | a new head off the board sets GAME_OVER; the body, score and food are unchanged; the high score becomes the committed maximum |
| SnakeProperties.TickHitsSelf | app/src/main/java/de/nazmi/minisnake/SnakeGame.java:98-101 | a new head on a body cell at index 1 or more sets GAME_OVER with the same effects as a wall hit |
| SnakeProperties.TickHitsTail | app/src/main/java/de/nazmi/minisnake/SnakeGame.java:98 | moving onto the current tail cell is a collision, even though a move without food would have vacated that cell |
| SnakeProperties.HitsBodyIgnoresHead | app/src/main/java/de/nazmi/minisnake/SnakeGame.java:229-237 | the collision answer does not depend on the head cell: replacing it by any cell gives the same answer |
| SnakeProperties.TickGrowth | app/src/main/java/de/nazmi/minisnake/SnakeGame.java:104-111 | a tick grows the body by 0 or 1 cells and raises the score by 0 or 1; the body grows exactly when the score rises |
| SnakeProperties.TickHighScore | app/src/main/java/de/nazmi/minisnake/SnakeGame.java:98-101 | a tick never lowers the high score; the high score changes only on a collision whose score beats it, and then becomes that score; after the collision that ends a game, the high score is at least the score |
| SnakeProperties.PrependKeepsWellFormed | app/src/main/java/de/nazmi/minisnake/SnakeGame.java:104 | putting a new head on the board that is not yet in the body keeps the body on the board with no repeated cell |
| SnakeProperties.TickPreservesConsistent | app/src/main/java/de/nazmi/minisnake/SnakeGame.java:77-112 | if the body is on the board with no repeated cell, the food is in range and the length is the score plus 1 before a tick, all of this still holds after the tick, whether the snake moved, grew or the game ended |
| SnakeProperties.ReleaseStarts | app/src/main/java/de/nazmi/minisnake/SnakeGame.java:174-180 | a release after a press of at least 1000 ms outside a running game sets the body to [(5,5)], the direction to RIGHT, the score to 0, new food and the state RUNNING, and keeps the high score |
| SnakeProperties.ReleaseIgnored | app/src/main/java/de/nazmi/minisnake/SnakeGame.java:175-176 | a release after a shorter press, or during a running game, changes nothing |
| SnakeProperties.ReleasePreservesConsistent | app/src/main/java/de/nazmi/minisnake/SnakeGame.java:198-204 | a restart on a board that contains the start cell gives a consistent world |
| SnakeProperties.SteerSetsDirection | app/src/main/java/de/nazmi/minisnake/SnakeGame.java:182-187 | a drag replaces the direction with the drag's direction and changes nothing else |
| SnakeProperties.SteerCanReverse | app/src/main/java/de/nazmi/minisnake/SnakeGame.java:185-187 | there is no reversal check: a left drag while heading right is accepted, and the next tick runs into the neck and ends the game |
| SnakeProperties.PlayFrozenUnlessRunning | app/src/main/java/de/nazmi/minisnake/SnakeGame.java:64-67 | outside RUNNING, any number of loop passes leave the world unchanged |
| SnakeProperties.StepPreservesConsistent | app/src/main/java/de/nazmi/minisnake/SnakeGame.java:65-67 | one loop pass keeps the world consistent |
| SnakeProperties.PlayPreservesConsistent | app/src/main/java/de/nazmi/minisnake/SnakeGame.java:64-67 | any number of loop passes, with food drawn in range, keep the world consistent |
| SnakeProperties.PlayMonotone | app/src/main/java/de/nazmi/minisnake/SnakeGame.java:64-67 | over any number of loop passes, the high score never falls and the body grows by at most one cell per pass |
| SnakeProperties.BodyFitsBoard | app/src/main/java/de/nazmi/minisnake/SnakeGame.java:98 | a body on the board with no repeated cell has at most cols * rows cells |
| SnakeProperties.ScoreBelowBoardSize | app/src/main/java/de/nazmi/minisnake/SnakeGame.java:107 | in a consistent world the score is below cols * rows, so the 32-bit score cannot overflow |
| SnakeProperties.ScenarioEat | app/src/main/java/de/nazmi/minisnake/SnakeGame.java:104-108 | on a 10x10 board, [(5,5)] heading right onto food at (6,5) becomes [(6,5),(5,5)] with score 1, still RUNNING |
| SnakeProperties.ScenarioWall | app/src/main/java/de/nazmi/minisnake/SnakeGame.java:98-101 | heading left from (0,5) sets GAME_OVER, keeps the body, and the high score becomes max(old high score, 0) |
| SnakeProperties.ScenarioSelf | app/src/main/java/de/nazmi/minisnake/SnakeGame.java:98-101 | [(5,5),(4,5),(3,5)] heading left runs into (4,5) and sets GAME_OVER; the score and high score are kept |
| SnakeGame.SnakeGame.constructor | app/src/main/java/de/nazmi/minisnake/SnakeGame.java:35-49 | a new game has no body, score 0, the stored high score, direction RIGHT, state INITIAL, food in range, nothing written to the store, and the touch fields at 0.0, 0.0 and 0, so a release with no earlier press counts the time since 0 |
| SnakeGame.SnakeGame.RandomizeFood | app/src/main/java/de/nazmi/minisnake/SnakeGame.java:193-196 | the new food lies in [0, maxX) x [0, maxY) |
| SnakeGame.SnakeGame.SaveHighScore | app/src/main/java/de/nazmi/minisnake/SnakeGame.java:221-226 | the high score becomes the commit of the score over the old high score; the store is written once, with the score, exactly when the score beats the old high score; the invariant is kept |
| SnakeGame.SnakeGame.ResetGame | app/src/main/java/de/nazmi/minisnake/SnakeGame.java:198-204 | the new state is the reset of the old one: body [(5,5)], direction RIGHT, score 0, food in range; the invariant is kept |
| SnakeGame.SnakeGame.UpdateGame | app/src/main/java/de/nazmi/minisnake/SnakeGame.java:77-112 | the in-place update of the list and the fields gives exactly the world of the tick rule and keeps the object invariant; the store is written once, with the new high score, exactly when the high score changed |
| SnakeGame.SnakeGame.RunOnce | app/src/main/java/de/nazmi/minisnake/SnakeGame.java:64-67 | one loop pass ticks only in RUNNING and keeps the invariant; the store is written once, with the new high score, exactly when the high score changed |
| SnakeGame.SnakeGame.TouchDown | app/src/main/java/de/nazmi/minisnake/SnakeGame.java:169-173 | a press records its position and time and keeps the invariant |
| SnakeGame.SnakeGame.TouchUp | app/src/main/java/de/nazmi/minisnake/SnakeGame.java:174-181 | a release follows the release rule, with the hold time taken as now minus the press time, and keeps the invariant |
| SnakeGame.SnakeGame.TouchMove | app/src/main/java/de/nazmi/minisnake/SnakeGame.java:182-188 | a drag follows the steering rule for the offset from the press position, and keeps the invariant |
| SnakeGame.SnakeGame.OnTouchEvent | app/src/main/java/de/nazmi/minisnake/SnakeGame.java:166-191 | each event kind is sent to its handler; every event is consumed; only a press changes the touch fields; the store is never written |

## Left out

- The game-loop thread is not modelled: `run`'s 200 ms sleep, `startGame`/`stopGame` with `join`, and the `isRunning` flag. These are concurrency and timing. `RunOnce` models one pass, and `Play` models any number of passes.
- Each touch event and each loop pass is modelled as one atomic step, and steps happen one after another. In the source, the game loop and the touch handlers run on two threads, so their field updates can interleave. The model does not capture such interleavings. For example, a long-press release can reset the score between the game-over assignment and the high-score commit, and then the ended game's score is never committed.
- `drawGame` is not modelled: the canvas drawing, the text layout and the 900 ms food blink driven by the wall clock. These are cosmetic.
- The preference store's API is not modelled. Its reads and writes become the constructor's `storedHighScore` parameter and the ghost log `persisted`.
- Pixel geometry is not modelled: `gridSize = min(w, h) / 26` and the float-to-int casts in `surfaceCreated`. The board is given as whole `cols` and `rows`, with `maxX = cols - 1` and `maxY = rows - 1`. This is exact when the width is a whole number of cells. With a fractional ratio, the source also allows a partly visible extra column or row, and the model does not.
- Float arithmetic is not modelled. Float rounding and NaN in the drag deltas, and rounding drift in pixel coordinates, are absent. Coordinates are exact integers, and the drag deltas are exact reals.
- `java.util.Random` and the decoding of Android `MotionEvent` values are not modelled. The random draw is a nondeterministic choice in range, and a touch is given as a decoded `Touch` value together with the time.
- SnakeGame.SnakeGame.constructor: it requires a board of at least 6 x 6 cells, so that the start cell (5,5) is on it. It also covers `surfaceCreated`'s first food draw. The source's geometry always gives at least 26 cells on the shorter side.
- SnakeGame.SnakeGame.TouchUp: it does not model the 64-bit overflow of `currentTimeMillis() - lastPressTime`, because times are unbounded integers.
