/** The rules of the snake simulation as pure functions over a snapshot of
    the game: cells, directions, the tick, the restart, the steering
    gesture and the high-score commit, with the properties they keep. */
module SnakeRules {

  /** One cell of the board. The game stores pixel coordinates that are a
      whole number of cells; here a cell is its column and row. */
  datatype Cell = Cell(x: int, y: int)

  datatype Direction = Left | Right | Up | Down

  datatype GameState = Initial | Running | GameOver

  /** Everything the tick, the restart and the steering read or write. */
  datatype World = World(
    body: seq<Cell>,      // head first
    food: Cell,
    score: nat,
    highScore: int,
    direction: Direction,
    state: GameState)

  /** Hold time in milliseconds after which a release starts a game. */
  const LongPressMillis: int := 1000

  /** The cell a new game starts from. */
  const StartCell: Cell := Cell(5, 5)

  function Abs(v: int): (r: nat)
    ensures r == v || r == -v
  {
    if v < 0 then -v else v
  }

  function AbsReal(v: real): (r: real)
    ensures r >= 0.0 && (r == v || r == -v)
  {
    if v < 0.0 then -v else v
  }

  /** The neighbour of `c` one cell away in direction `d`; screen rows
      grow downwards, so Up decreases y. */
  function Next(c: Cell, d: Direction): (r: Cell)
    ensures Abs(r.x - c.x) + Abs(r.y - c.y) == 1
    ensures d == Left || d == Right <==> r.y == c.y
    ensures d == Right ==> r.x > c.x
    ensures d == Left ==> r.x < c.x
    ensures d == Down ==> r.y > c.y
    ensures d == Up ==> r.y < c.y
  {
    match d
    case Right => Cell(c.x + 1, c.y)
    case Left => Cell(c.x - 1, c.y)
    case Up => Cell(c.x, c.y - 1)
    case Down => Cell(c.x, c.y + 1)
  }

  predicate InBounds(c: Cell, cols: int, rows: int) {
    0 <= c.x < cols && 0 <= c.y < rows
  }

  /** Where food may be placed: each coordinate is drawn from [0, maxX)
      and [0, maxY). */
  predicate FoodInRange(c: Cell, maxX: int, maxY: int) {
    0 <= c.x < maxX && 0 <= c.y < maxY
  }

  /** The self-collision test: `c` occupies some body cell other than the
      head (the head itself is never compared). */
  predicate HitsBody(body: seq<Cell>, c: Cell): (hit: bool)
    ensures hit <==> exists i :: 1 <= i < |body| && body[i] == c
    ensures hit ==> |body| >= 2
  {
    |body| > 0 && c in body[1..]
  }

  predicate Distinct(body: seq<Cell>) {
    forall i, j :: 0 <= i < j < |body| ==> body[i] != body[j]
  }

  /** The body lies on the board and no two of its cells coincide. */
  predicate WellFormed(body: seq<Cell>, cols: int, rows: int) {
    (forall i :: 0 <= i < |body| ==> InBounds(body[i], cols, rows)) && Distinct(body)
  }

  /** The invariant of a game on a `cols` x `rows` board whose food is
      drawn from [0, cols - 1) x [0, rows - 1): a well-formed body, food in
      range, and one body cell more than the score once a game started. */
  predicate Consistent(w: World, cols: int, rows: int) {
    && WellFormed(w.body, cols, rows)
    && FoodInRange(w.food, cols - 1, rows - 1)
    && (w.body == [] ==> w.score == 0)
    && (w.body != [] ==> |w.body| == w.score + 1)
  }

  /** The high score after a game ends with `score`. */
  function CommitHighScore(score: int, highScore: int): (r: int)
    ensures r >= highScore && r >= score
    ensures r == highScore || r == score
    ensures r != highScore <==> score > highScore
  {
    if score > highScore then score else highScore
  }

  /** The direction a drag by (dx, dy) selects: the axis the drag moved
      further along wins, and a tie goes to the vertical axis. */
  function DragDirection(dx: real, dy: real): (d: Direction)
    ensures forall e: Direction :: Along(e, dx, dy) <= Along(d, dx, dy)
    ensures AbsReal(dx) == AbsReal(dy) ==> d == Up || d == Down
    ensures AbsReal(dx) > AbsReal(dy) ==> d == Left || d == Right
    ensures dx == 0.0 && dy == 0.0 ==> d == Up
  {
    if AbsReal(dx) > AbsReal(dy) then
      (if dx > 0.0 then Right else Left)
    else
      (if dy > 0.0 then Down else Up)
  }

  /** How far a drag by (dx, dy) goes in direction `d`. */
  function Along(d: Direction, dx: real, dy: real): real {
    match d
    case Right => dx
    case Left => -dx
    case Down => dy
    case Up => -dy
  }

  /** One tick of the simulation. `newFood` is the cell the random
      generator yields should the food be eaten. */
  function Tick(w: World, cols: int, rows: int, newFood: Cell): (r: World)
    ensures r.direction == w.direction
    ensures r.state == w.state || r.state == GameOver
    ensures r.highScore >= w.highScore
    ensures w.body != [] ==> r.body != [] && (r.body == w.body || r.body[1..] <= w.body)
  {
    if w.body == [] then w
    else
      var head := Next(w.body[0], w.direction);
      if !InBounds(head, cols, rows) || HitsBody(w.body, head) then
        w.(state := GameOver, highScore := CommitHighScore(w.score, w.highScore))
      else if head == w.food then
        w.(body := [head] + w.body, score := w.score + 1, food := newFood)
      else
        w.(body := [head] + w.body[..|w.body| - 1])
  }

  /** One pass of the game loop: the world advances only while running. */
  function Step(w: World, cols: int, rows: int, newFood: Cell): (r: World)
    ensures w.state != Running ==> r == w
    ensures r.direction == w.direction && r.highScore >= w.highScore
  {
    if w.state == Running then Tick(w, cols, rows, newFood) else w
  }

  /** A new game: a one-cell snake heading right, score 0, fresh food. */
  function Reset(w: World, newFood: Cell): (r: World)
    ensures |r.body| == 1 && r.body[0] == StartCell && r.score == 0
    ensures r.direction == Right && r.food == newFood
    ensures r.state == w.state && r.highScore == w.highScore
  {
    w.(body := [StartCell], direction := Right, score := 0, food := newFood)
  }

  /** Releasing the finger after holding it `held` milliseconds. */
  function Release(w: World, held: int, newFood: Cell): (r: World)
    ensures r == w || (r.state == Running && w.state != Running && held >= LongPressMillis)
    ensures r.highScore == w.highScore
  {
    if held >= LongPressMillis && w.state != Running then
      Reset(w, newFood).(state := Running)
    else w
  }

  /** Dragging the finger by (dx, dy) since it went down. */
  function Steer(w: World, dx: real, dy: real): (r: World)
    ensures r.body == w.body && r.food == w.food && r.score == w.score
    ensures r.highScore == w.highScore && r.state == w.state
  {
    w.(direction := DragDirection(dx, dy))
  }

  /** Successive passes of the game loop, the i-th drawing foods[i]. */
  function Play(w: World, cols: int, rows: int, foods: seq<Cell>): (r: World)
    ensures r.direction == w.direction
    ensures r.state == w.state || r.state == GameOver
    decreases |foods|
  {
    if foods == [] then w
    else Play(Step(w, cols, rows, foods[0]), cols, rows, foods[1..])
  }
}
