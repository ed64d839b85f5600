/** The game object: the snake body as a list updated in place, the food,
    the scores, the state machine and the touch handling, each method
    proved against the rules of module SnakeRules. */
module SnakeGame {
  import opened SnakeRules
  import SnakeProperties

  /** The self-collision scan: does `point` occur in `list` at an index of
      at least 1? Index 0, the current head, is skipped. */
  method Contains(list: seq<Cell>, point: Cell) returns (found: bool)
    ensures found <==> HitsBody(list, point)
  {
    var i := 1;
    while i < |list|
      invariant 1 <= i <= |list| || (list == [] && i == 1)
      invariant forall k :: 1 <= k < i && k < |list| ==> list[k] != point
    {
      if list[i] == point {
        assert list[1..][i - 1] == point;
        return true;
      }
      i := i + 1;
    }
    if list != [] {
      assert forall k :: 0 <= k < |list[1..]| ==> list[1..][k] == list[k + 1];
    }
    return false;
  }

  /** The kinds of touch event the game reacts to; every other action is
      `OtherAction`. Positions are screen coordinates in cells. */
  datatype Touch = ActionDown(x: real, y: real) | ActionUp | ActionMove(x: real, y: real) | OtherAction

  class SnakeGame {
    /** Board size in cells, and the exclusive bounds of the food draw. */
    const cols: int
    const rows: int
    const maxX: int
    const maxY: int

    var body: seq<Cell>
    var food: Cell
    var score: nat
    var highScore: int
    var direction: Direction
    var state: GameState

    var initialTouchX: real
    var initialTouchY: real
    var lastPressTime: int

    /** The high score the preference store held when the game was made,
        and every value written to it since, oldest first. */
    ghost const storedAtStart: int
    ghost var persisted: seq<int>

    ghost function Snapshot(): World
      reads this
    {
      World(body, food, score, highScore, direction, state)
    }

    /** The store always holds the in-memory high score. */
    ghost predicate StoreAgrees()
      reads this
    {
      highScore == if persisted == [] then storedAtStart else persisted[|persisted| - 1]
    }

    ghost predicate Valid()
      reads this
    {
      && 5 < cols && 5 < rows
      && maxX == cols - 1 && maxY == rows - 1
      && Consistent(Snapshot(), cols, rows)
      && StoreAgrees()
    }

    /** A new game view on a `cols` x `rows` board whose preference store
        holds `storedHighScore`: no snake yet, heading right, waiting for a
        start, with a first food cell drawn. */
    constructor (cols: int, rows: int, storedHighScore: int)
      requires 5 < cols && 5 < rows
      ensures Valid()
      ensures this.cols == cols && this.rows == rows
      ensures body == [] && score == 0 && highScore == storedHighScore
      ensures direction == Right && state == Initial
      ensures persisted == []
      ensures initialTouchX == 0.0 && initialTouchY == 0.0 && lastPressTime == 0
    {
      this.cols := cols;
      this.rows := rows;
      maxX := cols - 1;
      maxY := rows - 1;
      body := [];
      score := 0;
      highScore := storedHighScore;
      storedAtStart := storedHighScore;
      persisted := [];
      direction := Right;
      state := Initial;
      initialTouchX, initialTouchY, lastPressTime := 0.0, 0.0, 0;
      new;
      RandomizeFood();
    }

    /** Draws a new food cell from [0, maxX) x [0, maxY). */
    method RandomizeFood()
      requires 0 < maxX && 0 < maxY
      modifies this`food
      ensures FoodInRange(food, maxX, maxY)
    {
      var fx: int :| 0 <= fx < maxX;
      var fy: int :| 0 <= fy < maxY;
      food := Cell(fx, fy);
    }

    /** Commits the score as high score when it beats it, writing the new
        value to the store; otherwise nothing is written. */
    method SaveHighScore()
      requires Valid()
      modifies this`highScore, this`persisted
      ensures Valid()
      ensures highScore == CommitHighScore(score, old(highScore))
      ensures persisted == old(persisted) + if score > old(highScore) then [score] else []
    {
      if score > highScore {
        highScore := score;
        persisted := persisted + [highScore];
      }
    }

    /** Puts a one-cell snake on the start cell, heading right, with score
        0 and fresh food. */
    method ResetGame()
      requires Valid()
      modifies this`body, this`direction, this`score, this`food
      ensures Valid()
      ensures Snapshot() == Reset(old(Snapshot()), food)
      ensures FoodInRange(food, maxX, maxY)
    {
      body := [];
      body := body + [StartCell];
      direction := Right;
      score := 0;
      RandomizeFood();
    }

    /** One tick of the simulation. */
    method UpdateGame()
      requires Valid()
      modifies this`body, this`state, this`score, this`highScore, this`food, this`persisted
      ensures Valid()
      ensures Snapshot() == Tick(old(Snapshot()), cols, rows, food)
      ensures persisted == old(persisted) + if highScore == old(highScore) then [] else [highScore]
    {
      if body == [] {
        return;
      }
      ghost var w := Snapshot();
      var head := Next(body[0], direction);
      var collided := !InBounds(head, cols, rows);
      if !collided {
        collided := Contains(body, head);
      }
      if collided {
        state := GameOver;
        SaveHighScore();
        SnakeProperties.TickPreservesConsistent(w, cols, rows, food);
        return;
      }
      body := [head] + body;
      if head == food {
        score := score + 1;
        RandomizeFood();
      } else {
        body := body[..|body| - 1];
      }
      SnakeProperties.TickPreservesConsistent(w, cols, rows, food);
    }

    /** One pass of the game loop without drawing or sleeping: tick only
        while a game is running. */
    method RunOnce()
      requires Valid()
      modifies this`body, this`state, this`score, this`highScore, this`food, this`persisted
      ensures Valid()
      ensures Snapshot() == Step(old(Snapshot()), cols, rows, food)
      ensures persisted == old(persisted) + if highScore == old(highScore) then [] else [highScore]
    {
      if state == Running {
        UpdateGame();
      }
    }

    /** Finger down at (x, y) at time `now` (milliseconds). */
    method TouchDown(x: real, y: real, now: int)
      requires Valid()
      modifies this`initialTouchX, this`initialTouchY, this`lastPressTime
      ensures Valid()
      ensures initialTouchX == x && initialTouchY == y && lastPressTime == now
    {
      initialTouchX := x;
      initialTouchY := y;
      lastPressTime := now;
    }

    /** Finger up at time `now`: a press held at least a second starts a
        new game unless one is running. */
    method TouchUp(now: int)
      requires Valid()
      modifies this`body, this`direction, this`score, this`food, this`state
      ensures Valid()
      ensures Snapshot() == Release(old(Snapshot()), now - lastPressTime, food)
    {
      if now - lastPressTime >= LongPressMillis {
        if state != Running {
          ghost var w := Snapshot();
          ResetGame();
          state := Running;
          SnakeProperties.ReleasePreservesConsistent(w, now - lastPressTime, food, cols, rows);
        }
      }
    }

    /** Finger moved to (x, y): steer along the drag since the press. */
    method TouchMove(x: real, y: real)
      requires Valid()
      modifies this`direction
      ensures Valid()
      ensures Snapshot() == Steer(old(Snapshot()), x - initialTouchX, y - initialTouchY)
    {
      direction := DragDirection(x - initialTouchX, y - initialTouchY);
    }

    /** Dispatches a touch event at time `now`; every event is consumed. */
    method OnTouchEvent(event: Touch, now: int) returns (consumed: bool)
      requires Valid()
      modifies this
      ensures Valid() && consumed
      ensures event.ActionDown? ==>
        (Snapshot() == old(Snapshot())
         && initialTouchX == event.x && initialTouchY == event.y && lastPressTime == now)
      ensures event.ActionUp? ==> Snapshot() == Release(old(Snapshot()), now - old(lastPressTime), food)
      ensures event.ActionMove? ==>
        Snapshot() == Steer(old(Snapshot()), event.x - old(initialTouchX), event.y - old(initialTouchY))
      ensures event.OtherAction? ==> Snapshot() == old(Snapshot())
      ensures !event.ActionDown? ==>
        (initialTouchX == old(initialTouchX) && initialTouchY == old(initialTouchY)
         && lastPressTime == old(lastPressTime))
      ensures persisted == old(persisted)
    {
      match event {
        case ActionDown(x, y) => TouchDown(x, y, now);
        case ActionUp => TouchUp(now);
        case ActionMove(x, y) => TouchMove(x, y);
        case OtherAction =>
      }
      consumed := true;
    }
  }
}
