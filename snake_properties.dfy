/** What the tick, the restart, the steering and the game loop promise,
    stated over the pure rules. */
module SnakeProperties {
  import opened SnakeRules

  // ---------------------------------------------------------------------
  // One tick

  /** With no body there is nothing to move: the tick changes nothing. */
  lemma TickEmptyIsNoOp(w: World, cols: int, rows: int, newFood: Cell)
    requires w.body == []
    ensures Tick(w, cols, rows, newFood) == w
  {
  }

  /** A free move that misses the food: the head advances one cell in the
      current direction, the tail cell is dropped, nothing else changes. */
  lemma TickMoves(w: World, cols: int, rows: int, newFood: Cell)
    requires w.body != []
    requires InBounds(Next(w.body[0], w.direction), cols, rows)
    requires !HitsBody(w.body, Next(w.body[0], w.direction))
    requires Next(w.body[0], w.direction) != w.food
    ensures var r := Tick(w, cols, rows, newFood);
      && r.body == [Next(w.body[0], w.direction)] + w.body[..|w.body| - 1]
      && |r.body| == |w.body|
      && r.score == w.score && r.highScore == w.highScore
      && r.food == w.food && r.state == w.state && r.direction == w.direction
  {
  }

  /** A free move onto the food: the tail is kept, so the body grows by
      exactly one cell, the score by exactly one, and the food moves to
      the freshly drawn cell. */
  lemma TickEats(w: World, cols: int, rows: int, newFood: Cell)
    requires w.body != []
    requires InBounds(Next(w.body[0], w.direction), cols, rows)
    requires !HitsBody(w.body, Next(w.body[0], w.direction))
    requires Next(w.body[0], w.direction) == w.food
    ensures var r := Tick(w, cols, rows, newFood);
      && r.body == [w.food] + w.body
      && |r.body| == |w.body| + 1
      && r.score == w.score + 1
      && r.food == newFood
      && r.state == w.state && r.highScore == w.highScore
  {
  }

  /** Running off the board ends the game; the body, score and food stay
      as they were and the high score becomes the larger of the two. */
  lemma TickHitsWall(w: World, cols: int, rows: int, newFood: Cell)
    requires w.body != []
    requires !InBounds(Next(w.body[0], w.direction), cols, rows)
    ensures var r := Tick(w, cols, rows, newFood);
      && r.state == GameOver
      && r.body == w.body && r.score == w.score && r.food == w.food
      && r.highScore == CommitHighScore(w.score, w.highScore)
  {
  }

  /** Running into a body cell other than the head ends the game the same
      way. */
  lemma TickHitsSelf(w: World, cols: int, rows: int, newFood: Cell)
    requires w.body != []
    requires HitsBody(w.body, Next(w.body[0], w.direction))
    ensures var r := Tick(w, cols, rows, newFood);
      && r.state == GameOver
      && r.body == w.body && r.score == w.score && r.food == w.food
      && r.highScore == CommitHighScore(w.score, w.highScore)
  {
  }

  /** The tail cell counts as an obstacle even though a move without food
      would vacate it in the same tick. */
  lemma TickHitsTail(w: World, cols: int, rows: int, newFood: Cell)
    requires |w.body| >= 2
    requires Next(w.body[0], w.direction) == w.body[|w.body| - 1]
    ensures Tick(w, cols, rows, newFood).state == GameOver
  {
    assert w.body[1..][|w.body| - 2] == w.body[|w.body| - 1];
  }

  /** The collision test never looks at the head: replacing the head cell
      by any other cell gives the same answer. */
  lemma HitsBodyIgnoresHead(body: seq<Cell>, other: Cell, c: Cell)
    requires body != []
    ensures HitsBody(body, c) == HitsBody([other] + body[1..], c)
  {
    assert ([other] + body[1..])[1..] == body[1..];
  }

  /** A tick grows the body by at most one cell, and it grows exactly when
      the score goes up. */
  lemma TickGrowth(w: World, cols: int, rows: int, newFood: Cell)
    ensures var r := Tick(w, cols, rows, newFood);
      && (|r.body| == |w.body| || |r.body| == |w.body| + 1)
      && (|r.body| == |w.body| + 1 <==> r.score == w.score + 1)
      && (r.score == w.score || r.score == w.score + 1)
  {
  }

  /** The high score never falls; it changes only when the tick ends the
      game with a score above it, and then becomes that score. */
  lemma TickHighScore(w: World, cols: int, rows: int, newFood: Cell)
    ensures var r := Tick(w, cols, rows, newFood);
      && r.highScore >= w.highScore
      && (r.highScore != w.highScore ==> r.state == GameOver && r.highScore == w.score > w.highScore)
      && (r.state == GameOver && w.state != GameOver ==> r.highScore >= r.score)
  {
  }

  /** Prepending a cell that is on the board and not yet in the body keeps
      a body well formed. */
  lemma PrependKeepsWellFormed(body: seq<Cell>, c: Cell, cols: int, rows: int)
    requires WellFormed(body, cols, rows)
    requires InBounds(c, cols, rows) && c !in body
    ensures WellFormed([c] + body, cols, rows)
  {
    var b := [c] + body;
    forall i, j | 0 <= i < j < |b| ensures b[i] != b[j] {
      if i == 0 {
        assert b[j] == body[j - 1];
      } else {
        assert b[i] == body[i - 1] && b[j] == body[j - 1];
      }
    }
  }

  /** A tick keeps the body on the board and self-avoiding, keeps the
      food in range, and keeps one body cell more than the score. */
  lemma TickPreservesConsistent(w: World, cols: int, rows: int, newFood: Cell)
    requires Consistent(w, cols, rows)
    requires FoodInRange(newFood, cols - 1, rows - 1)
    ensures Consistent(Tick(w, cols, rows, newFood), cols, rows)
  {
    if w.body != [] {
      var head := Next(w.body[0], w.direction);
      if InBounds(head, cols, rows) && !HitsBody(w.body, head) {
        assert head != w.body[0];
        assert head !in w.body by {
          forall i | 0 <= i < |w.body| ensures w.body[i] != head {
            if i > 0 { assert w.body[i] == w.body[1..][i - 1]; }
          }
        }
        PrependKeepsWellFormed(w.body, head, cols, rows);
        if head != w.food {
          var kept := w.body[..|w.body| - 1];
          assert [head] + kept == ([head] + w.body)[..|w.body|];
        }
      }
    }
  }

  // ---------------------------------------------------------------------
  // Restart and steering

  /** A release after a long enough press outside a running game starts a
      new one: one body cell at the start cell, heading right, score 0,
      freshly drawn food; the high score is kept. */
  lemma ReleaseStarts(w: World, held: int, newFood: Cell)
    requires held >= LongPressMillis && w.state != Running
    ensures var r := Release(w, held, newFood);
      && r.body == [Cell(5, 5)] && r.direction == Right && r.score == 0
      && r.food == newFood && r.state == Running && r.highScore == w.highScore
  {
  }

  /** A short press, or any press during a game, changes nothing. */
  lemma ReleaseIgnored(w: World, held: int, newFood: Cell)
    requires held < LongPressMillis || w.state == Running
    ensures Release(w, held, newFood) == w
  {
  }

  /** Starting a game yields a consistent world when the start cell is on
      the board. */
  lemma ReleasePreservesConsistent(w: World, held: int, newFood: Cell, cols: int, rows: int)
    requires Consistent(w, cols, rows)
    requires 5 < cols && 5 < rows
    requires FoodInRange(newFood, cols - 1, rows - 1)
    ensures Consistent(Release(w, held, newFood), cols, rows)
  {
  }

  /** Steering replaces the direction and nothing else; no check forbids
      turning straight back onto the neck. */
  lemma SteerSetsDirection(w: World, dx: real, dy: real)
    ensures var r := Steer(w, dx, dy);
      && r.direction == DragDirection(dx, dy)
      && r == w.(direction := r.direction)
  {
  }

  /** The steering gesture can reverse the snake: a leftward drag while
      heading right is accepted, and the next tick then runs into the
      neck cell. */
  lemma SteerCanReverse(cols: int, rows: int, newFood: Cell)
    ensures var w := World([Cell(6, 5), Cell(5, 5)], Cell(0, 0), 1, 0, Right, Running);
      var r := Steer(w, -3.0, 1.0);
      && r.direction == Left
      && Tick(r, cols, rows, newFood).state == GameOver
  {
    var w := World([Cell(6, 5), Cell(5, 5)], Cell(0, 0), 1, 0, Right, Running);
    assert Steer(w, -3.0, 1.0).body[1..] == [Cell(5, 5)];
  }

  // ---------------------------------------------------------------------
  // The game loop

  /** Outside a running game the loop leaves the world untouched. */
  lemma PlayFrozenUnlessRunning(w: World, cols: int, rows: int, foods: seq<Cell>)
    requires w.state != Running
    ensures Play(w, cols, rows, foods) == w
    decreases |foods|
  {
    if foods != [] {
      PlayFrozenUnlessRunning(w, cols, rows, foods[1..]);
    }
  }

  lemma StepPreservesConsistent(w: World, cols: int, rows: int, newFood: Cell)
    requires Consistent(w, cols, rows)
    requires FoodInRange(newFood, cols - 1, rows - 1)
    ensures Consistent(Step(w, cols, rows, newFood), cols, rows)
  {
    if w.state == Running {
      TickPreservesConsistent(w, cols, rows, newFood);
    }
  }

  /** However many passes the loop makes, the world stays consistent. */
  lemma {:induction false} PlayPreservesConsistent(w: World, cols: int, rows: int, foods: seq<Cell>)
    requires Consistent(w, cols, rows)
    requires forall i :: 0 <= i < |foods| ==> FoodInRange(foods[i], cols - 1, rows - 1)
    ensures Consistent(Play(w, cols, rows, foods), cols, rows)
    decreases |foods|
  {
    if foods != [] {
      StepPreservesConsistent(w, cols, rows, foods[0]);
      PlayPreservesConsistent(Step(w, cols, rows, foods[0]), cols, rows, foods[1..]);
    }
  }

  /** However many passes the loop makes, the high score never falls and
      the body grows by at most one cell per pass. */
  lemma {:induction false} PlayMonotone(w: World, cols: int, rows: int, foods: seq<Cell>)
    ensures Play(w, cols, rows, foods).highScore >= w.highScore
    ensures |Play(w, cols, rows, foods).body| <= |w.body| + |foods|
    decreases |foods|
  {
    if foods != [] {
      var s := Step(w, cols, rows, foods[0]);
      if w.state == Running {
        TickHighScore(w, cols, rows, foods[0]);
        TickGrowth(w, cols, rows, foods[0]);
      }
      PlayMonotone(s, cols, rows, foods[1..]);
    }
  }

  // ---------------------------------------------------------------------
  // The board bounds the snake, and so the score

  /** All cells of a `cols` x `rows` board. */
  function Board(cols: nat, rows: nat): set<Cell> {
    set x, y | 0 <= x < cols && 0 <= y < rows :: Cell(x, y)
  }

  /** All cells of row `y` left of column `cols`. */
  function RowCells(cols: nat, y: int): set<Cell> {
    set x | 0 <= x < cols :: Cell(x, y)
  }

  lemma {:induction false} RowSize(cols: nat, y: int)
    ensures |RowCells(cols, y)| == cols
  {
    if cols > 0 {
      RowSize(cols - 1, y);
      assert RowCells(cols, y) == RowCells(cols - 1, y) + {Cell(cols - 1, y)};
    } else {
      assert RowCells(0, y) == {};
    }
  }

  lemma {:induction false} BoardSize(cols: nat, rows: nat)
    ensures |Board(cols, rows)| == cols * rows
  {
    if rows > 0 {
      BoardSize(cols, rows - 1);
      RowSize(cols, rows - 1);
      assert Board(cols, rows) == Board(cols, rows - 1) + RowCells(cols, rows - 1);
      assert Board(cols, rows - 1) * RowCells(cols, rows - 1) == {};
      assert cols * rows == cols * (rows - 1) + cols;
    } else {
      assert Board(cols, 0) == {};
    }
  }

  /** A sequence of distinct cells drawn from `cells` is no longer than
      `cells` has members. */
  lemma {:induction false} DistinctFits(body: seq<Cell>, cells: set<Cell>)
    requires Distinct(body)
    requires forall i :: 0 <= i < |body| ==> body[i] in cells
    ensures |body| <= |cells|
  {
    if body != [] {
      var rest := body[1..];
      forall i | 0 <= i < |rest| ensures rest[i] in cells - {body[0]} {
        assert rest[i] == body[i + 1];
      }
      DistinctFits(rest, cells - {body[0]});
    }
  }

  /** A well-formed body has at most as many cells as the board. */
  lemma BodyFitsBoard(body: seq<Cell>, cols: nat, rows: nat)
    requires WellFormed(body, cols, rows)
    ensures |body| <= cols * rows
  {
    forall i | 0 <= i < |body| ensures body[i] in Board(cols, rows) {
      var c := body[i];
      assert c == Cell(c.x, c.y);
    }
    DistinctFits(body, Board(cols, rows));
    BoardSize(cols, rows);
  }

  /** In a consistent world the score stays below the number of cells of
      the board, so a 32-bit score cannot overflow on any real screen. */
  lemma ScoreBelowBoardSize(w: World, cols: nat, rows: nat)
    requires Consistent(w, cols, rows)
    requires 0 < cols && 0 < rows
    ensures w.score < cols * rows
  {
    BodyFitsBoard(w.body, cols, rows);
  }

  // ---------------------------------------------------------------------
  // Worked scenarios on a 10 x 10 board

  /** Eating from (5,5) heading right onto food at (6,5): the body becomes
      [(6,5), (5,5)] and the score 1; the game goes on. */
  lemma ScenarioEat(newFood: Cell)
    ensures var w := World([Cell(5, 5)], Cell(6, 5), 0, 0, Right, Running);
      var r := Tick(w, 10, 10, newFood);
      && r.body == [Cell(6, 5), Cell(5, 5)] && r.score == 1 && r.state == Running
      && r.food == newFood
  {
  }

  /** Heading left from (0,5) leaves the board: game over. */
  lemma ScenarioWall(newFood: Cell, highScore: int)
    ensures var w := World([Cell(0, 5)], Cell(3, 3), 0, highScore, Left, Running);
      var r := Tick(w, 10, 10, newFood);
      && r.state == GameOver && r.body == w.body
      && r.highScore == (if highScore < 0 then 0 else highScore)
  {
  }

  /** Heading left with body [(5,5), (4,5), (3,5)] runs into (4,5): game
      over. */
  lemma ScenarioSelf(newFood: Cell)
    ensures var w := World([Cell(5, 5), Cell(4, 5), Cell(3, 5)], Cell(1, 1), 2, 7, Left, Running);
      var r := Tick(w, 10, 10, newFood);
      && r.state == GameOver && r.highScore == 7 && r.score == 2
  {
    var w := World([Cell(5, 5), Cell(4, 5), Cell(3, 5)], Cell(1, 1), 2, 7, Left, Running);
    assert w.body[1..][0] == Cell(4, 5);
  }
}
