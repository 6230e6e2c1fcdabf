// The snake mini-game of the TV console (js/tv-screen.js): the state set up by
// startSnakeGame, its direction filter on key presses, and the step rule that
// updateSnakeGame runs once every `speed` frames on a 25 x 25 grid.

module Snake {

  datatype Cell = Cell(x: int, y: int)

  const GridSize: int := 25
  /** Frames between two steps of the snake. */
  const Speed: int := 8

  predicate InGrid(c: Cell)
  {
    0 <= c.x < GridSize && 0 <= c.y < GridSize
  }

  function Plus(c: Cell, d: Cell): Cell
  {
    Cell(c.x + d.x, c.y + d.y)
  }

  function Opposite(d: Cell): Cell
  {
    Cell(-d.x, -d.y)
  }

  /** One of the four directions up, down, left, right. */
  predicate IsUnit(d: Cell)
  {
    (d.x == 0 && (d.y == 1 || d.y == -1)) || (d.y == 0 && (d.x == 1 || d.x == -1))
  }

  /** `b` is one step up, down, left or right of `a`. */
  predicate Adjacent(a: Cell, b: Cell)
  {
    IsUnit(Cell(b.x - a.x, b.y - a.y))
  }

  /** Consecutive segments touch along a side. */
  predicate Chain(body: seq<Cell>)
  {
    forall i, j | 0 <= i && j == i + 1 < |body| :: Adjacent(body[i], body[j])
  }

  predicate Distinct(body: seq<Cell>)
  {
    forall i, j | 0 <= i < j < |body| :: body[i] != body[j]
  }

  /** What every body the step rule produces looks like: non-empty, on the grid, no
    * segment twice, each segment next to the one before it. */
  predicate Shaped(body: seq<Cell>)
  {
    |body| > 0 && (forall c | c in body :: InGrid(c)) && Distinct(body) && Chain(body)
  }

  /** `Shaped`, stated segment by segment from the head. */
  predicate WellFormed(body: seq<Cell>)
    decreases |body|
  {
    |body| > 0 && InGrid(body[0]) && body[0] !in body[1..] &&
    (|body| == 1 || (Adjacent(body[0], body[1]) && WellFormed(body[1..])))
  }

  /** The two descriptions agree. */
  lemma {:induction false} WellFormedIsShaped(body: seq<Cell>)
    ensures WellFormed(body) <==> Shaped(body)
    decreases |body|
  {
    if |body| > 1 {
      var tail := body[1..];
      WellFormedIsShaped(tail);
      if WellFormed(body) {
        forall i, j | 0 <= i < j < |body|
          ensures body[i] != body[j]
        {
          if i > 0 {
            assert body[i] == tail[i - 1] && body[j] == tail[j - 1];
          } else {
            assert body[j] == tail[j - 1];
          }
        }
        forall i, j | 0 <= i && j == i + 1 < |body|
          ensures Adjacent(body[i], body[j])
        {
          if i > 0 {
            assert body[i] == tail[i - 1] && body[j] == tail[j - 1];
          }
        }
        forall c | c in body
          ensures InGrid(c)
        {
          if c != body[0] {
            assert c in tail;
          }
        }
      }
      if Shaped(body) {
        forall i, j | 0 <= i < j < |tail|
          ensures tail[i] != tail[j]
        {
          assert tail[i] == body[i + 1] && tail[j] == body[j + 1];
        }
        forall i, j | 0 <= i && j == i + 1 < |tail|
          ensures Adjacent(tail[i], tail[j])
        {
          assert tail[i] == body[i + 1] && tail[j] == body[j + 1];
        }
        assert Shaped(tail);
        assert Adjacent(body[0], body[1]);
      }
    }
  }

  /** The step ends the game when the new head leaves the grid or lands on a segment
    * of the current body (the tail included, although it would move away). */
  predicate Blocked(body: seq<Cell>, head: Cell)
  {
    !InGrid(head) || head in body
  }

  /** The body after an unblocked step to `head`: the head is pushed on the front and,
    * unless it lands on the food, the last segment is dropped. */
  function Advanced(body: seq<Cell>, head: Cell, food: Cell): (r: seq<Cell>)
    requires |body| > 0
    ensures |r| == if head == food then |body| + 1 else |body|
    ensures r[0] == head && r[1..] <= body
  {
    if head == food then [head] + body else [head] + body[..|body| - 1]
  }

  /** An unblocked step to a neighbouring cell keeps the body well formed. */
  lemma AdvanceKeepsShape(body: seq<Cell>, d: Cell, food: Cell)
    requires WellFormed(body) && IsUnit(d)
    requires !Blocked(body, Plus(body[0], d))
    ensures WellFormed(Advanced(body, Plus(body[0], d), food))
  {
    WellFormedIsShaped(body);
    var head := Plus(body[0], d);
    var r := Advanced(body, head, food);
    assert r[1..] <= body;
    forall i, j | 0 <= i && j == i + 1 < |r|
      ensures Adjacent(r[i], r[j])
    {
      if i == 0 {
        assert r[1] == body[0] && r[0] == head;
      } else {
        assert r[i] == body[i - 1] && r[j] == body[i];
      }
    }
    forall i, j | 0 <= i < j < |r|
      ensures r[i] != r[j]
    {
      assert r[j] == body[j - 1];
      if i > 0 {
        assert r[i] == body[i - 1];
      }
    }
    assert Shaped(r);
    WellFormedIsShaped(r);
  }

  datatype Key = Up | Down | Left | Right | Escape | Other

  /** The keys the game listens to: w / s / a / d and the arrow keys, and Escape. */
  function KeyOf(key: string): (r: Key)
    ensures r == Escape <==> key == "Escape"
    ensures r == Other <==> key !in {"w", "s", "a", "d", "ArrowUp", "ArrowDown", "ArrowLeft", "ArrowRight", "Escape"}
    ensures key in {"W", "S", "A", "D"} ==> r == Other
  {
    if key == "w" || key == "ArrowUp" then Up
    else if key == "s" || key == "ArrowDown" then Down
    else if key == "a" || key == "ArrowLeft" then Left
    else if key == "d" || key == "ArrowRight" then Right
    else if key == "Escape" then Escape
    else Other
  }

  /** The direction filter of the key handler: a vertical key is taken only while the
    * snake moves horizontally, and a horizontal key only while it moves vertically. */
  function Turn(dir: Cell, nextDir: Cell, key: Key): (r: Cell)
    ensures r == nextDir || (IsUnit(r) && (r.x == 0 ==> dir.y == 0) && (r.y == 0 ==> dir.x == 0))
  {
    match key
    case Up => if dir.y == 0 then Cell(0, -1) else nextDir
    case Down => if dir.y == 0 then Cell(0, 1) else nextDir
    case Left => if dir.x == 0 then Cell(-1, 0) else nextDir
    case Right => if dir.x == 0 then Cell(1, 0) else nextDir
    case _ => nextDir
  }

  /** No key can make the queued direction the reverse of the current one. */
  lemma TurnNeverReverses(dir: Cell, nextDir: Cell, key: Key)
    requires IsUnit(dir) && IsUnit(nextDir) && nextDir != Opposite(dir)
    ensures IsUnit(Turn(dir, nextDir, key)) && Turn(dir, nextDir, key) != Opposite(dir)
  {
  }

  /** What the game keeps true between frames. While the game runs, the segment behind
    * the head is where the head came from, and the queued direction never points back. */
  ghost predicate SnakeInv(body: seq<Cell>, dir: Cell, nextDir: Cell, gameOver: bool)
  {
    WellFormed(body) && IsUnit(dir) && IsUnit(nextDir) && nextDir != Opposite(dir) &&
    (!gameOver && |body| >= 2 ==> body[1] == Plus(body[0], Opposite(dir)))
  }

  /** Because of the filter, the next step never runs the head into the segment right behind it. */
  lemma NeverIntoNeck(body: seq<Cell>, dir: Cell, nextDir: Cell)
    requires SnakeInv(body, dir, nextDir, false) && |body| >= 2
    ensures Plus(body[0], nextDir) != body[1]
  {
  }

  /** A step that is not blocked keeps the invariant, with the queued direction as the
    * new current one and as the new queued one. */
  lemma StepKeepsInv(body: seq<Cell>, dir: Cell, nextDir: Cell, food: Cell)
    requires SnakeInv(body, dir, nextDir, false)
    requires !Blocked(body, Plus(body[0], nextDir))
    ensures SnakeInv(Advanced(body, Plus(body[0], nextDir), food), nextDir, nextDir, false)
  {
    var head := Plus(body[0], nextDir);
    var r := Advanced(body, head, food);
    AdvanceKeepsShape(body, nextDir, food);
    NeverOwnOpposite(nextDir);
    if |r| >= 2 {
      assert r[1] == body[0] == Plus(head, Opposite(nextDir));
    }
  }

  lemma NeverOwnOpposite(d: Cell)
    requires IsUnit(d)
    ensures d != Opposite(d)
  {
  }

  /** A blocked step ends the game and keeps the invariant. */
  lemma CrashKeepsInv(body: seq<Cell>, dir: Cell, nextDir: Cell)
    requires SnakeInv(body, dir, nextDir, false)
    ensures SnakeInv(body, nextDir, nextDir, true)
  {
    NeverOwnOpposite(nextDir);
  }

  class SnakeGame {
    var body: seq<Cell>
    var dir: Cell
    var nextDir: Cell
    var food: Cell
    var score: int
    var gameOver: bool
    var counter: int

    ghost predicate Valid()
      reads this
    {
      SnakeInv(body, dir, nextDir, gameOver) && score >= 0
    }

    /** startSnakeGame: one segment at (10, 10) heading right, food at (15, 15). */
    constructor ()
      ensures Valid()
      ensures body == [Cell(10, 10)] && dir == Cell(1, 0) && nextDir == Cell(1, 0)
      ensures food == Cell(15, 15) && score == 0 && !gameOver && counter == 0
    {
      body := [Cell(10, 10)];
      dir := Cell(1, 0);
      nextDir := Cell(1, 0);
      food := Cell(15, 15);
      score := 0;
      gameOver := false;
      counter := 0;
    }

    /** A key press during the game (see KeyOf); returns true for Escape, which leaves the game. */
    method HandleKey(k: Key) returns (exit: bool)
      requires Valid()
      modifies this
      ensures Valid()
      ensures nextDir == Turn(old(dir), old(nextDir), k)
      ensures body == old(body) && dir == old(dir) && food == old(food)
      ensures score == old(score) && gameOver == old(gameOver) && counter == old(counter)
      ensures exit <==> k == Escape
    {
      var turned := Turn(dir, nextDir, k);
      TurnNeverReverses(dir, nextDir, k);
      assert SnakeInv(body, dir, turned, gameOver);
      nextDir := turned;
      exit := k == Escape;
    }

    /** One animation frame. Every `Speed` frames, unless the game is over, the snake takes
      * a step (see Step); `newFood` is where the next food appears when the snake eats
      * (a random cell of the grid in the game). */
    method Frame(newFood: Cell)
      requires Valid() && InGrid(newFood)
      modifies this
      ensures Valid() && nextDir == old(nextDir)
      ensures !(old(counter) + 1 >= Speed && !old(gameOver)) ==>
                counter == old(counter) + 1 && body == old(body) && dir == old(dir) &&
                food == old(food) && score == old(score) && gameOver == old(gameOver)
      ensures old(counter) + 1 >= Speed && !old(gameOver) ==>
                counter == 0 && StepTaken(old(body), old(nextDir), old(food), old(score), newFood)
    {
      counter := counter + 1;
      if counter >= Speed && !gameOver {
        counter := 0;
        Step(newFood);
      }
    }

    /** The new state after one step, in terms of the state before it: the direction
      * becomes the queued one; a blocked head ends the game and leaves the body as it
      * was; otherwise the body advances and eating scores a point and moves the food. */
    ghost predicate StepTaken(body0: seq<Cell>, nextDir0: Cell, food0: Cell, score0: int, newFood: Cell)
      requires |body0| > 0
      reads this
    {
      dir == nextDir0 &&
      var head := Plus(body0[0], nextDir0);
      if Blocked(body0, head) then
        gameOver && body == body0 && food == food0 && score == score0
      else
        !gameOver && body == Advanced(body0, head, food0) &&
        score == (if head == food0 then score0 + 1 else score0) &&
        food == (if head == food0 then newFood else food0)
    }

    method Step(newFood: Cell)
      requires Valid() && !gameOver && InGrid(newFood)
      modifies this
      ensures Valid() && nextDir == old(nextDir) && counter == old(counter)
      ensures StepTaken(old(body), old(nextDir), old(food), old(score), newFood)
    {
      var head := Plus(body[0], nextDir);
      if Blocked(body, head) {
        Crash();
      } else {
        Advance(head, newFood);
      }
    }

    /** The blocked step: the snake turns and the game ends. */
    method Crash()
      requires Valid() && !gameOver
      modifies this
      ensures Valid() && gameOver && dir == old(nextDir) && nextDir == old(nextDir)
      ensures body == old(body) && food == old(food) && score == old(score) && counter == old(counter)
    {
      CrashKeepsInv(body, dir, nextDir);
      dir, gameOver := nextDir, true;
    }

    /** The unblocked step to `head`: the body advances, and eating scores a point
      * and moves the food to `newFood`. */
    method Advance(head: Cell, newFood: Cell)
      requires Valid() && !gameOver && head == Plus(body[0], nextDir) && !Blocked(body, head)
      modifies this
      ensures Valid() && !gameOver && dir == old(nextDir) && nextDir == old(nextDir) && counter == old(counter)
      ensures body == Advanced(old(body), head, old(food))
      ensures score == (if head == old(food) then old(score) + 1 else old(score))
      ensures food == (if head == old(food) then newFood else old(food))
    {
      StepKeepsInv(body, dir, nextDir, food);
      var grown := [head] + body;
      if head == food {
        score, food := score + 1, newFood;
        body := grown;
      } else {
        body := grown[..|grown| - 1];
        assert body == Advanced(old(body), head, food);
      }
      dir := nextDir;
    }
  }
}
