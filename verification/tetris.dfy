// The Tetris mini-game of the TV console (js/tv-screen.js): the state set up by
// startTetrisGame and the operations that move, turn, lock and clear, proved
// against the board specifications of tetris_grid.dfy.

module Tetris {
  import opened TetrisGrid

  /** Frames between two automatic drops of the falling piece. */
  const DropInterval: int := 30

  class TetrisGame {
    var grid: Grid
    var current: Piece
    var score: int
    var gameOver: bool
    var dropCounter: int

    /** The grid is 20 x 10 and, while the game runs, the falling piece fits. */
    ghost predicate Valid()
      reads this
    {
      IsGrid(grid) && IsShape(current.shape) && (!gameOver ==> !Collides(grid, current))
    }

    /** The state after lockTetromino locked piece `p` on grid `g0` with score `s0`:
      * a piece reaching above the top ends the game and writes nothing; otherwise
      * every cell of the piece is written, full rows are cleared at 100 points each,
      * a new piece is spawned, and the game ends if that piece does not fit. */
    ghost predicate LockedFrom(g0: Grid, p: Piece, s0: int, shapeIndex: int, colorIndex: int)
      requires IsGrid(g0) && 0 <= shapeIndex < |Shapes| && 0 <= colorIndex < 7
      reads this
    {
      if AboveTop(p) then
        gameOver && grid == g0 && current == p && score == s0
      else
        var stamped := Stamp(g0, p);
        grid == Cleared(stamped) && score == s0 + 100 * FullCount(stamped) &&
        current == Spawn(shapeIndex, colorIndex) &&
        IsGrid(grid) && gameOver == Collides(grid, current)
    }

    /** The state after moveTetromino(dx, dy) from piece `p` on grid `g0` with score `s0`:
      * nothing happens once the game is over; a move onto free cells is taken; a blocked
      * move is undone, and when it was downward the piece is locked. */
    ghost predicate MovedFrom(g0: Grid, p: Piece, s0: int, over: bool, dx: int, dy: int,
                              shapeIndex: int, colorIndex: int)
      requires IsGrid(g0) && 0 <= shapeIndex < |Shapes| && 0 <= colorIndex < 7
      reads this
    {
      var moved := p.(x := p.x + dx, y := p.y + dy);
      if over then
        gameOver && grid == g0 && current == p && score == s0
      else if !Collides(g0, moved) then
        !gameOver && grid == g0 && current == moved && score == s0
      else if dy > 0 then
        LockedFrom(g0, p, s0, shapeIndex, colorIndex)
      else
        !gameOver && grid == g0 && current == p && score == s0
    }

    /** startTetrisGame: an empty grid, no score, and a freshly spawned piece. */
    constructor (shapeIndex: int, colorIndex: int)
      requires 0 <= shapeIndex < |Shapes| && 0 <= colorIndex < 7
      ensures Valid()
      ensures grid == EmptyGrid() && current == Spawn(shapeIndex, colorIndex)
      ensures score == 0 && !gameOver && dropCounter == 0
    {
      grid := EmptyGrid();
      current := Spawn(shapeIndex, colorIndex);
      score := 0;
      gameOver := false;
      dropCounter := 0;
      SpawnFitsEmptyGrid(shapeIndex, colorIndex);
    }

    /** spawnTetromino, with its two random picks as parameters. */
    method SpawnTetromino(shapeIndex: int, colorIndex: int)
      requires 0 <= shapeIndex < |Shapes| && 0 <= colorIndex < 7
      modifies this
      ensures current == Spawn(shapeIndex, colorIndex)
      ensures grid == old(grid) && score == old(score) && gameOver == old(gameOver)
      ensures dropCounter == old(dropCounter)
    {
      current := Piece(Shapes[shapeIndex], 3, 0, colorIndex + 1);
    }

    /** checkCollision: visits the shape's cells row by row and reports the first
      * filled cell that is out of the grid's columns, below its bottom, or on an
      * occupied cell. */
    method CheckCollision() returns (hit: bool)
      requires IsGrid(grid)
      ensures hit == Collides(grid, current)
    {
      var shape, x, y := current.shape, current.x, current.y;
      for row := 0 to |shape|
        invariant forall r, c | 0 <= r < row :: !Blocks(grid, current, r, c)
      {
        for col := 0 to |shape[row]|
          invariant forall r, c | Earlier(r, c, row, col) :: !Blocks(grid, current, r, c)
        {
          if shape[row][col] != 0 {
            var newY, newX := y + row, x + col;
            if newX < 0 || newX >= Cols || newY >= Rows {
              assert Blocks(grid, current, row, col);
              return true;
            }
            if newY >= 0 && grid[newY][newX] != 0 {
              assert Blocks(grid, current, row, col);
              return true;
            }
          }
        }
      }
      return false;
    }

    /** moveTetromino(dx, dy); the picks are used by the spawn that follows a lock. */
    method MoveTetromino(dx: int, dy: int, shapeIndex: int, colorIndex: int)
      requires Valid() && 0 <= shapeIndex < |Shapes| && 0 <= colorIndex < 7
      modifies this
      ensures Valid() && dropCounter == old(dropCounter)
      ensures MovedFrom(old(grid), old(current), old(score), old(gameOver), dx, dy, shapeIndex, colorIndex)
    {
      if gameOver {
        return;
      }
      current := current.(x := current.x + dx, y := current.y + dy);
      var hit := CheckCollision();
      if hit {
        current := current.(x := current.x - dx, y := current.y - dy);
        if dy > 0 {
          LockTetromino(shapeIndex, colorIndex);
        }
      }
    }

    /** rotateTetromino: the piece turns a quarter clockwise unless the turned piece collides. */
    method RotateTetromino()
      requires Valid()
      modifies this
      ensures Valid()
      ensures grid == old(grid) && score == old(score) && gameOver == old(gameOver)
      ensures dropCounter == old(dropCounter)
      ensures var turned := old(current).(shape := Rotate(old(current).shape));
              current == if !old(gameOver) && !Collides(old(grid), turned) then turned else old(current)
    {
      if gameOver {
        return;
      }
      var shape := current.shape;
      var rotated := Rotate(shape);
      var oldShape := current.shape;
      current := current.(shape := rotated);
      var hit := CheckCollision();
      if hit {
        current := current.(shape := oldShape);
      }
    }

    /** lockTetromino: writes the piece's colour into the grid cell by cell; a cell above
      * the top ends the game on the spot. Otherwise full rows are cleared, the next
      * piece is spawned and checked. */
    method LockTetromino(shapeIndex: int, colorIndex: int)
      requires Valid() && !gameOver && 0 <= shapeIndex < |Shapes| && 0 <= colorIndex < 7
      modifies this
      ensures Valid() && dropCounter == old(dropCounter)
      ensures LockedFrom(old(grid), old(current), old(score), shapeIndex, colorIndex)
    {
      var p := current;
      var shape := p.shape;
      ghost var g0 := grid;
      StampedStart(g0, p);
      for row := 0 to |shape|
        invariant StampedBefore(grid, g0, p, row, 0)
        invariant forall r, c | Filled(shape, r, c) && r < row :: p.y + r >= 0
        invariant current == p && !gameOver && score == old(score) && dropCounter == old(dropCounter)
      {
        for col := 0 to |shape[row]|
          invariant StampedBefore(grid, g0, p, row, col)
          invariant forall r, c | Filled(shape, r, c) && Earlier(r, c, row, col) :: p.y + r >= 0
          invariant current == p && !gameOver && score == old(score) && dropCounter == old(dropCounter)
        {
          if shape[row][col] != 0 {
            var newY, newX := p.y + row, p.x + col;
            if newY < 0 {
              assert Filled(shape, row, col) && p.y + row < 0;
              StampedNothing(grid, g0, p, row, col);
              gameOver := true;
              return;
            }
            NoCollisionInBounds(g0, p, row, col);
            StampedWrite(grid, g0, p, row, col);
            grid := grid[newY := grid[newY][newX := p.color]];
          } else {
            StampedSkip(grid, g0, p, row, col);
          }
        }
        StampedNextRow(grid, g0, p, row);
      }
      StampedDone(grid, g0, p);
      assert !AboveTop(p);
      ClearLines();
      SpawnTetromino(shapeIndex, colorIndex);
      var hit := CheckCollision();
      if hit {
        gameOver := true;
      }
    }

    /** clearLines: scans the rows from the bottom up; a full row is cut out, an empty
      * row is pushed on top, 100 points are scored, and the same row index is looked
      * at again. */
    method ClearLines()
      requires IsGrid(grid)
      modifies this
      ensures IsGrid(grid) && grid == Cleared(old(grid))
      ensures score == old(score) + 100 * FullCount(old(grid))
      ensures current == old(current) && gameOver == old(gameOver) && dropCounter == old(dropCounter)
    {
      ghost var g0 := grid;
      ghost var m, k := Rows, 0;
      var row := Rows - 1;
      ClearingStart(g0);
      while row >= 0
        invariant ClearingFrom(grid, g0, k, m, row)
        invariant score == old(score) + 100 * k
        invariant current == old(current) && gameOver == old(gameOver) && dropCounter == old(dropCounter)
        decreases m, row + 1
      {
        ClearingRow(grid, g0, k, m, row);
        if Full(grid[row]) {
          ClearingCut(grid, g0, k, m, row);
          grid := [EmptyRow()] + (grid[..row] + grid[row + 1..]);
          score := score + 100;
          row := row + 1;
          m, k := m - 1, k + 1;
        } else {
          ClearingPass(grid, g0, k, m, row);
          m := if m > 0 then m - 1 else 0;
        }
        row := row - 1;
      }
      ClearingDone(grid, g0, k, m, row);
      ClearedShape(g0);
    }

    /** One frame of updateTetrisGame: while the game runs, every DropInterval frames the
      * piece is moved one row down. */
    method Frame(shapeIndex: int, colorIndex: int)
      requires Valid() && 0 <= shapeIndex < |Shapes| && 0 <= colorIndex < 7
      modifies this
      ensures Valid()
      ensures old(gameOver) || old(dropCounter) + 1 < DropInterval ==>
                grid == old(grid) && current == old(current) && score == old(score) && gameOver == old(gameOver)
      ensures old(gameOver) ==> dropCounter == old(dropCounter)
      ensures !old(gameOver) && old(dropCounter) + 1 < DropInterval ==> dropCounter == old(dropCounter) + 1
      ensures !old(gameOver) && old(dropCounter) + 1 >= DropInterval ==>
                dropCounter == 0 &&
                MovedFrom(old(grid), old(current), old(score), false, 0, 1, shapeIndex, colorIndex)
    {
      if !gameOver {
        dropCounter := dropCounter + 1;
        if dropCounter >= DropInterval {
          MoveTetromino(0, 1, shapeIndex, colorIndex);
          dropCounter := 0;
        }
      }
    }
  }
}
