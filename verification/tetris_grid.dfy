// The board logic of the Tetris mini-game (js/tv-screen.js), as values: the
// 20 x 10 grid of colour numbers (0 for an empty cell), the falling piece, and
// the specifications that the imperative game in tetris.dfy is proved against.

module TetrisGrid {

  const Rows: int := 20
  const Cols: int := 10

  /** A grid row by row; a cell holds 0 or the colour of the piece locked there. */
  type Grid = seq<seq<int>>
  /** A piece's shape: a rectangle of 0 / 1 cells, row by row. */
  type Shape = seq<seq<int>>

  /** The falling piece: its shape, the grid position of the shape's top-left
    * cell (x is the column, y the row) and its colour. */
  datatype Piece = Piece(shape: Shape, x: int, y: int, color: int)

  predicate IsGrid(g: Grid)
  {
    |g| == Rows && forall i | 0 <= i < |g| :: |g[i]| == Cols
  }

  predicate IsShape(s: Shape)
  {
    |s| > 0 && |s[0]| > 0 && forall i | 0 <= i < |s| :: |s[i]| == |s[0]|
  }

  /** The tetromino table of spawnTetromino: I, O, T, S, Z, L, J. */
  const Shapes: seq<Shape> := [
    [[1, 1, 1, 1]],
    [[1, 1], [1, 1]],
    [[1, 1, 1], [0, 1, 0]],
    [[1, 1, 0], [0, 1, 1]],
    [[0, 1, 1], [1, 1, 0]],
    [[1, 1, 1], [1, 0, 0]],
    [[1, 1, 1], [0, 0, 1]]
  ]

  /** The piece spawnTetromino creates from its two random picks: shape number
    * `shapeIndex` of the table and colour `colorIndex + 1`, at column 3, row 0. */
  function Spawn(shapeIndex: int, colorIndex: int): (p: Piece)
    requires 0 <= shapeIndex < |Shapes| && 0 <= colorIndex < 7
    ensures IsShape(p.shape) && 1 <= p.color <= 7 && p.x == 3 && p.y == 0
    ensures |p.shape| <= 2 && |p.shape[0]| <= 4
  {
    Piece(Shapes[shapeIndex], 3, 0, colorIndex + 1)
  }

  // ---------------------------------------------------------------- collision

  /** Cell (r, c) of shape `s` is filled. */
  predicate Filled(s: Shape, r: int, c: int)
  {
    0 <= r < |s| && 0 <= c < |s[r]| && s[r][c] != 0
  }

  /** Filled cell (r, c) of the piece lands left or right of the grid, below it, or on
    * an occupied cell. A cell above the top row collides with nothing. */
  predicate Blocks(g: Grid, p: Piece, r: int, c: int)
    requires IsGrid(g)
  {
    Filled(p.shape, r, c) &&
    var i, j := p.y + r, p.x + c;
    j < 0 || j >= Cols || i >= Rows || (i >= 0 && g[i][j] != 0)
  }

  /** What checkCollision reports for piece `p` on grid `g`. */
  ghost predicate Collides(g: Grid, p: Piece)
    requires IsGrid(g)
  {
    exists r, c :: Blocks(g, p, r, c)
  }

  /** A piece that does not collide has every filled cell inside the grid's columns
    * and above its bottom, on an empty cell when the cell is in the grid. */
  lemma NoCollisionInBounds(g: Grid, p: Piece, r: int, c: int)
    requires IsGrid(g) && !Collides(g, p) && Filled(p.shape, r, c)
    ensures 0 <= p.x + c < Cols && p.y + r < Rows
    ensures p.y + r >= 0 ==> g[p.y + r][p.x + c] == 0
  {
    assert !Blocks(g, p, r, c);
  }

  function EmptyRow(): (row: seq<int>)
    ensures |row| == Cols && forall j | 0 <= j < |row| :: row[j] == 0
  {
    seq(Cols, _ => 0)
  }

  function EmptyRows(k: nat): (rows: Grid)
    ensures |rows| == k && forall i | 0 <= i < k :: rows[i] == EmptyRow()
  {
    seq(k, _ => EmptyRow())
  }

  /** The grid startTetrisGame begins with. */
  function EmptyGrid(): (g: Grid)
    ensures IsGrid(g)
  {
    EmptyRows(Rows)
  }

  /** Every freshly spawned piece fits on the empty grid. */
  lemma SpawnFitsEmptyGrid(shapeIndex: int, colorIndex: int)
    requires 0 <= shapeIndex < |Shapes| && 0 <= colorIndex < 7
    ensures !Collides(EmptyGrid(), Spawn(shapeIndex, colorIndex))
  {
    var p := Spawn(shapeIndex, colorIndex);
    var g := EmptyGrid();
    forall r, c | Filled(p.shape, r, c)
      ensures !Blocks(g, p, r, c)
    {
      assert |p.shape[r]| == |p.shape[0]|;
      assert g[p.y + r] == EmptyRow();
    }
  }

  // ----------------------------------------------------------------- rotation

  /** Column `i` of the shape, top to bottom. */
  function Column(s: Shape, i: int): (col: seq<int>)
    requires IsShape(s) && 0 <= i < |s[0]|
    ensures |col| == |s| && forall k | 0 <= k < |s| :: col[k] == s[k][i]
  {
    seq(|s|, k requires 0 <= k < |s| => s[k][i])
  }

  function Reverse(xs: seq<int>): (ys: seq<int>)
    ensures |ys| == |xs| && forall k | 0 <= k < |xs| :: ys[k] == xs[|xs| - 1 - k]
  {
    seq(|xs|, k requires 0 <= k < |xs| => xs[|xs| - 1 - k])
  }

  /** rotateTetromino's new shape: row i is column i of the old shape read bottom to
    * top, which turns the shape a quarter clockwise; rows and columns swap. */
  function Rotate(s: Shape): (r: Shape)
    requires IsShape(s)
    ensures IsShape(r) && |r| == |s[0]| && |r[0]| == |s|
    ensures forall i, j | 0 <= i < |r| && 0 <= j < |s| :: r[i][j] == s[|s| - 1 - j][i]
  {
    seq(|s[0]|, i requires 0 <= i < |s[0]| => Reverse(Column(s, i)))
  }

  /** `h` is `s` turned upside down (a half turn). */
  ghost predicate HalfTurnOf(h: Shape, s: Shape)
    requires IsShape(s)
  {
    IsShape(h) && |h| == |s| && |h[0]| == |s[0]| &&
    forall i, j | 0 <= i < |s| && 0 <= j < |s[0]| :: h[i][j] == s[|s| - 1 - i][|s[0]| - 1 - j]
  }

  lemma RotateTwiceAt(s: Shape, i: int, j: int)
    requires IsShape(s) && 0 <= i < |s| && 0 <= j < |s[0]|
    ensures Rotate(Rotate(s))[i][j] == s[|s| - 1 - i][|s[0]| - 1 - j]
  {
    var r := Rotate(s);
    assert Rotate(r)[i][j] == r[|r| - 1 - j][i];
  }

  /** Two quarter turns make a half turn. */
  lemma RotateTwice(s: Shape)
    requires IsShape(s)
    ensures HalfTurnOf(Rotate(Rotate(s)), s)
  {
    forall i, j | 0 <= i < |s| && 0 <= j < |s[0]|
      ensures Rotate(Rotate(s))[i][j] == s[|s| - 1 - i][|s[0]| - 1 - j]
    {
      RotateTwiceAt(s, i, j);
    }
  }

  /** Two half turns give back the shape. */
  lemma HalfTurnTwice(s: Shape, h: Shape, t: Shape)
    requires IsShape(s) && HalfTurnOf(h, s) && HalfTurnOf(t, h)
    ensures t == s
  {
    forall i | 0 <= i < |s|
      ensures t[i] == s[i]
    {
      forall j | 0 <= j < |s[0]|
        ensures t[i][j] == s[i][j]
      {
        assert t[i][j] == h[|s| - 1 - i][|s[0]| - 1 - j];
      }
    }
  }

  /** Four quarter turns give back the original shape. */
  lemma RotateFourTimes(s: Shape)
    requires IsShape(s)
    ensures Rotate(Rotate(Rotate(Rotate(s)))) == s
  {
    var h := Rotate(Rotate(s));
    RotateTwice(s);
    RotateTwice(h);
    HalfTurnTwice(s, h, Rotate(Rotate(h)));
  }

  // ------------------------------------------------------------------ locking

  /** Grid cell (i, j) is under a filled cell of the piece. */
  predicate Covers(p: Piece, i: int, j: int)
  {
    Filled(p.shape, i - p.y, j - p.x)
  }

  /** Some filled cell of the piece is above the top row. */
  ghost predicate AboveTop(p: Piece)
  {
    exists r, c :: Filled(p.shape, r, c) && p.y + r < 0
  }

  /** The grid with the piece's colour written into every cell it covers. */
  function Stamp(g: Grid, p: Piece): (s: Grid)
    requires IsGrid(g)
    ensures IsGrid(s)
    ensures forall i, j | 0 <= i < Rows && 0 <= j < Cols ::
              s[i][j] == if Covers(p, i, j) then p.color else g[i][j]
  {
    seq(Rows, i requires 0 <= i < Rows =>
      seq(Cols, j requires 0 <= j < Cols => if Covers(p, i, j) then p.color else g[i][j]))
  }

  /** Stamping a piece that fits leaves a colour in each of its filled cells, and
    * covers only cells that were empty. */
  lemma StampPlacesPiece(g: Grid, p: Piece)
    requires IsGrid(g) && !Collides(g, p) && !AboveTop(p)
    ensures forall r, c | Filled(p.shape, r, c) ::
              0 <= p.y + r < Rows && 0 <= p.x + c < Cols && Stamp(g, p)[p.y + r][p.x + c] == p.color
    ensures forall i, j | 0 <= i < Rows && 0 <= j < Cols && Covers(p, i, j) :: g[i][j] == 0
  {
    forall r, c | Filled(p.shape, r, c)
      ensures 0 <= p.y + r < Rows && 0 <= p.x + c < Cols
    {
      NoCollisionInBounds(g, p, r, c);
    }
    forall i, j | 0 <= i < Rows && 0 <= j < Cols && Covers(p, i, j)
      ensures g[i][j] == 0
    {
      NoCollisionInBounds(g, p, i - p.y, j - p.x);
    }
  }

  /** (r, c) comes before (row, col) in row-major order. */
  predicate Earlier(r: int, c: int, row: int, col: int)
  {
    r < row || (r == row && c < col)
  }

  /** `g` is `g0` with the piece's colour written into exactly the covered cells that
    * come before (row, col) in the order lockTetromino visits them. */
  ghost predicate StampedBefore(g: Grid, g0: Grid, p: Piece, row: int, col: int)
  {
    IsGrid(g) && IsGrid(g0) &&
    forall i, j | 0 <= i < Rows && 0 <= j < Cols ::
      g[i][j] == if Covers(p, i, j) && Earlier(i - p.y, j - p.x, row, col) then p.color else g0[i][j]
  }

  lemma StampedStart(g0: Grid, p: Piece)
    requires IsGrid(g0)
    ensures StampedBefore(g0, g0, p, 0, 0)
  {
    forall i, j | 0 <= i < Rows && 0 <= j < Cols && Covers(p, i, j)
      ensures !Earlier(i - p.y, j - p.x, 0, 0)
    {
    }
  }

  /** Writing the colour at the cell under shape cell (row, col) moves the frontier on by one. */
  lemma StampedWrite(g: Grid, g0: Grid, p: Piece, row: int, col: int)
    requires StampedBefore(g, g0, p, row, col) && Filled(p.shape, row, col)
    requires 0 <= p.y + row < Rows && 0 <= p.x + col < Cols
    ensures StampedBefore(g[p.y + row := g[p.y + row][p.x + col := p.color]], g0, p, row, col + 1)
  {
  }

  /** Passing an empty shape cell changes nothing. */
  lemma StampedSkip(g: Grid, g0: Grid, p: Piece, row: int, col: int)
    requires StampedBefore(g, g0, p, row, col) && !Filled(p.shape, row, col)
    ensures StampedBefore(g, g0, p, row, col + 1)
  {
  }

  lemma StampedNextRow(g: Grid, g0: Grid, p: Piece, row: int)
    requires 0 <= row < |p.shape| && StampedBefore(g, g0, p, row, |p.shape[row]|)
    ensures StampedBefore(g, g0, p, row + 1, 0)
  {
  }

  /** Once every shape cell has been visited, the grid is the stamped grid. */
  lemma StampedDone(g: Grid, g0: Grid, p: Piece)
    requires StampedBefore(g, g0, p, |p.shape|, 0)
    ensures g == Stamp(g0, p)
  {
    var s := Stamp(g0, p);
    forall i | 0 <= i < Rows
      ensures g[i] == s[i]
    {
      forall j | 0 <= j < Cols
        ensures g[i][j] == s[i][j]
      {
        if Covers(p, i, j) {
          assert Earlier(i - p.y, j - p.x, |p.shape|, 0);
        }
      }
    }
  }

  /** Before any covered cell has been visited the grid is untouched. */
  lemma StampedNothing(g: Grid, g0: Grid, p: Piece, row: int, col: int)
    requires StampedBefore(g, g0, p, row, col)
    requires forall r, c | Filled(p.shape, r, c) :: !Earlier(r, c, row, col)
    ensures g == g0
  {
    forall i | 0 <= i < Rows
      ensures g[i] == g0[i]
    {
      forall j | 0 <= j < Cols
        ensures g[i][j] == g0[i][j]
      {
        if Covers(p, i, j) {
          assert !Earlier(i - p.y, j - p.x, row, col);
        }
      }
    }
  }

  // ---------------------------------------------------------- line clearing

  predicate Full(row: seq<int>)
  {
    forall j | 0 <= j < |row| :: row[j] != 0
  }

  /** The rows that are not full, in their order. */
  function Kept(g: Grid): Grid
  {
    if |g| == 0 then [] else (if Full(g[0]) then [] else [g[0]]) + Kept(g[1..])
  }

  function FullCount(g: Grid): nat
  {
    if |g| == 0 then 0 else (if Full(g[0]) then 1 else 0) + FullCount(g[1..])
  }

  /** The grid after clearLines: one empty row on top for each full row removed,
    * then the remaining rows in their order. */
  function Cleared(g: Grid): Grid
  {
    EmptyRows(FullCount(g)) + Kept(g)
  }

  /** Taking one more row, from the bottom of the unprocessed part, onto the front of a suffix. */
  lemma KeptCons(g: Grid, m: int)
    requires 0 < m <= |g|
    ensures Kept(g[m - 1..]) == (if Full(g[m - 1]) then [] else [g[m - 1]]) + Kept(g[m..])
    ensures FullCount(g[m - 1..]) == (if Full(g[m - 1]) then 1 else 0) + FullCount(g[m..])
  {
    assert g[m - 1..][1..] == g[m..];
  }

  /** Where clearLines stands while it scans `g0` from the bottom up: the last `|g0| - m`
    * rows have been scanned, `k` full rows among them cut out and made up for by empty
    * rows on top, and `row` is the index of the next row to look at. */
  ghost predicate ClearingFrom(grid: Grid, g0: Grid, k: int, m: int, row: int)
  {
    0 <= m <= |g0| && k == FullCount(g0[m..]) &&
    grid == EmptyRows(k) + g0[..m] + Kept(g0[m..]) &&
    (m > 0 ==> row == k + m - 1) && (m == 0 ==> -1 <= row < k)
  }

  lemma ClearingStart(g0: Grid)
    ensures ClearingFrom(g0, g0, 0, |g0|, |g0| - 1)
  {
    assert g0[|g0|..] == [] && g0[..|g0|] == g0;
  }

  /** The row being looked at is an unscanned row of `g0`, or one of the empty rows on top. */
  lemma ClearingRow(grid: Grid, g0: Grid, k: int, m: int, row: int)
    requires ClearingFrom(grid, g0, k, m, row) && row >= 0
    ensures 0 <= row < |grid|
    ensures grid[row] == if m > 0 then g0[m - 1] else EmptyRow()
    ensures m == 0 ==> !Full(grid[row])
  {
    if m == 0 {
      assert grid[row][0] == 0;
    }
  }

  /** Cutting out a full row and pushing an empty one on top keeps the scan position. */
  lemma ClearingCut(grid: Grid, g0: Grid, k: int, m: int, row: int)
    requires ClearingFrom(grid, g0, k, m, row) && row >= 0 && m > 0 && Full(grid[row])
    ensures ClearingFrom([EmptyRow()] + (grid[..row] + grid[row + 1..]), g0, k + 1, m - 1, row)
  {
    ClearingRow(grid, g0, k, m, row);
    KeptCons(g0, m);
    var next := [EmptyRow()] + (grid[..row] + grid[row + 1..]);
    assert grid[..row] == EmptyRows(k) + g0[..m - 1];
    assert grid[row + 1..] == Kept(g0[m..]);
    assert next == EmptyRows(k + 1) + g0[..m - 1] + Kept(g0[m - 1..]);
  }

  /** Passing a row that is not full moves the scan up by one. */
  lemma ClearingPass(grid: Grid, g0: Grid, k: int, m: int, row: int)
    requires ClearingFrom(grid, g0, k, m, row) && row >= 0 && !Full(grid[row])
    ensures ClearingFrom(grid, g0, k, if m > 0 then m - 1 else 0, row - 1)
  {
    ClearingRow(grid, g0, k, m, row);
    if m > 0 {
      KeptCons(g0, m);
      assert g0[..m] == g0[..m - 1] + [g0[m - 1]];
    }
  }

  /** When the scan is over the grid is the cleared grid. */
  lemma ClearingDone(grid: Grid, g0: Grid, k: int, m: int, row: int)
    requires ClearingFrom(grid, g0, k, m, row) && row < 0
    ensures grid == Cleared(g0) && k == FullCount(g0)
  {
    assert g0[..0] == [] && g0[0..] == g0;
  }

  /** Every removed row is made up for: the kept rows and the full ones add up to the
    * grid, and each kept row is a row of the grid that is not full. */
  lemma {:induction false} KeptRows(g: Grid)
    ensures |Kept(g)| + FullCount(g) == |g|
    ensures forall row | row in Kept(g) :: row in g && !Full(row)
  {
    if |g| > 0 {
      KeptRows(g[1..]);
    }
  }

  /** `a` is `b` with some elements left out, the rest in their order. */
  predicate Subsequence(a: Grid, b: Grid)
    decreases |b|
  {
    if |a| == 0 then true
    else if |b| == 0 then false
    else (a[0] == b[0] && Subsequence(a[1..], b[1..])) || Subsequence(a, b[1..])
  }

  /** The kept rows keep their relative order. */
  lemma {:induction false} KeptInOrder(g: Grid)
    ensures Subsequence(Kept(g), g)
  {
    if |g| > 0 {
      KeptInOrder(g[1..]);
      if !Full(g[0]) {
        assert Kept(g) == [g[0]] + Kept(g[1..]);
        assert Kept(g)[1..] == Kept(g[1..]);
      } else {
        assert Kept(g) == Kept(g[1..]);
      }
    }
  }

  /** Every row that is not full survives. */
  lemma {:induction false} NonFullRowsKept(g: Grid)
    ensures forall i | 0 <= i < |g| && !Full(g[i]) :: g[i] in Kept(g)
  {
    if |g| > 0 {
      NonFullRowsKept(g[1..]);
      forall i | 0 <= i < |g| && !Full(g[i])
        ensures g[i] in Kept(g)
      {
        if i > 0 {
          assert g[i] == g[1..][i - 1];
        }
      }
    }
  }

  /** A grid without full rows is left alone. */
  lemma {:induction false} NothingToClear(g: Grid)
    requires forall i | 0 <= i < |g| :: !Full(g[i])
    ensures Kept(g) == g && FullCount(g) == 0
  {
    if |g| > 0 {
      NothingToClear(g[1..]);
      assert [g[0]] + g[1..] == g;
    }
  }

  /** After clearing, the grid is still 20 x 10 and no row is full. */
  lemma ClearedShape(g: Grid)
    requires IsGrid(g)
    ensures IsGrid(Cleared(g))
    ensures forall i | 0 <= i < Rows :: !Full(Cleared(g)[i])
  {
    KeptRows(g);
    var c := Cleared(g);
    var k := FullCount(g);
    forall i | 0 <= i < Rows
      ensures |c[i]| == Cols && !Full(c[i])
    {
      if i < k {
        assert c[i] == EmptyRow();
        assert c[i][0] == 0;
      } else {
        assert c[i] == Kept(g)[i - k];
        assert c[i] in Kept(g);
      }
    }
  }

  /** Clearing twice is clearing once. */
  lemma ClearedIdempotent(g: Grid)
    requires IsGrid(g)
    ensures Cleared(Cleared(g)) == Cleared(g)
  {
    ClearedShape(g);
    NothingToClear(Cleared(g));
  }
}
