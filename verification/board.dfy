/** The tic-tac-toe `Board` (ticTacToeMain.java, section 3): an N-by-N grid
    of cells, each empty or holding a player's mark. */
module Boards {

  /** The two player symbols; the driver uses "x" and "o". */
  datatype Mark = X | O

  /** A grid cell: the shared EMPTY symbol ("-") or a player's mark. */
  datatype Cell = Empty | Taken(mark: Mark)

  datatype Position = Position(row: int, col: int)

  datatype Board = Board(size: nat, grid: seq<seq<Cell>>)

  /** The grid is `size` rows of `size` cells. */
  predicate Valid(b: Board) {
    |b.grid| == b.size && forall i :: 0 <= i < |b.grid| ==> |b.grid[i]| == b.size
  }

  /** The constructor: every cell starts EMPTY. */
  function NewBoard(n: nat): (b: Board)
    ensures Valid(b) && b.size == n
    ensures forall i, j :: 0 <= i < n && 0 <= j < n ==> b.grid[i][j] == Empty
  {
    Board(n, seq(n, _ => seq(n, _ => Empty)))
  }

  predicate InBounds(b: Board, p: Position) {
    0 <= p.row < b.size && 0 <= p.col < b.size
  }

  /** `isValidMove`: inside the grid and on an empty cell. */
  predicate IsValidMove(b: Board, p: Position)
    requires Valid(b)
    ensures IsValidMove(b, p) ==> InBounds(b, p) && !Full(b)
    ensures InBounds(b, p) && !IsValidMove(b, p) ==> b.grid[p.row][p.col] != Empty
  {
    InBounds(b, p) && b.grid[p.row][p.col] == Empty
  }

  /** `makeMove`: writes `m` at `p` when the move is valid and reports
      whether it did. */
  function MakeMove(b: Board, p: Position, m: Mark): (r: (bool, Board))
    requires Valid(b)
    ensures Valid(r.1) && r.1.size == b.size
    ensures r.0 <==> InBounds(b, p) && b.grid[p.row][p.col] == Empty
    ensures !r.0 ==> r.1 == b
    ensures r.0 ==> r.1.grid[p.row][p.col] == Taken(m)
    ensures r.0 ==> forall i, j :: 0 <= i < b.size && 0 <= j < b.size && (i, j) != (p.row, p.col) ==>
                      r.1.grid[i][j] == b.grid[i][j]
  {
    if !IsValidMove(b, p) then (false, b)
    else (true, b.(grid := b.grid[p.row := b.grid[p.row][p.col := Taken(m)]]))
  }

  /** No cell is EMPTY. */
  predicate Full(b: Board)
    requires Valid(b)
  {
    forall i, j :: 0 <= i < b.size && 0 <= j < b.size ==> b.grid[i][j] != Empty
  }

  predicate RowComplete(b: Board, i: nat, m: Mark)
    requires Valid(b) && i < b.size
  {
    forall j :: 0 <= j < b.size ==> b.grid[i][j] == Taken(m)
  }

  predicate ColumnComplete(b: Board, j: nat, m: Mark)
    requires Valid(b) && j < b.size
  {
    forall i :: 0 <= i < b.size ==> b.grid[i][j] == Taken(m)
  }

  predicate MainDiagonalComplete(b: Board, m: Mark)
    requires Valid(b)
  {
    forall i :: 0 <= i < b.size ==> b.grid[i][i] == Taken(m)
  }

  predicate AntiDiagonalComplete(b: Board, m: Mark)
    requires Valid(b)
  {
    forall i :: 0 <= i < b.size ==> b.grid[i][b.size - i - 1] == Taken(m)
  }

  /** Some row, some column or one of the two diagonals holds only `m`. */
  predicate HasLine(b: Board, m: Mark)
    requires Valid(b)
  {
    || (exists i :: 0 <= i < b.size && RowComplete(b, i, m))
    || (exists j :: 0 <= j < b.size && ColumnComplete(b, j, m))
    || MainDiagonalComplete(b, m)
    || AntiDiagonalComplete(b, m)
  }

  /** `isFull`: scans the grid row by row and stops at the first EMPTY cell. */
  method IsFull(b: Board) returns (full: bool)
    requires Valid(b)
    ensures full <==> Full(b)
  {
    var i := 0;
    while i < b.size
      invariant 0 <= i <= b.size
      invariant forall r, c :: 0 <= r < i && 0 <= c < b.size ==> b.grid[r][c] != Empty
    {
      var j := 0;
      while j < b.size
        invariant 0 <= j <= b.size
        invariant forall c :: 0 <= c < j ==> b.grid[i][c] != Empty
      {
        if b.grid[i][j] == Empty {
          return false;
        }
        j := j + 1;
      }
      i := i + 1;
    }
    return true;
  }

  /** `checkWin`: row i and column i are scanned together; the diagonals are
      scanned with a redundant inner loop that re-tests the same diagonal
      cell `size` times, which does not change the outcome. */
  method CheckWin(b: Board, m: Mark) returns (win: bool)
    requires Valid(b)
    ensures win <==> HasLine(b, m)
  {
    var n := b.size;
    var i := 0;
    while i < n
      invariant 0 <= i <= n
      invariant forall k :: 0 <= k < i ==> !RowComplete(b, k, m) && !ColumnComplete(b, k, m)
    {
      var row, col := true, true;
      var j := 0;
      while j < n
        invariant 0 <= j <= n
        invariant row <==> forall t :: 0 <= t < j ==> b.grid[i][t] == Taken(m)
        invariant col <==> forall t :: 0 <= t < j ==> b.grid[t][i] == Taken(m)
      {
        row := row && b.grid[i][j] == Taken(m);
        col := col && b.grid[j][i] == Taken(m);
        j := j + 1;
      }
      if row || col {
        assert RowComplete(b, i, m) || ColumnComplete(b, i, m);
        return true;
      }
      i := i + 1;
    }
    var diag1, diag2 := true, true;
    i := 0;
    while i < n
      invariant 0 <= i <= n
      invariant diag1 <==> forall t :: 0 <= t < i ==> b.grid[t][t] == Taken(m)
      invariant diag2 <==> forall t :: 0 <= t < i ==> b.grid[t][n - t - 1] == Taken(m)
    {
      var j := 0;
      ghost var before1, before2 := diag1, diag2;
      while j < n
        invariant 0 <= j <= n
        invariant diag1 <==> before1 && (j > 0 ==> b.grid[i][i] == Taken(m))
        invariant diag2 <==> before2 && (j > 0 ==> b.grid[i][n - i - 1] == Taken(m))
      {
        diag1 := diag1 && b.grid[i][i] == Taken(m);
        diag2 := diag2 && b.grid[i][n - i - 1] == Taken(m);
        j := j + 1;
      }
      i := i + 1;
    }
    win := diag1 || diag2;
  }

  /** The number of cells holding `c`. */
  function CountRow(row: seq<Cell>, c: Cell): nat {
    if |row| == 0 then 0
    else (if row[0] == c then 1 else 0) + CountRow(row[1..], c)
  }

  function CountGrid(grid: seq<seq<Cell>>, c: Cell): nat {
    if |grid| == 0 then 0
    else CountRow(grid[0], c) + CountGrid(grid[1..], c)
  }

  /** The number of cells holding `m`. */
  function Count(b: Board, m: Mark): nat {
    CountGrid(b.grid, Taken(m))
  }

  lemma {:induction false} CountRowUpdate(row: seq<Cell>, j: nat, x: Cell, c: Cell)
    requires j < |row|
    ensures CountRow(row[j := x], c) ==
            CountRow(row, c) - (if row[j] == c then 1 else 0) + (if x == c then 1 else 0)
    decreases |row|
  {
    if j > 0 {
      assert row[j := x][1..] == row[1..][j - 1 := x];
      CountRowUpdate(row[1..], j - 1, x, c);
    } else {
      assert row[j := x][1..] == row[1..];
    }
  }

  lemma {:induction false} CountGridUpdate(grid: seq<seq<Cell>>, i: nat, j: nat, x: Cell, c: Cell)
    requires i < |grid| && j < |grid[i]|
    ensures CountGrid(grid[i := grid[i][j := x]], c) ==
            CountGrid(grid, c) - (if grid[i][j] == c then 1 else 0) + (if x == c then 1 else 0)
    decreases |grid|
  {
    if i > 0 {
      assert grid[i := grid[i][j := x]][1..] == grid[1..][i - 1 := grid[i][j := x]];
      CountGridUpdate(grid[1..], i - 1, j, x, c);
    } else {
      assert grid[i := grid[i][j := x]][1..] == grid[1..];
      CountRowUpdate(grid[0], j, x, c);
    }
  }

  /** A successful move adds one mark of the mover and leaves the other
      player's count alone. */
  lemma MoveCounts(b: Board, p: Position, m: Mark, other: Mark)
    requires Valid(b) && MakeMove(b, p, m).0 && other != m
    ensures Count(MakeMove(b, p, m).1, m) == Count(b, m) + 1
    ensures Count(MakeMove(b, p, m).1, other) == Count(b, other)
  {
    CountGridUpdate(b.grid, p.row, p.col, Taken(m), Taken(m));
    CountGridUpdate(b.grid, p.row, p.col, Taken(m), Taken(other));
  }

  /** A move by `m` cannot complete a line for another mark. */
  lemma MoveKeepsOtherLines(b: Board, p: Position, m: Mark, other: Mark)
    requires Valid(b) && other != m
    ensures HasLine(MakeMove(b, p, m).1, other) ==> HasLine(b, other)
  {
    var b' := MakeMove(b, p, m).1;
    if MakeMove(b, p, m).0 && HasLine(b', other) {
      assert forall i, j :: 0 <= i < b.size && 0 <= j < b.size && b'.grid[i][j] == Taken(other) ==>
               b.grid[i][j] == Taken(other);
      if i :| 0 <= i < b.size && RowComplete(b', i, other) {
        assert RowComplete(b, i, other);
      } else if j :| 0 <= j < b.size && ColumnComplete(b', j, other) {
        assert ColumnComplete(b, j, other);
      } else if MainDiagonalComplete(b', other) {
        assert MainDiagonalComplete(b, other);
      } else {
        assert AntiDiagonalComplete(b, other);
      }
    }
  }

  lemma {:induction false} CountRowEmpty(n: nat, c: Cell)
    requires c != Empty
    ensures CountRow(seq(n, _ => Empty), c) == 0
  {
    if n > 0 {
      assert seq(n, _ => Empty)[1..] == seq(n - 1, _ => Empty);
      CountRowEmpty(n - 1, c);
    }
  }

  lemma {:induction false} CountGridEmpty(n: nat, k: nat, c: Cell)
    requires c != Empty
    ensures CountGrid(seq(k, _ => seq(n, _ => Empty)), c) == 0
  {
    if k > 0 {
      assert seq(k, _ => seq(n, _ => Empty))[1..] == seq(k - 1, _ => seq(n, _ => Empty));
      CountRowEmpty(n, c);
      CountGridEmpty(n, k - 1, c);
    }
  }

  /** A new board of size at least one holds no marks, is not full and has
      no line for either player. */
  lemma NewBoardIsOpen(n: nat)
    requires n >= 1
    ensures forall m :: Count(NewBoard(n), m) == 0 && !HasLine(NewBoard(n), m)
    ensures !Full(NewBoard(n))
  {
    var b := NewBoard(n);
    forall m ensures Count(b, m) == 0 && !HasLine(b, m) {
      CountGridEmpty(n, n, Taken(m));
      assert !MainDiagonalComplete(b, m) by { assert b.grid[0][0] == Empty; }
      assert !AntiDiagonalComplete(b, m) by { assert b.grid[0][n - 1] == Empty; }
      assert forall i :: 0 <= i < n ==> !RowComplete(b, i, m) by {
        forall i | 0 <= i < n ensures !RowComplete(b, i, m) { assert b.grid[i][0] == Empty; }
      }
      assert forall j :: 0 <= j < n ==> !ColumnComplete(b, j, m) by {
        forall j | 0 <= j < n ensures !ColumnComplete(b, j, m) { assert b.grid[0][j] == Empty; }
      }
    }
    assert b.grid[0][0] == Empty;
  }

  lemma {:induction false} CountRowHit(row: seq<Cell>, j: nat, c: Cell)
    requires j < |row| && row[j] == c
    ensures CountRow(row, c) >= 1
    decreases |row|
  {
    if j > 0 {
      CountRowHit(row[1..], j - 1, c);
    }
  }

  lemma {:induction false} CountRowAll(row: seq<Cell>, c: Cell)
    requires forall j :: 0 <= j < |row| ==> row[j] == c
    ensures CountRow(row, c) == |row|
    decreases |row|
  {
    if |row| > 0 {
      CountRowAll(row[1..], c);
    }
  }

  /** A grid in which row `i` is counted in full has at least that row's count. */
  lemma {:induction false} CountGridRow(grid: seq<seq<Cell>>, i: nat, c: Cell)
    requires i < |grid|
    ensures CountGrid(grid, c) >= CountRow(grid[i], c)
    decreases |grid|
  {
    if i > 0 {
      CountGridRow(grid[1..], i - 1, c);
    }
  }

  /** A grid with at least one `c` in every row has at least one `c` per row. */
  lemma {:induction false} CountGridEveryRow(grid: seq<seq<Cell>>, c: Cell)
    requires forall i :: 0 <= i < |grid| ==> CountRow(grid[i], c) >= 1
    ensures CountGrid(grid, c) >= |grid|
    decreases |grid|
  {
    if |grid| > 0 {
      assert CountRow(grid[0], c) >= 1;
      CountGridEveryRow(grid[1..], c);
    }
  }

  /** A line for `m` needs `size` cells holding `m`: nobody can win with fewer
      marks on the board. */
  lemma LineNeedsSizeMarks(b: Board, m: Mark)
    requires Valid(b) && HasLine(b, m)
    ensures Count(b, m) >= b.size
  {
    var n := b.size;
    if i :| 0 <= i < n && RowComplete(b, i, m) {
      CountRowAll(b.grid[i], Taken(m));
      CountGridRow(b.grid, i, Taken(m));
    } else {
      var col: int -> int;
      if j :| 0 <= j < n && ColumnComplete(b, j, m) {
        col := _ => j;
      } else if MainDiagonalComplete(b, m) {
        col := i => i;
      } else {
        col := i => n - i - 1;
      }
      assert forall i :: 0 <= i < n ==> 0 <= col(i) < n && b.grid[i][col(i)] == Taken(m);
      forall i | 0 <= i < n
        ensures CountRow(b.grid[i], Taken(m)) >= 1
      {
        CountRowHit(b.grid[i], col(i), Taken(m));
      }
      CountGridEveryRow(b.grid, Taken(m));
    }
  }
}
