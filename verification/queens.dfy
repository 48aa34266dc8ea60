/** The N-queens kernel of `workloads/queens/queens.cpp`: backtracking over the
    columns of an N by N board of `int` cells, where a non-zero cell holds a
    queen. The board is a value here; each of the kernel's writes to it is a
    cell update. */
module Queens {

  type Board = seq<seq<int>>

  /** An n by n board. */
  predicate Square(b: Board, n: int)
  {
    n >= 0 && |b| == n && forall i :: 0 <= i < n ==> |b[i]| == n
  }

  /** Writing one cell: that cell reads back the new value and every other
      cell keeps its old one. */
  function SetCell(b: Board, n: int, i: int, j: int, v: int): (r: Board)
    requires Square(b, n) && 0 <= i < n && 0 <= j < n
    ensures Square(r, n)
    ensures r[i][j] == v
    ensures forall p, q :: 0 <= p < n && 0 <= q < n && (p != i || q != j) ==> r[p][q] == b[p][q]
  {
    b[i := b[i][j := v]]
  }

  /** Writing back a cell's old value undoes a write to it. */
  lemma SetCellUndo(b: Board, n: int, i: int, j: int, v: int)
    requires Square(b, n) && 0 <= i < n && 0 <= j < n
    ensures SetCell(SetCell(b, n, i, j, v), n, i, j, b[i][j]) == b
  {
    var r := SetCell(SetCell(b, n, i, j, v), n, i, j, b[i][j]);
    forall p | 0 <= p < n
      ensures r[p] == b[p]
    {
      assert forall q :: 0 <= q < n ==> r[p][q] == b[p][q];
    }
  }

  /** Two queens at (i1, j1) and (i2, j2) share a row or a diagonal. */
  predicate Attacks(i1: int, j1: int, i2: int, j2: int)
  {
    i1 == i2 || i1 - j1 == i2 - j2 || i1 + j1 == i2 + j2
  }

  /** The squares `isSafe` looks at, stated as a set of squares rather than
      as three walks: a queen to the left on the same row, or a queen on
      either diagonal through (row, col) in a column no further right than
      col, the square (row, col) itself included. */
  predicate Threatened(b: Board, n: int, row: int, col: int)
    requires Square(b, n) && 0 <= row < n && 0 <= col < n
  {
    exists i, j :: 0 <= i < n && 0 <= j <= col && b[i][j] != 0 &&
      ((i == row && j < col) || i - j == row - col || i + j == row + col)
  }

  /** `isSafe` (lines 15-29): three scans, along the row to the left, up the
      left diagonal and down the left diagonal, each starting at (row, col)
      for the diagonals. The answer is "safe" exactly when no queen stands
      on any of those squares. */
  method IsSafe(b: Board, n: int, row: int, col: int) returns (safe: bool)
    requires Square(b, n) && 0 <= row < n && 0 <= col < n
    ensures safe <==> !Threatened(b, n, row, col)
  {
    var i := 0;
    while i < col
      invariant 0 <= i <= col
      invariant forall q :: 0 <= q < i ==> b[row][q] == 0
    {
      if b[row][i] != 0 {
        return false;
      }
      i := i + 1;
    }

    i := row;
    var j := col;
    while i >= 0 && j >= 0
      invariant i - j == row - col && i <= row && j <= col
      invariant forall p, q :: 0 <= p < n && j < q <= col && p - q == row - col ==> b[p][q] == 0
    {
      if b[i][j] != 0 {
        return false;
      }
      i, j := i - 1, j - 1;
    }

    i := row;
    j := col;
    while j >= 0 && i < n
      invariant i + j == row + col && row <= i <= n && j <= col
      invariant forall p, q :: 0 <= p < n && j < q <= col && p + q == row + col ==> b[p][q] == 0
    {
      if b[i][j] != 0 {
        return false;
      }
      i, j := i + 1, j - 1;
    }
    return true;
  }

  /** `isSafe` reads no cell right of column col: two boards that agree on
      columns 0 to col get the same answer. */
  lemma ThreatenedLooksLeft(b1: Board, b2: Board, n: int, row: int, col: int)
    requires Square(b1, n) && Square(b2, n) && 0 <= row < n && 0 <= col < n
    requires forall i, j :: 0 <= i < n && 0 <= j <= col ==> b1[i][j] == b2[i][j]
    ensures Threatened(b1, n, row, col) <==> Threatened(b2, n, row, col)
  {
  }

  /** A square `isSafe` accepts is empty: (row, col) lies on its own
      diagonals. */
  lemma SafeSquareEmpty(b: Board, n: int, row: int, col: int)
    requires Square(b, n) && 0 <= row < n && 0 <= col < n
    requires !Threatened(b, n, row, col)
    ensures b[row][col] == 0
  {
  }

  /** Column j holds exactly one queen. */
  predicate OneInColumn(b: Board, n: int, j: int)
    requires Square(b, n) && 0 <= j < n
  {
    exists i :: 0 <= i < n && b[i][j] != 0 && forall k :: 0 <= k < n && b[k][j] != 0 ==> k == i
  }

  /** No two queens on the board share a row or a diagonal. */
  predicate Peaceful(b: Board, n: int)
    requires Square(b, n)
  {
    forall i1, j1, i2, j2 ::
      0 <= i1 < n && 0 <= j1 < n && 0 <= i2 < n && 0 <= j2 < n &&
      b[i1][j1] != 0 && b[i2][j2] != 0 && (i1 != i2 || j1 != j2)
      ==> !Attacks(i1, j1, i2, j2)
  }

  /** Columns c to n - 1 are empty. */
  predicate EmptyFrom(b: Board, n: int, c: int)
    requires Square(b, n) && 0 <= c <= n
  {
    forall i, j :: 0 <= i < n && c <= j < n ==> b[i][j] == 0
  }

  /** The state `solveNQUtil` starts column c in: each of the columns before
      c holds exactly one queen, the rest are empty, and no two queens
      attack each other. With c = n this is a solution. */
  predicate Placed(b: Board, n: int, c: int)
    requires Square(b, n) && 0 <= c <= n
  {
    && (forall j :: 0 <= j < c ==> OneInColumn(b, n, j))
    && EmptyFrom(b, n, c)
    && Peaceful(b, n)
  }

  /** A queen on the square in column c that `isSafe` accepts extends a
      placement of columns 0 to c - 1 to one of columns 0 to c. */
  lemma PlaceKeeps(b: Board, n: int, c: int, row: int)
    requires Square(b, n) && 0 <= row < n && 0 <= c < n
    requires Placed(b, n, c) && !Threatened(b, n, row, c)
    ensures Placed(SetCell(b, n, row, c, 1), n, c + 1)
  {
    var b' := SetCell(b, n, row, c, 1);
    PlaceKeepsColumns(b, n, c, row);
    assert EmptyFrom(b', n, c + 1);
    PlaceKeepsPeace(b, n, c, row);
  }

  lemma PlaceKeepsColumns(b: Board, n: int, c: int, row: int)
    requires Square(b, n) && 0 <= row < n && 0 <= c < n
    requires Placed(b, n, c)
    ensures forall j :: 0 <= j < c + 1 ==> OneInColumn(SetCell(b, n, row, c, 1), n, j)
  {
    forall j | 0 <= j < c + 1
      ensures OneInColumn(SetCell(b, n, row, c, 1), n, j)
    {
      if j < c {
        OldColumnKept(b, n, c, row, j);
      } else {
        NewColumnFilled(b, n, c, row);
      }
    }
  }

  /** A write to column c leaves every other column's queen in place. */
  lemma OldColumnKept(b: Board, n: int, c: int, row: int, j: int)
    requires Square(b, n) && 0 <= row < n && 0 <= c < n && 0 <= j < n && j != c
    requires OneInColumn(b, n, j)
    ensures OneInColumn(SetCell(b, n, row, c, 1), n, j)
  {
    var b' := SetCell(b, n, row, c, 1);
    var i :| 0 <= i < n && b[i][j] != 0 && forall k :: 0 <= k < n && b[k][j] != 0 ==> k == i;
    assert forall k :: 0 <= k < n ==> b'[k][j] == b[k][j];
    assert b'[i][j] != 0;
  }

  /** A queen written into an empty column c is that column's only one. */
  lemma NewColumnFilled(b: Board, n: int, c: int, row: int)
    requires Square(b, n) && 0 <= row < n && 0 <= c < n
    requires EmptyFrom(b, n, c)
    ensures OneInColumn(SetCell(b, n, row, c, 1), n, c)
  {
    var b' := SetCell(b, n, row, c, 1);
    assert forall k :: 0 <= k < n && k != row ==> b'[k][c] == 0;
    assert b'[row][c] != 0;
  }

  lemma PlaceKeepsPeace(b: Board, n: int, c: int, row: int)
    requires Square(b, n) && 0 <= row < n && 0 <= c < n
    requires Placed(b, n, c) && !Threatened(b, n, row, c)
    ensures Peaceful(SetCell(b, n, row, c, 1), n)
  {
    var b' := SetCell(b, n, row, c, 1);
    forall i1, j1, i2, j2 |
      0 <= i1 < n && 0 <= j1 < n && 0 <= i2 < n && 0 <= j2 < n &&
      b'[i1][j1] != 0 && b'[i2][j2] != 0 && (i1 != i2 || j1 != j2)
      ensures !Attacks(i1, j1, i2, j2)
    {
      if i1 == row && j1 == c {
        NewQueenSafe(b, n, c, row, i2, j2);
      } else if i2 == row && j2 == c {
        NewQueenSafe(b, n, c, row, i1, j1);
      }
    }
  }

  /** Every queen already on the board is in a column before c, and the new
      queen at (row, c) does not attack it. */
  lemma NewQueenSafe(b: Board, n: int, c: int, row: int, i: int, j: int)
    requires Square(b, n) && 0 <= row < n && 0 <= c < n
    requires EmptyFrom(b, n, c) && !Threatened(b, n, row, c)
    requires 0 <= i < n && 0 <= j < n && b[i][j] != 0
    ensures !Attacks(row, c, i, j)
  {
    assert j < c;
  }

  /** `solveNQUtil` (lines 31-47). For column col it tries rows 0 to n - 1 in
      turn; on a safe square it places a queen and recurses on col + 1,
      returning at once on success and clearing the square otherwise.
      - col >= n succeeds at once with the board untouched;
      - a failed call leaves the board exactly as it found it;
      - no call changes a cell left of column col;
      - a successful call from a placement of columns 0 to col - 1 with the
        rest empty leaves a full solution: one queen per column, no two
        sharing a row or a diagonal. */
  method SolveUtil(b: Board, col: int, n: int) returns (ok: bool, r: Board)
    requires Square(b, n) && 0 <= col
    ensures Square(r, n)
    ensures col >= n ==> ok && r == b
    ensures !ok ==> r == b
    ensures forall i, j :: 0 <= i < n && 0 <= j < col && j < n ==> r[i][j] == b[i][j]
    ensures ok && col <= n && Placed(b, n, col) ==> Placed(r, n, n)
    decreases n - col
  {
    if col >= n {
      return true, b;
    }
    r := b;
    var i := 0;
    while i < n
      invariant 0 <= i <= n && r == b
    {
      var safe := IsSafe(r, n, i, col);
      if safe {
        SafeSquareEmpty(r, n, i, col);
        var placed := SetCell(r, n, i, col, 1);
        if Placed(r, n, col) {
          PlaceKeeps(r, n, col, i);
        }
        ok, r := SolveUtil(placed, col + 1, n);
        if ok {
          return;
        }
        SetCellUndo(b, n, i, col, 1);
        r := SetCell(r, n, i, col, 0);
      }
      i := i + 1;
    }
    return false, r;
  }

  /** `solveNQ` (lines 49-58): the search from column 0. From an empty board
      a success is a full solution; a failure leaves the board as it was. */
  method Solve(b: Board, n: int) returns (ok: bool, r: Board)
    requires Square(b, n)
    ensures Square(r, n)
    ensures !ok ==> r == b
    ensures ok && EmptyFrom(b, n, 0) ==> Placed(r, n, n)
  {
    ok, r := SolveUtil(b, 0, n);
  }

  /** The board `main` allocates and zeroes (lines 66-74). */
  function EmptyBoard(n: nat): (b: Board)
    ensures Square(b, n) && EmptyFrom(b, n, 0)
  {
    seq(n, _ => seq(n, _ => 0))
  }

  /** The measured region of `main` for a board of side n: every solution it
      reports is a full placement, and on failure the board stays empty. */
  method Run(n: nat) returns (ok: bool, board: Board)
    ensures Square(board, n)
    ensures ok ==> Placed(board, n, n)
    ensures !ok ==> board == EmptyBoard(n)
  {
    board := EmptyBoard(n);
    ok, board := Solve(board, n);
  }
}
