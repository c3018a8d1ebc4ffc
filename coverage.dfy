/** The generator and the scanner together: every straight run of cells on
    the board lies on one generated line, so no win on the board is missed,
    and which of several wins is reported. */
module Coverage {
  import opened Board
  import opened LineGenerator
  import opened WinScanner

  /** The four directions a run can take. */
  datatype Direction = Down | Across | DownLeft | DownRight

  /** Row of the cell `t` steps from row `row` in direction `dir`. */
  function RowAlong(row: int, dir: Direction, t: int): int
  {
    if dir == Across then row else row + t
  }

  /** Column of the cell `t` steps from column `col` in direction `dir`. */
  function ColAlong(col: int, dir: Direction, t: int): int
  {
    match dir
    case Down => col
    case Across => col + t
    case DownLeft => col - t
    case DownRight => col + t
  }

  /** The `count` cells from `row`, `col` in direction `dir` are all on the
      board. */
  predicate SegmentOnBoard(rows: int, columns: int, row: int, col: int, dir: Direction, count: int)
  {
    forall t :: 0 <= t < count ==> OnBoard(rows, columns, RowAlong(row, dir, t), ColAlong(col, dir, t))
  }

  /** Line `i` holds those `count` cells, in order, from its position `p` on. */
  ghost predicate SegmentAt(rows: int, columns: int, row: int, col: int, dir: Direction, count: int, i: int, p: int)
    requires rows >= 1 && columns >= 1
  {
    0 <= i < |Lines(rows, columns)| && 0 <= p && p + count <= |Lines(rows, columns)[i]| &&
    forall t :: 0 <= t < count ==>
      Lines(rows, columns)[i][p + t] == CellIndex(columns, RowAlong(row, dir, t), ColAlong(col, dir, t))
  }

  /** A stretch down a column lies on that column's line. */
  lemma DownSegment(rows: int, columns: int, row: int, col: int, dir: Direction, count: int)
    requires rows >= 1 && columns >= 1 && count >= 1
    requires dir == Down || (count == 1 && dir != Across)
    requires OnBoard(rows, columns, row, col) && row + count - 1 < rows
    ensures SegmentAt(rows, columns, row, col, dir, count, col, row)
  {
    LinesAt(rows, columns, col);
    var line := Lines(rows, columns)[col];
    forall t | 0 <= t < count
      ensures line[row + t] == CellIndex(columns, RowAlong(row, dir, t), ColAlong(col, dir, t))
    {
      assert t == 0 || dir == Down;
    }
  }

  /** A stretch along a row lies on that row's line. */
  lemma AcrossSegment(rows: int, columns: int, row: int, col: int, count: int)
    requires rows >= 1 && columns >= 1 && count >= 1
    requires OnBoard(rows, columns, row, col) && col + count - 1 < columns
    ensures SegmentAt(rows, columns, row, col, Across, count, columns + row, col)
  {
    LinesAt(rows, columns, columns + row);
  }

  /** A down-left stretch of two or more cells lies on the left diagonal
      through its cells, the one whose cells have row + column = row + col. */
  lemma DownLeftSegment(rows: int, columns: int, row: int, col: int, count: int)
    requires rows >= 1 && columns >= 1 && count >= 2
    requires OnBoard(rows, columns, row, col) && row + count - 1 < rows && col - count + 1 >= 0
    ensures var m := row + col - 1;
            SegmentAt(rows, columns, row, col, DownLeft, count,
                      columns + rows + m, row - StartRow(columns, m))
  {
    var m := row + col - 1;
    var r, c := StartRow(columns, m), LeftStartCol(columns, m);
    var i, p := columns + rows + m, row - r;
    assert r + c == row + col;
    LinesAt(rows, columns, i);
    var line := Lines(rows, columns)[i];
    assert line == LeftDiagonal(rows, columns, r, c);
    forall t | 0 <= t < count
      ensures line[p + t] == CellIndex(columns, RowAlong(row, DownLeft, t), ColAlong(col, DownLeft, t))
    {
      assert line[p + t] == CellIndex(columns, r + (p + t), c - (p + t));
    }
  }

  /** A down-right stretch of two or more cells lies on the right diagonal
      through its cells, the one whose cells have column - row = col - row. */
  lemma DownRightSegment(rows: int, columns: int, row: int, col: int, count: int)
    requires rows >= 1 && columns >= 1 && count >= 2
    requires OnBoard(rows, columns, row, col) && row + count - 1 < rows && col + count - 1 < columns
    ensures var m := if col >= row then col - row else columns - 2 + row - col;
            SegmentAt(rows, columns, row, col, DownRight, count,
                      columns + rows + DiagonalCount(rows, columns) + m, row - StartRow(columns, m))
  {
    var m := if col >= row then col - row else columns - 2 + row - col;
    var r, c := StartRow(columns, m), RightStartCol(columns, m);
    var i, p := columns + rows + DiagonalCount(rows, columns) + m, row - r;
    assert c - r == col - row;
    LinesAt(rows, columns, i);
    var line := Lines(rows, columns)[i];
    assert line == RightDiagonal(rows, columns, r, c);
    forall t | 0 <= t < count
      ensures line[p + t] == CellIndex(columns, RowAlong(row, DownRight, t), ColAlong(col, DownRight, t))
    {
      assert line[p + t] == CellIndex(columns, r + (p + t), c + (p + t));
    }
  }

  /** Every straight stretch of on-board cells, in any of the four
      directions, lies in order and without gaps on one generated line. */
  lemma SegmentOnSomeLine(rows: int, columns: int, row: int, col: int, dir: Direction, count: int)
    requires rows >= 1 && columns >= 1 && count >= 1
    requires SegmentOnBoard(rows, columns, row, col, dir, count)
    ensures exists i, p :: SegmentAt(rows, columns, row, col, dir, count, i, p)
  {
    assert OnBoard(rows, columns, RowAlong(row, dir, 0), ColAlong(col, dir, 0));
    assert OnBoard(rows, columns, RowAlong(row, dir, count - 1), ColAlong(col, dir, count - 1));
    if dir == Down || (count == 1 && dir != Across) {
      DownSegment(rows, columns, row, col, dir, count);
    } else if dir == Across {
      AcrossSegment(rows, columns, row, col, count);
    } else if dir == DownLeft {
      DownLeftSegment(rows, columns, row, col, count);
    } else {
      DownRightSegment(rows, columns, row, col, count);
    }
  }

  /** No win on the board is missed: when `numToWin` consecutive cells in
      a column, a row or a diagonal hold the same mark, the scan of the
      generated lines reports a winner. */
  lemma NoWinMissed(rows: int, columns: int, squares: seq<Mark>, numToWin: int,
                    row: int, col: int, dir: Direction, mark: Mark)
    requires rows >= 1 && columns >= 1 && numToWin >= 1 && mark != Empty
    requires SegmentOnBoard(rows, columns, row, col, dir, numToWin)
    requires forall t :: 0 <= t < numToWin ==>
               CellAt(squares, CellIndex(columns, RowAlong(row, dir, t), ColAlong(col, dir, t))) == mark
    ensures Winner(squares, Lines(rows, columns), numToWin).Some?
  {
    SegmentOnSomeLine(rows, columns, row, col, dir, numToWin);
    var i, p :| SegmentAt(rows, columns, row, col, dir, numToWin, i, p);
    var line := Lines(rows, columns)[i];
    forall t | p <= t < p + numToWin
      ensures CellAt(squares, line[t]) == mark
    {
      assert line[p + (t - p)] == CellIndex(columns, RowAlong(row, dir, t - p), ColAlong(col, dir, t - p));
    }
    ScanLineFindsRun(squares, line, numToWin, p, mark);
    WinnerIsLastWinningLine(squares, Lines(rows, columns), numToWin);
  }

  /** A line of three cells that all hold the same mark wins for that mark
      on all three cells, with a target of three. */
  lemma ThreeOfAKind(squares: seq<Mark>, a: int, b: int, c: int, mark: Mark)
    requires mark != Empty
    requires CellAt(squares, a) == mark && CellAt(squares, b) == mark && CellAt(squares, c) == mark
    ensures ScanLine(squares, [a, b, c], 3) == Some(WinResult(mark, [a, b, c]))
  {
    var line := [a, b, c];
    assert [] + [a] == [a] && [a] + [b] == [a, b] && [a, b] + [c] == line;
    assert ScanFrom(squares, line, 3, 2, [a, b], mark) == Some(WinResult(mark, line));
    assert ScanFrom(squares, line, 3, 1, [a], mark) == Some(WinResult(mark, line));
  }

  /** Three X in the top row of the default board win on cells 0, 1, 2. */
  lemma TopRowWins()
    ensures Winner([X, X, X, Empty, Empty, Empty, Empty, Empty, Empty], Lines(3, 3), 3)
            == Some(WinResult(X, [0, 1, 2]))
  {
    var squares := [X, X, X, Empty, Empty, Empty, Empty, Empty, Empty];
    ThreeByThree();
    var lines := Lines(3, 3);
    ThreeOfAKind(squares, 0, 1, 2, X);
    forall j | 3 < j < 12 ensures ScanLine(squares, lines[j], 3).None? {
      assert ScanLine(squares, [3, 4, 5], 3).None?;
      assert ScanLine(squares, [6, 7, 8], 3).None?;
      assert ScanLine(squares, [1, 3], 3).None?;
      assert ScanLine(squares, [2, 4, 6], 3).None?;
      assert ScanLine(squares, [5, 7], 3).None?;
      assert ScanLine(squares, [0, 4, 8], 3).None?;
      assert ScanLine(squares, [1, 5], 3).None?;
      assert ScanLine(squares, [3, 7], 3).None?;
    }
    LastWinningLineDecides(squares, lines, 3, 3);
  }

  /** The opponent's mark in the top row spoils it, while three X in the
      middle row win. */
  lemma MiddleRowWins()
    ensures Winner([X, O, X, X, X, X, Empty, Empty, Empty], Lines(3, 3), 3)
            == Some(WinResult(X, [3, 4, 5]))
  {
    var squares := [X, O, X, X, X, X, Empty, Empty, Empty];
    ThreeByThree();
    var lines := Lines(3, 3);
    ThreeOfAKind(squares, 3, 4, 5, X);
    forall j | 4 < j < 12 ensures ScanLine(squares, lines[j], 3).None? {
      assert ScanLine(squares, [6, 7, 8], 3).None?;
      assert ScanLine(squares, [1, 3], 3).None?;
      assert ScanLine(squares, [2, 4, 6], 3).None?;
      assert ScanLine(squares, [5, 7], 3).None?;
      assert ScanLine(squares, [0, 4, 8], 3).None?;
      assert ScanLine(squares, [1, 5], 3).None?;
      assert ScanLine(squares, [3, 7], 3).None?;
    }
    LastWinningLineDecides(squares, lines, 3, 4);
  }

  /** When two lines win at once, the one scanned last is reported: here the
      left column, scanned first, wins too but loses to the top row. */
  lemma LastWinningLineReported()
    ensures ScanLine([X, X, X, X, O, O, X, O, Empty], Lines(3, 3)[0], 3) == Some(WinResult(X, [0, 3, 6]))
    ensures Winner([X, X, X, X, O, O, X, O, Empty], Lines(3, 3), 3)
            == Some(WinResult(X, [0, 1, 2]))
  {
    var squares := [X, X, X, X, O, O, X, O, Empty];
    ThreeByThree();
    var lines := Lines(3, 3);
    ThreeOfAKind(squares, 0, 3, 6, X);
    ThreeOfAKind(squares, 0, 1, 2, X);
    forall j | 3 < j < 12 ensures ScanLine(squares, lines[j], 3).None? {
      assert ScanLine(squares, [3, 4, 5], 3).None?;
      assert ScanLine(squares, [6, 7, 8], 3).None?;
      assert ScanLine(squares, [1, 3], 3).None?;
      assert ScanLine(squares, [2, 4, 6], 3).None?;
      assert ScanLine(squares, [5, 7], 3).None?;
      assert ScanLine(squares, [0, 4, 8], 3).None?;
      assert ScanLine(squares, [1, 5], 3).None?;
      assert ScanLine(squares, [3, 7], 3).None?;
    }
    LastWinningLineDecides(squares, lines, 3, 3);
  }
}
