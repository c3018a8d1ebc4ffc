/** The winning-line generator: every column, row and diagonal of an R x C
    board as a list of cell numbers, in the order the game scans them. */
module LineGenerator {
  import opened Board

  function Min(a: int, b: int): int { if a <= b then a else b }

  function Max(a: int, b: int): int { if a >= b then a else b }

  // ---------------------------------------------------------------------
  // The lines in closed form
  // ---------------------------------------------------------------------

  /** Column `col`, top to bottom. */
  function Column(rows: int, columns: int, col: int): seq<int>
    requires rows >= 1
  {
    seq(rows, j => CellIndex(columns, j, col))
  }

  /** Row `row`, left to right. */
  function Row(rows: int, columns: int, row: int): seq<int>
    requires columns >= 1
  {
    seq(columns, j => CellIndex(columns, row, j))
  }

  /** How many diagonals of each direction there are: one per cell of the top
      row but a corner, and one per inner cell of the side column. */
  function DiagonalCount(rows: int, columns: int): nat
    requires rows >= 1 && columns >= 1
  {
    (columns - 1) + Max(rows - 2, 0)
  }

  /** Row of the start of diagonal `m`: the top row for the first C - 1,
      then the side column from row 1 down. Both directions share it. */
  function StartRow(columns: int, m: int): int
  {
    if m < columns - 1 then 0 else m - columns + 2
  }

  /** Column of the start of left diagonal `m`: top row from column 1, then
      the right column. */
  function LeftStartCol(columns: int, m: int): int
  {
    if m < columns - 1 then m + 1 else columns - 1
  }

  /** Column of the start of right diagonal `m`: top row from column 0, then
      the left column. */
  function RightStartCol(columns: int, m: int): int
  {
    if m < columns - 1 then m else 0
  }

  /** The down-left diagonal from `row`, `col`, down to the left column or
      the bottom row, whichever comes first. */
  function LeftDiagonal(rows: int, columns: int, row: int, col: int): seq<int>
    requires 0 <= row < rows && 0 <= col
  {
    seq(Min(col, rows - 1 - row) + 1, j => CellIndex(columns, row + j, col - j))
  }

  /** The down-right diagonal from `row`, `col`, down to the right column or
      the bottom row, whichever comes first. */
  function RightDiagonal(rows: int, columns: int, row: int, col: int): seq<int>
    requires 0 <= row < rows && col < columns
  {
    seq(Min(columns - 1 - col, rows - 1 - row) + 1, j => CellIndex(columns, row + j, col + j))
  }

  function Columns(rows: int, columns: int): seq<seq<int>>
    requires rows >= 1 && columns >= 1
  {
    seq(columns, i => Column(rows, columns, i))
  }

  function Rows(rows: int, columns: int): seq<seq<int>>
    requires rows >= 1 && columns >= 1
  {
    seq(rows, r => Row(rows, columns, r))
  }

  function LeftDiagonals(rows: int, columns: int): seq<seq<int>>
    requires rows >= 1 && columns >= 1
  {
    seq(DiagonalCount(rows, columns),
        m requires 0 <= m < DiagonalCount(rows, columns) =>
          LeftDiagonal(rows, columns, StartRow(columns, m), LeftStartCol(columns, m)))
  }

  function RightDiagonals(rows: int, columns: int): seq<seq<int>>
    requires rows >= 1 && columns >= 1
  {
    seq(DiagonalCount(rows, columns),
        m requires 0 <= m < DiagonalCount(rows, columns) =>
          RightDiagonal(rows, columns, StartRow(columns, m), RightStartCol(columns, m)))
  }

  /** All lines of an R x C board: columns, rows, left diagonals, right
      diagonals. */
  function Lines(rows: int, columns: int): seq<seq<int>>
    requires rows >= 1 && columns >= 1
  {
    Columns(rows, columns) + Rows(rows, columns) + LeftDiagonals(rows, columns) + RightDiagonals(rows, columns)
  }

  // ---------------------------------------------------------------------
  // The walk the generator performs, and its border lists
  // ---------------------------------------------------------------------

  /** `shift()` on a copy of an array. */
  function Shift(s: seq<int>): seq<int>
  {
    if s == [] then [] else s[1..]
  }

  /** `pop()` on a copy of an array. */
  function Pop(s: seq<int>): seq<int>
  {
    if s == [] then [] else s[..|s| - 1]
  }

  /** The top row without its left corner, then the right column without
      its two corners. */
  function LeftStartingPoints(rows: int, columns: int): seq<int>
    requires rows >= 1 && columns >= 1
  {
    Shift(Row(rows, columns, 0)) + Pop(Shift(Column(rows, columns, columns - 1)))
  }

  /** The left column without its top corner, then the bottom row without
      its two corners. */
  function LeftEndPoints(rows: int, columns: int): seq<int>
    requires rows >= 1 && columns >= 1
  {
    Shift(Column(rows, columns, 0)) + Pop(Shift(Row(rows, columns, rows - 1)))
  }

  /** The top row without its right corner, then the left column without
      its two corners. */
  function RightStartingPoints(rows: int, columns: int): seq<int>
    requires rows >= 1 && columns >= 1
  {
    Pop(Row(rows, columns, 0)) + Pop(Shift(Column(rows, columns, 0)))
  }

  /** The right column without its top corner, then the bottom row without
      its two corners. */
  function RightEndPoints(rows: int, columns: int): seq<int>
    requires rows >= 1 && columns >= 1
  {
    Shift(Column(rows, columns, columns - 1)) + Pop(Shift(Row(rows, columns, rows - 1)))
  }

  /** The cells the inner diagonal loop pushes: at most `fuel` of them,
      stopping after the first one that is an end point. */
  function Walk(from: int, step: int, endPoints: seq<int>, fuel: int): seq<int>
    decreases fuel
  {
    if fuel <= 0 then []
    else [from] + (if from in endPoints then [] else Walk(from + step, step, endPoints, fuel - 1))
  }

  /** Where a left diagonal ends: the left column below the top row, or the
      bottom row strictly between its corners. */
  predicate LeftEndCell(rows: int, columns: int, row: int, col: int)
  {
    (col == 0 && row >= 1) || (row == rows - 1 && 1 <= col <= columns - 2)
  }

  /** Where a right diagonal ends: the right column below the top row, or
      the bottom row strictly between its corners. */
  predicate RightEndCell(rows: int, columns: int, row: int, col: int)
  {
    (col == columns - 1 && row >= 1) || (row == rows - 1 && 1 <= col <= columns - 2)
  }

  /** `ends` holds exactly the cells on which a left diagonal ends. */
  ghost predicate LeftEndSet(rows: int, columns: int, ends: seq<int>)
  {
    forall r, c :: 0 <= r < rows && 0 <= c < columns ==>
      (CellIndex(columns, r, c) in ends <==> LeftEndCell(rows, columns, r, c))
  }

  /** `ends` holds exactly the cells on which a right diagonal ends. */
  ghost predicate RightEndSet(rows: int, columns: int, ends: seq<int>)
  {
    forall r, c :: 0 <= r < rows && 0 <= c < columns ==>
      (CellIndex(columns, r, c) in ends <==> RightEndCell(rows, columns, r, c))
  }

  // ---------------------------------------------------------------------
  // The generator
  // ---------------------------------------------------------------------

  /** One line per column, each grown by pushing the last cell plus C. */
  method VerticalLines(rows: int, columns: int) returns (verticals: seq<seq<int>>)
    requires rows >= 1 && columns >= 1
    ensures verticals == Columns(rows, columns)
  {
    verticals := [];
    for i := 0 to columns
      invariant verticals == Columns(rows, columns)[..i]
    {
      var vertical := [i];
      for p := 0 to rows - 1
        invariant |vertical| == p + 1
        invariant forall j :: 0 <= j <= p ==> vertical[j] == CellIndex(columns, j, i)
      {
        vertical := vertical + [vertical[|vertical| - 1] + columns];
      }
      assert vertical == Column(rows, columns, i);
      verticals := verticals + [vertical];
    }
  }

  /** One line per row, each grown by pushing the last cell plus 1 from a
      starting number that advances by C per row. */
  method HorizontalLines(rows: int, columns: int) returns (horizontals: seq<seq<int>>)
    requires rows >= 1 && columns >= 1
    ensures horizontals == Rows(rows, columns)
  {
    horizontals := [];
    var rowStartingNum := 0;
    for k := 0 to rows
      invariant horizontals == Rows(rows, columns)[..k]
      invariant rowStartingNum == CellIndex(columns, k, 0)
    {
      var horizontal := [rowStartingNum];
      for l := 0 to columns - 1
        invariant |horizontal| == l + 1
        invariant forall j :: 0 <= j <= l ==> horizontal[j] == CellIndex(columns, k, j)
      {
        horizontal := horizontal + [horizontal[|horizontal| - 1] + 1];
      }
      assert horizontal == Row(rows, columns, k);
      horizontals := horizontals + [horizontal];
      rowStartingNum := rowStartingNum + columns;
    }
  }

  /** The inner diagonal loop: push the current cell, stop at an end point,
      otherwise step on; never more than `rows` cells. */
  method WalkDiagonal(start: int, step: int, endPoints: seq<int>, rows: int) returns (diagonal: seq<int>)
    ensures diagonal == Walk(start, step, endPoints, rows)
  {
    diagonal := [];
    var current := start;
    var n := 0;
    while n < rows
      invariant n <= rows || n == 0
      invariant diagonal + Walk(current, step, endPoints, rows - n) == Walk(start, step, endPoints, rows)
    {
      ghost var rest := Walk(current + step, step, endPoints, rows - n - 1);
      assert Walk(current, step, endPoints, rows - n)
          == [current] + if current in endPoints then [] else rest;
      if current in endPoints {
        assert [current] + [] == [current];
        diagonal := diagonal + [current];
        break;
      }
      assert (diagonal + [current]) + rest == diagonal + ([current] + rest);
      diagonal := diagonal + [current];
      current := current + step;
      n := n + 1;
    }
  }

  /** The outer diagonal loop: one walk per starting point, in order. */
  method DiagonalLines(startingPoints: seq<int>, endPoints: seq<int>, step: int, rows: int)
    returns (diagonals: seq<seq<int>>)
    ensures |diagonals| == |startingPoints|
    ensures forall m :: 0 <= m < |startingPoints| ==>
              diagonals[m] == Walk(startingPoints[m], step, endPoints, rows)
  {
    diagonals := [];
    for m := 0 to |startingPoints|
      invariant |diagonals| == m
      invariant forall m' :: 0 <= m' < m ==> diagonals[m'] == Walk(startingPoints[m'], step, endPoints, rows)
    {
      var diagonal := WalkDiagonal(startingPoints[m], step, endPoints, rows);
      diagonals := diagonals + [diagonal];
    }
  }

  /** The whole generator. Its `topSide && rightSide` guards hold whenever
      R, C >= 1, so both diagonal passes always run. */
  method CalculatePossibilities(rows: int, columns: int) returns (possibilities: seq<seq<int>>)
    requires rows >= 1 && columns >= 1
    ensures possibilities == Lines(rows, columns)
  {
    var verticals := VerticalLines(rows, columns);
    var leftSide, rightSide := verticals[0], verticals[|verticals| - 1];
    var horizontals := HorizontalLines(rows, columns);
    var topSide, bottomSide := horizontals[0], horizontals[|horizontals| - 1];

    var leftStartingPoints := Shift(topSide) + Pop(Shift(rightSide));
    var leftEndPoints := Shift(leftSide) + Pop(Shift(bottomSide));
    var lefts := DiagonalLines(leftStartingPoints, leftEndPoints, columns - 1, rows);

    var rightStartingPoints := Pop(topSide) + Pop(Shift(leftSide));
    var rightEndPoints := Shift(rightSide) + Pop(Shift(bottomSide));
    var rights := DiagonalLines(rightStartingPoints, rightEndPoints, columns + 1, rows);

    assert lefts == LeftDiagonals(rows, columns) by {
      assert leftSide == Column(rows, columns, 0) && rightSide == Column(rows, columns, columns - 1);
      assert topSide == Row(rows, columns, 0) && bottomSide == Row(rows, columns, rows - 1);
      assert leftStartingPoints == LeftStartingPoints(rows, columns);
      assert leftEndPoints == LeftEndPoints(rows, columns);
      LeftWalksAreDiagonals(rows, columns);
    }
    assert rights == RightDiagonals(rows, columns) by {
      assert leftSide == Column(rows, columns, 0) && rightSide == Column(rows, columns, columns - 1);
      assert topSide == Row(rows, columns, 0) && bottomSide == Row(rows, columns, rows - 1);
      assert rightStartingPoints == RightStartingPoints(rows, columns);
      assert rightEndPoints == RightEndPoints(rows, columns);
      RightWalksAreDiagonals(rows, columns);
    }
    possibilities := verticals + horizontals + lefts + rights;
  }

  // ---------------------------------------------------------------------
  // The walks produce the closed-form diagonals
  // ---------------------------------------------------------------------

  lemma LeftPointsAt(rows: int, columns: int)
    requires rows >= 1 && columns >= 1
    ensures |LeftStartingPoints(rows, columns)| == DiagonalCount(rows, columns)
    ensures forall m :: 0 <= m < DiagonalCount(rows, columns) ==>
              LeftStartingPoints(rows, columns)[m] == CellIndex(columns, StartRow(columns, m), LeftStartCol(columns, m))
    ensures |LeftEndPoints(rows, columns)| == (rows - 1) + Max(columns - 2, 0)
    ensures forall j :: 0 <= j < rows - 1 ==> LeftEndPoints(rows, columns)[j] == CellIndex(columns, j + 1, 0)
    ensures forall j :: rows - 1 <= j < |LeftEndPoints(rows, columns)| ==>
              LeftEndPoints(rows, columns)[j] == CellIndex(columns, rows - 1, j - rows + 2)
  {
  }

  lemma RightPointsAt(rows: int, columns: int)
    requires rows >= 1 && columns >= 1
    ensures |RightStartingPoints(rows, columns)| == DiagonalCount(rows, columns)
    ensures forall m :: 0 <= m < DiagonalCount(rows, columns) ==>
              RightStartingPoints(rows, columns)[m] == CellIndex(columns, StartRow(columns, m), RightStartCol(columns, m))
    ensures |RightEndPoints(rows, columns)| == (rows - 1) + Max(columns - 2, 0)
    ensures forall j :: 0 <= j < rows - 1 ==> RightEndPoints(rows, columns)[j] == CellIndex(columns, j + 1, columns - 1)
    ensures forall j :: rows - 1 <= j < |RightEndPoints(rows, columns)| ==>
              RightEndPoints(rows, columns)[j] == CellIndex(columns, rows - 1, j - rows + 2)
  {
  }

  /** `ends` lists the left column below the top row, then the bottom row
      strictly between its corners (for the left pass; the right pass
      lists the right column in place of the left one). */
  ghost predicate EndLayout(rows: int, columns: int, ends: seq<int>, sideCol: int)
  {
    |ends| == (rows - 1) + Max(columns - 2, 0) &&
    (forall j :: 0 <= j < rows - 1 ==> ends[j] == CellIndex(columns, j + 1, sideCol)) &&
    (forall j :: 0 <= j && rows - 1 <= j < |ends| ==> ends[j] == CellIndex(columns, rows - 1, j - rows + 2))
  }

  /** Every cell of the side column below the top row, and of the bottom row
      strictly between the corners, is listed. */
  lemma EndsListed(rows: int, columns: int, ends: seq<int>, sideCol: int, row: int, col: int)
    requires rows >= 1 && columns >= 1 && EndLayout(rows, columns, ends, sideCol)
    requires (col == sideCol && 1 <= row < rows) || (row == rows - 1 && 1 <= col <= columns - 2)
    ensures CellIndex(columns, row, col) in ends
  {
    if col == sideCol && 1 <= row < rows {
      assert ends[row - 1] == CellIndex(columns, row, col);
    } else {
      assert ends[rows - 1 + col - 1] == CellIndex(columns, row, col);
    }
  }

  /** Only those cells are listed. */
  lemma OnlyEndsListed(rows: int, columns: int, ends: seq<int>, sideCol: int, row: int, col: int)
    requires rows >= 1 && columns >= 1 && EndLayout(rows, columns, ends, sideCol)
    requires 0 <= sideCol < columns && OnBoard(rows, columns, row, col)
    requires CellIndex(columns, row, col) in ends
    ensures (col == sideCol && row >= 1) || (row == rows - 1 && 1 <= col <= columns - 2)
  {
    var i :| 0 <= i < |ends| && ends[i] == CellIndex(columns, row, col);
    if i < rows - 1 {
      CellIndexInjective(columns, i + 1, sideCol, row, col);
    } else {
      CellIndexInjective(columns, rows - 1, i - rows + 2, row, col);
    }
  }

  /** Every cell, in the board's numbering, is an end point of the left
      pass exactly when it is a left end cell. */
  lemma LeftEndPointsExact(rows: int, columns: int)
    requires rows >= 1 && columns >= 1
    ensures LeftEndSet(rows, columns, LeftEndPoints(rows, columns))
  {
    LeftPointsAt(rows, columns);
    var ends := LeftEndPoints(rows, columns);
    assert EndLayout(rows, columns, ends, 0);
    forall r, c | 0 <= r < rows && 0 <= c < columns
      ensures CellIndex(columns, r, c) in ends <==> LeftEndCell(rows, columns, r, c)
    {
      if LeftEndCell(rows, columns, r, c) {
        EndsListed(rows, columns, ends, 0, r, c);
      } else if CellIndex(columns, r, c) in ends {
        OnlyEndsListed(rows, columns, ends, 0, r, c);
      }
    }
  }

  /** Every cell is an end point of the right pass exactly when it is a
      right end cell. */
  lemma RightEndPointsExact(rows: int, columns: int)
    requires rows >= 1 && columns >= 1
    ensures RightEndSet(rows, columns, RightEndPoints(rows, columns))
  {
    RightPointsAt(rows, columns);
    var ends := RightEndPoints(rows, columns);
    assert EndLayout(rows, columns, ends, columns - 1);
    forall r, c | 0 <= r < rows && 0 <= c < columns
      ensures CellIndex(columns, r, c) in ends <==> RightEndCell(rows, columns, r, c)
    {
      if RightEndCell(rows, columns, r, c) {
        EndsListed(rows, columns, ends, columns - 1, r, c);
      } else if CellIndex(columns, r, c) in ends {
        OnlyEndsListed(rows, columns, ends, columns - 1, r, c);
      }
    }
  }

  /** Walking down-left from any cell but the top-left corner yields the
      closed-form diagonal, provided the walk has enough fuel and, when it
      starts on the bottom-right corner (not an end point), no more than one. */
  lemma {:induction false} LeftWalk(rows: int, columns: int, ends: seq<int>, row: int, col: int, fuel: int)
    requires rows >= 1 && columns >= 1 && OnBoard(rows, columns, row, col)
    requires LeftEndSet(rows, columns, ends)
    requires row == 0 ==> col >= 1
    requires row == rows - 1 && col == columns - 1 && columns >= 2 ==> fuel == 1
    requires fuel >= Min(col, rows - 1 - row) + 1
    ensures Walk(CellIndex(columns, row, col), columns - 1, ends, fuel) == LeftDiagonal(rows, columns, row, col)
    decreases rows - row
  {
    var x := CellIndex(columns, row, col);
    assert x in ends <==> LeftEndCell(rows, columns, row, col);
    LeftDiagonalCons(rows, columns, row, col);
    if 0 < col && row < rows - 1 {
      CellIndexStep(columns, row, col, -1);
      LeftWalk(rows, columns, ends, row + 1, col - 1, fuel - 1);
      assert Walk(x, columns - 1, ends, fuel)
          == [x] + Walk(CellIndex(columns, row + 1, col - 1), columns - 1, ends, fuel - 1);
    } else {
      assert Walk(x, columns - 1, ends, fuel) == [x];
    }
  }

  /** A left diagonal is its first cell followed by the left diagonal one
      row down and one column left, unless the first cell is on the left
      column or the bottom row. */
  lemma LeftDiagonalCons(rows: int, columns: int, row: int, col: int)
    requires OnBoard(rows, columns, row, col)
    ensures LeftDiagonal(rows, columns, row, col) ==
            [CellIndex(columns, row, col)] +
            if col == 0 || row == rows - 1 then [] else LeftDiagonal(rows, columns, row + 1, col - 1)
  {
  }

  /** Walking down-right from any cell but the top-right corner yields the
      closed-form diagonal, under the same fuel conditions with the
      bottom-left corner in place of the bottom-right one. */
  lemma {:induction false} RightWalk(rows: int, columns: int, ends: seq<int>, row: int, col: int, fuel: int)
    requires rows >= 1 && columns >= 1 && OnBoard(rows, columns, row, col)
    requires RightEndSet(rows, columns, ends)
    requires row == 0 ==> col <= columns - 2
    requires row == rows - 1 && col == 0 && columns >= 2 ==> fuel == 1
    requires fuel >= Min(columns - 1 - col, rows - 1 - row) + 1
    ensures Walk(CellIndex(columns, row, col), columns + 1, ends, fuel) == RightDiagonal(rows, columns, row, col)
    decreases rows - row
  {
    var x := CellIndex(columns, row, col);
    assert x in ends <==> RightEndCell(rows, columns, row, col);
    RightDiagonalCons(rows, columns, row, col);
    if col < columns - 1 && row < rows - 1 {
      CellIndexStep(columns, row, col, 1);
      RightWalk(rows, columns, ends, row + 1, col + 1, fuel - 1);
      assert Walk(x, columns + 1, ends, fuel)
          == [x] + Walk(CellIndex(columns, row + 1, col + 1), columns + 1, ends, fuel - 1);
    } else {
      assert Walk(x, columns + 1, ends, fuel) == [x];
    }
  }

  /** A right diagonal is its first cell followed by the right diagonal one
      row down and one column right, unless the first cell is on the right
      column or the bottom row. */
  lemma RightDiagonalCons(rows: int, columns: int, row: int, col: int)
    requires OnBoard(rows, columns, row, col)
    ensures RightDiagonal(rows, columns, row, col) ==
            [CellIndex(columns, row, col)] +
            if col == columns - 1 || row == rows - 1 then [] else RightDiagonal(rows, columns, row + 1, col + 1)
  {
  }

  /** The generator's left pass yields exactly the closed-form left diagonals. */
  lemma LeftWalksAreDiagonals(rows: int, columns: int)
    requires rows >= 1 && columns >= 1
    ensures |LeftStartingPoints(rows, columns)| == |LeftDiagonals(rows, columns)|
    ensures forall m :: 0 <= m < |LeftStartingPoints(rows, columns)| ==>
              Walk(LeftStartingPoints(rows, columns)[m], columns - 1, LeftEndPoints(rows, columns), rows)
              == LeftDiagonals(rows, columns)[m]
  {
    LeftPointsAt(rows, columns);
    LeftEndPointsExact(rows, columns);
    forall m | 0 <= m < DiagonalCount(rows, columns)
      ensures Walk(LeftStartingPoints(rows, columns)[m], columns - 1, LeftEndPoints(rows, columns), rows)
              == LeftDiagonals(rows, columns)[m]
    {
      LeftWalk(rows, columns, LeftEndPoints(rows, columns), StartRow(columns, m), LeftStartCol(columns, m), rows);
    }
  }

  /** The generator's right pass yields exactly the closed-form right diagonals. */
  lemma RightWalksAreDiagonals(rows: int, columns: int)
    requires rows >= 1 && columns >= 1
    ensures |RightStartingPoints(rows, columns)| == |RightDiagonals(rows, columns)|
    ensures forall m :: 0 <= m < |RightStartingPoints(rows, columns)| ==>
              Walk(RightStartingPoints(rows, columns)[m], columns + 1, RightEndPoints(rows, columns), rows)
              == RightDiagonals(rows, columns)[m]
  {
    RightPointsAt(rows, columns);
    RightEndPointsExact(rows, columns);
    forall m | 0 <= m < DiagonalCount(rows, columns)
      ensures Walk(RightStartingPoints(rows, columns)[m], columns + 1, RightEndPoints(rows, columns), rows)
              == RightDiagonals(rows, columns)[m]
    {
      RightWalk(rows, columns, RightEndPoints(rows, columns), StartRow(columns, m), RightStartCol(columns, m), rows);
    }
  }

  // ---------------------------------------------------------------------
  // What the generated lines look like
  // ---------------------------------------------------------------------

  /** How far apart consecutive cells of line `i` are: C in a column, 1 in
      a row, C - 1 in a left diagonal, C + 1 in a right diagonal. */
  function LineStep(rows: int, columns: int, i: int): int
    requires rows >= 1 && columns >= 1
  {
    if i < columns then columns
    else if i < columns + rows then 1
    else if i < columns + rows + DiagonalCount(rows, columns) then columns - 1
    else columns + 1
  }

  /** Which closed-form line sits at position `i` of the list. */
  lemma LinesAt(rows: int, columns: int, i: int)
    requires rows >= 1 && columns >= 1 && 0 <= i < |Lines(rows, columns)|
    ensures i < columns ==> Lines(rows, columns)[i] == Column(rows, columns, i)
    ensures columns <= i < columns + rows ==> Lines(rows, columns)[i] == Row(rows, columns, i - columns)
    ensures columns + rows <= i < columns + rows + DiagonalCount(rows, columns) ==>
              var m := i - columns - rows;
              Lines(rows, columns)[i] == LeftDiagonal(rows, columns, StartRow(columns, m), LeftStartCol(columns, m))
    ensures columns + rows + DiagonalCount(rows, columns) <= i ==>
              var m := i - columns - rows - DiagonalCount(rows, columns);
              Lines(rows, columns)[i] == RightDiagonal(rows, columns, StartRow(columns, m), RightStartCol(columns, m))
  {
  }

  lemma ColumnSteps(rows: int, columns: int, col: int)
    requires rows >= 1
    ensures forall j :: 0 < j < rows ==> Column(rows, columns, col)[j] == Column(rows, columns, col)[j - 1] + columns
  {
    forall j | 0 < j < rows ensures Column(rows, columns, col)[j] == Column(rows, columns, col)[j - 1] + columns {
      CellIndexNextRow(columns, j - 1, col);
    }
  }

  lemma LeftDiagonalSteps(rows: int, columns: int, row: int, col: int)
    requires 0 <= row < rows && 0 <= col
    ensures var d := LeftDiagonal(rows, columns, row, col);
            forall j :: 0 < j < |d| ==> d[j] == d[j - 1] + (columns - 1)
  {
    var d := LeftDiagonal(rows, columns, row, col);
    forall j | 0 < j < |d| ensures d[j] == d[j - 1] + (columns - 1) {
      CellIndexStep(columns, row + j - 1, col - j + 1, -1);
    }
  }

  lemma RightDiagonalSteps(rows: int, columns: int, row: int, col: int)
    requires 0 <= row < rows && col < columns
    ensures var d := RightDiagonal(rows, columns, row, col);
            forall j :: 0 < j < |d| ==> d[j] == d[j - 1] + (columns + 1)
  {
    var d := RightDiagonal(rows, columns, row, col);
    forall j | 0 < j < |d| ensures d[j] == d[j - 1] + (columns + 1) {
      CellIndexStep(columns, row + j - 1, col + j - 1, 1);
    }
  }

  /** Line `i` in the order columns, rows, left diagonals, right diagonals:
      column i starts at i and has R cells, row r starts at rC and has C
      cells, a diagonal has between 1 and R cells, and the cells of every
      line advance by its step. */
  lemma LineShape(rows: int, columns: int, i: int)
    requires rows >= 1 && columns >= 1 && 0 <= i < |Lines(rows, columns)|
    ensures var line := Lines(rows, columns)[i];
            (i < columns ==> |line| == rows && line[0] == i) &&
            (columns <= i < columns + rows ==> |line| == columns && line[0] == (i - columns) * columns) &&
            (columns + rows <= i ==> 1 <= |line| <= rows) &&
            forall j :: 0 < j < |line| ==> line[j] == line[j - 1] + LineStep(rows, columns, i)
  {
    var n := DiagonalCount(rows, columns);
    LinesAt(rows, columns, i);
    if i < columns {
      ColumnSteps(rows, columns, i);
    } else if i < columns + rows {
    } else if i < columns + rows + n {
      LeftDiagonalSteps(rows, columns, StartRow(columns, i - columns - rows), LeftStartCol(columns, i - columns - rows));
    } else {
      RightDiagonalSteps(rows, columns, StartRow(columns, i - columns - rows - n), RightStartCol(columns, i - columns - rows - n));
    }
  }

  /** There are R + C + 2((C - 1) + max(R - 2, 0)) lines, and each has the
      shape `LineShape` gives it. */
  lemma LineShapes(rows: int, columns: int)
    requires rows >= 1 && columns >= 1
    ensures |Lines(rows, columns)| == rows + columns + 2 * ((columns - 1) + Max(rows - 2, 0))
    ensures forall i :: 0 <= i < |Lines(rows, columns)| ==>
              forall j :: 0 < j < |Lines(rows, columns)[i]| ==>
                Lines(rows, columns)[i][j] == Lines(rows, columns)[i][j - 1] + LineStep(rows, columns, i)
  {
    forall i | 0 <= i < |Lines(rows, columns)|
      ensures forall j :: 0 < j < |Lines(rows, columns)[i]| ==>
                Lines(rows, columns)[i][j] == Lines(rows, columns)[i][j - 1] + LineStep(rows, columns, i)
    {
      LineShape(rows, columns, i);
    }
  }

  /** The cells of a column are cells of the board. */
  lemma ColumnInBounds(rows: int, columns: int, col: int)
    requires rows >= 1 && 0 <= col < columns
    ensures forall j :: 0 <= j < rows ==> 0 <= Column(rows, columns, col)[j] < rows * columns
  {
    forall j | 0 <= j < rows ensures 0 <= Column(rows, columns, col)[j] < rows * columns {
      CellIndexBounds(rows, columns, j, col);
    }
  }

  /** The cells of a row are cells of the board. */
  lemma RowInBounds(rows: int, columns: int, row: int)
    requires columns >= 1 && 0 <= row < rows
    ensures forall j :: 0 <= j < columns ==> 0 <= Row(rows, columns, row)[j] < rows * columns
  {
    forall j | 0 <= j < columns ensures 0 <= Row(rows, columns, row)[j] < rows * columns {
      CellIndexBounds(rows, columns, row, j);
    }
  }

  /** The cells of a left diagonal from an on-board cell are cells of the
      board. */
  lemma LeftDiagonalInBounds(rows: int, columns: int, row: int, col: int)
    requires OnBoard(rows, columns, row, col)
    ensures forall j :: 0 <= j < |LeftDiagonal(rows, columns, row, col)| ==>
              0 <= LeftDiagonal(rows, columns, row, col)[j] < rows * columns
  {
    var d := LeftDiagonal(rows, columns, row, col);
    forall j | 0 <= j < |d| ensures 0 <= d[j] < rows * columns {
      CellIndexBounds(rows, columns, row + j, col - j);
    }
  }

  /** The cells of a right diagonal from an on-board cell are cells of the
      board. */
  lemma RightDiagonalInBounds(rows: int, columns: int, row: int, col: int)
    requires OnBoard(rows, columns, row, col)
    ensures forall j :: 0 <= j < |RightDiagonal(rows, columns, row, col)| ==>
              0 <= RightDiagonal(rows, columns, row, col)[j] < rows * columns
  {
    var d := RightDiagonal(rows, columns, row, col);
    forall j | 0 <= j < |d| ensures 0 <= d[j] < rows * columns {
      CellIndexBounds(rows, columns, row + j, col + j);
    }
  }

  /** Every cell number in line `i` is a cell of the board. */
  lemma LineInBounds(rows: int, columns: int, i: int)
    requires rows >= 1 && columns >= 1 && 0 <= i < |Lines(rows, columns)|
    ensures forall j :: 0 <= j < |Lines(rows, columns)[i]| ==> 0 <= Lines(rows, columns)[i][j] < rows * columns
  {
    var n := DiagonalCount(rows, columns);
    LinesAt(rows, columns, i);
    if i < columns {
      ColumnInBounds(rows, columns, i);
    } else if i < columns + rows {
      RowInBounds(rows, columns, i - columns);
    } else if i < columns + rows + n {
      var m := i - columns - rows;
      LeftDiagonalInBounds(rows, columns, StartRow(columns, m), LeftStartCol(columns, m));
    } else {
      var m := i - columns - rows - n;
      RightDiagonalInBounds(rows, columns, StartRow(columns, m), RightStartCol(columns, m));
    }
  }

  /** Every cell number in every line is a cell of the board. */
  lemma LinesInBounds(rows: int, columns: int)
    requires rows >= 1 && columns >= 1
    ensures forall i, j :: 0 <= i < |Lines(rows, columns)| && 0 <= j < |Lines(rows, columns)[i]| ==>
              0 <= Lines(rows, columns)[i][j] < rows * columns
  {
    forall i | 0 <= i < |Lines(rows, columns)|
      ensures forall j :: 0 <= j < |Lines(rows, columns)[i]| ==> 0 <= Lines(rows, columns)[i][j] < rows * columns
    {
      LineInBounds(rows, columns, i);
    }
  }

  /** Each left diagonal starts on the top row or the right column, stops at
      the first cell it reaches on the left column or the bottom row, and
      has at most R cells. */
  lemma LeftDiagonalBorders(rows: int, columns: int, m: int)
    requires rows >= 1 && columns >= 1 && 0 <= m < DiagonalCount(rows, columns)
    ensures var d := LeftDiagonals(rows, columns)[m];
            1 <= |d| <= rows &&
            (forall j :: 0 <= j < |d| ==> 0 <= d[j] < rows * columns) &&
            (RowOf(d[0], columns) == 0 || ColumnOf(d[0], columns) == columns - 1) &&
            (ColumnOf(d[|d| - 1], columns) == 0 || RowOf(d[|d| - 1], columns) == rows - 1) &&
            forall j :: 0 <= j < |d| - 1 ==> ColumnOf(d[j], columns) != 0 && RowOf(d[j], columns) != rows - 1
  {
    var r, c := StartRow(columns, m), LeftStartCol(columns, m);
    var d := LeftDiagonals(rows, columns)[m];
    assert d == LeftDiagonal(rows, columns, r, c);
    forall j | 0 <= j < |d|
      ensures 0 <= d[j] < rows * columns
      ensures RowOf(d[j], columns) == r + j && ColumnOf(d[j], columns) == c - j
    {
      CellIndexBounds(rows, columns, r + j, c - j);
      CellIndexRoundTrip(columns, r + j, c - j);
    }
  }

  /** Each right diagonal starts on the top row or the left column, stops at
      the first cell it reaches on the right column or the bottom row, and
      has at most R cells. */
  lemma RightDiagonalBorders(rows: int, columns: int, m: int)
    requires rows >= 1 && columns >= 1 && 0 <= m < DiagonalCount(rows, columns)
    ensures var d := RightDiagonals(rows, columns)[m];
            1 <= |d| <= rows &&
            (forall j :: 0 <= j < |d| ==> 0 <= d[j] < rows * columns) &&
            (RowOf(d[0], columns) == 0 || ColumnOf(d[0], columns) == 0) &&
            (ColumnOf(d[|d| - 1], columns) == columns - 1 || RowOf(d[|d| - 1], columns) == rows - 1) &&
            forall j :: 0 <= j < |d| - 1 ==> ColumnOf(d[j], columns) != columns - 1 && RowOf(d[j], columns) != rows - 1
  {
    var r, c := StartRow(columns, m), RightStartCol(columns, m);
    var d := RightDiagonals(rows, columns)[m];
    assert d == RightDiagonal(rows, columns, r, c);
    forall j | 0 <= j < |d|
      ensures 0 <= d[j] < rows * columns
      ensures RowOf(d[j], columns) == r + j && ColumnOf(d[j], columns) == c + j
    {
      CellIndexBounds(rows, columns, r + j, c + j);
      CellIndexRoundTrip(columns, r + j, c + j);
    }
  }

  /** On the default 3 x 3 board the generator yields twelve lines: three
      columns, three rows, and three diagonals of each direction, two of
      them cut short by a corner. */
  lemma ThreeByThree()
    ensures Lines(3, 3) == [[0, 3, 6], [1, 4, 7], [2, 5, 8],
                            [0, 1, 2], [3, 4, 5], [6, 7, 8],
                            [1, 3], [2, 4, 6], [5, 7],
                            [0, 4, 8], [1, 5], [3, 7]]
  {
    assert Column(3, 3, 0) == [0, 3, 6];
    assert Column(3, 3, 1) == [1, 4, 7];
    assert Column(3, 3, 2) == [2, 5, 8];
    assert Columns(3, 3) == [[0, 3, 6], [1, 4, 7], [2, 5, 8]];
    assert Row(3, 3, 0) == [0, 1, 2];
    assert Row(3, 3, 1) == [3, 4, 5];
    assert Row(3, 3, 2) == [6, 7, 8];
    assert Rows(3, 3) == [[0, 1, 2], [3, 4, 5], [6, 7, 8]];
    assert LeftDiagonal(3, 3, 0, 1) == [1, 3];
    assert LeftDiagonal(3, 3, 0, 2) == [2, 4, 6];
    assert LeftDiagonal(3, 3, 1, 2) == [5, 7];
    assert LeftDiagonals(3, 3) == [[1, 3], [2, 4, 6], [5, 7]];
    assert RightDiagonal(3, 3, 0, 0) == [0, 4, 8];
    assert RightDiagonal(3, 3, 0, 1) == [1, 5];
    assert RightDiagonal(3, 3, 1, 0) == [3, 7];
    assert RightDiagonals(3, 3) == [[0, 4, 8], [1, 5], [3, 7]];
  }
}
