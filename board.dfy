/** The board of an R x C game: cell marks, an optional value, and the
    row-major numbering of cells shared by every other module. */
module Board {

  /** What a cell holds. `Empty` stands for the `null` the board starts with. */
  datatype Mark = Empty | X | O

  datatype Option<T> = None | Some(value: T)

  /** The other player's mark; `Empty` has none. */
  function Opposite(m: Mark): Mark
  {
    match m
    case X => O
    case O => X
    case Empty => Empty
  }

  /** The mark at `index`. Reading an array past its end gives `undefined`,
      which is neither mark, so such a cell reads as `Empty`. */
  function CellAt(squares: seq<Mark>, index: int): Mark
  {
    if 0 <= index < |squares| then squares[index] else Empty
  }

  /** Row-major number of the cell in `row`, `col` on a board `columns` wide. */
  function CellIndex(columns: int, row: int, col: int): int
  {
    row * columns + col
  }

  /** Row of a cell number, computed as the highlighting code does:
      subtract the remainder, then divide. */
  function RowOf(index: int, columns: int): int
    requires index >= 0 && columns >= 1
  {
    (index - index % columns) / columns
  }

  /** Column of a cell number. For a non-negative index the remainder of
      JavaScript and the Euclidean remainder of Dafny agree. */
  function ColumnOf(index: int, columns: int): int
    requires index >= 0 && columns >= 1
  {
    index % columns
  }

  predicate OnBoard(rows: int, columns: int, row: int, col: int)
  {
    0 <= row < rows && 0 <= col < columns
  }

  lemma MulLeq(a: int, b: int, c: int)
    requires a <= b && c >= 0
    ensures a * c <= b * c
  {
    assert b * c - a * c == (b - a) * c;
  }

  /** Two cells with the same number are the same cell. */
  lemma CellIndexInjective(columns: int, r1: int, c1: int, r2: int, c2: int)
    requires columns >= 1
    requires 0 <= c1 < columns && 0 <= c2 < columns
    requires CellIndex(columns, r1, c1) == CellIndex(columns, r2, c2)
    ensures r1 == r2 && c1 == c2
  {
    if r1 < r2 {
      MulLeq(r1 + 1, r2, columns);
      assert false;
    } else if r2 < r1 {
      MulLeq(r2 + 1, r1, columns);
      assert false;
    }
  }

  /** One row down is C cells on. */
  lemma CellIndexNextRow(columns: int, row: int, col: int)
    ensures CellIndex(columns, row + 1, col) == CellIndex(columns, row, col) + columns
  {
  }

  /** One row down and `dc` columns across is C + dc cells on. */
  lemma CellIndexStep(columns: int, row: int, col: int, dc: int)
    ensures CellIndex(columns, row + 1, col + dc) == CellIndex(columns, row, col) + columns + dc
  {
    CellIndexNextRow(columns, row, col);
  }

  /** Every cell of an R x C board has a number in [0, R*C). */
  lemma CellIndexBounds(rows: int, columns: int, row: int, col: int)
    requires OnBoard(rows, columns, row, col)
    ensures 0 <= CellIndex(columns, row, col) < rows * columns
  {
    MulLeq(0, row, columns);
    MulLeq(row + 1, rows, columns);
  }

  /** Highlighting recovers the row and column the board was drawn with. */
  lemma CellIndexRoundTrip(columns: int, row: int, col: int)
    requires columns >= 1 && row >= 0 && 0 <= col < columns
    ensures CellIndex(columns, row, col) >= 0
    ensures RowOf(CellIndex(columns, row, col), columns) == row
    ensures ColumnOf(CellIndex(columns, row, col), columns) == col
  {
    var i := CellIndex(columns, row, col);
    MulLeq(0, row, columns);
    DivMod(i, columns);
    CellIndexInjective(columns, i / columns, i % columns, row, col);
  }

  /** The remainder and the quotient of the highlighting code number the
      same cell again. */
  lemma DivMod(index: int, columns: int)
    requires index >= 0 && columns >= 1
    ensures 0 <= ColumnOf(index, columns) < columns
    ensures RowOf(index, columns) == index / columns
    ensures index == CellIndex(columns, index / columns, index % columns)
  {
    var q, r := index / columns, index % columns;
    assert index - r == q * columns;
    var q2, r2 := (q * columns) / columns, (q * columns) % columns;
    CellIndexInjective(columns, q2, r2, q, 0);
  }

  /** Every cell number of an R x C board splits into an on-board row and
      column that number it again. */
  lemma IndexRoundTrip(rows: int, columns: int, index: int)
    requires columns >= 1 && 0 <= index < rows * columns
    ensures OnBoard(rows, columns, RowOf(index, columns), ColumnOf(index, columns))
    ensures CellIndex(columns, RowOf(index, columns), ColumnOf(index, columns)) == index
  {
    var q := index / columns;
    DivMod(index, columns);
    if q < 0 {
      MulLeq(q, -1, columns);
      assert false;
    }
    if q >= rows {
      MulLeq(rows, q, columns);
      assert false;
    }
  }
}
