/** The game component's state and its transitions: a click on a cell, the
    restart button, and the effect that rebuilds the board when its size
    changes; and the status line shown under the board. */
module GameState {
  import opened Board
  import opened LineGenerator
  import opened WinScanner

  /** The component's state: the cells, whose turn it is, the board size,
      the target run length and the lines the scanner walks. */
  datatype Game = Game(squares: seq<Mark>, isXNext: bool, rows: int, columns: int,
                       numToWin: int, winPossibilities: seq<seq<int>>)

  /** A state the effect has brought up to date: R x C cells, and the lines
      of an R x C board. */
  ghost predicate Valid(g: Game)
  {
    g.rows >= 1 && g.columns >= 1 &&
    |g.squares| == g.rows * g.columns &&
    g.winPossibilities == Lines(g.rows, g.columns)
  }

  /** `n` empty cells, as a fresh array filled with `null`. */
  function EmptyBoard(n: int): (b: seq<Mark>)
    requires n >= 0
    ensures |b| == n
    ensures forall i :: 0 <= i < n ==> b[i] == Empty
  {
    seq(n, _ => Empty)
  }

  /** How many cells hold `m`. */
  function Count(squares: seq<Mark>, m: Mark): nat
  {
    if squares == [] then 0
    else (if squares[0] == m then 1 else 0) + Count(squares[1..], m)
  }

  // ---------------------------------------------------------------------
  // The component
  // ---------------------------------------------------------------------

  /** The state before the first effect has run: nine empty cells, X to
      move, a 3 x 3 board with a target of three, and no lines yet. */
  function Initial(): (g: Game)
    ensures g.rows == 3 && g.columns == 3 && g.numToWin == 3 && g.isXNext
    ensures |g.squares| == 9 && Count(g.squares, X) == 0 && Count(g.squares, O) == 0
    ensures g.winPossibilities == []
  {
    var g := Game(EmptyBoard(9), true, 3, 3, 3, []);
    EmptyBoardCounts(9, X);
    EmptyBoardCounts(9, O);
    g
  }

  /** The effect that runs whenever the number of rows or columns changes
      (and once after the first render): it regenerates the lines and
      clears the board to the new size. The turn and the target stay. */
  function Refresh(g: Game): (r: Game)
    requires g.rows >= 1 && g.columns >= 1
    ensures Valid(r)
    ensures forall i :: 0 <= i < |r.squares| ==> r.squares[i] == Empty
    ensures r.rows == g.rows && r.columns == g.columns
    ensures r.isXNext == g.isXNext && r.numToWin == g.numToWin
  {
    MulLeq(0, g.rows, g.columns);
    g.(winPossibilities := Lines(g.rows, g.columns), squares := EmptyBoard(g.rows * g.columns))
  }

  /** The state once mounted: the effect has run on the initial state. */
  function Mount(): (g: Game)
    ensures g.rows == 3 && g.columns == 3 && g.numToWin == 3 && g.squares == EmptyBoard(9)
    ensures Valid(g) && Balanced(g) && g.isXNext
  {
    var g := Refresh(Initial());
    EmptyBoardCounts(9, X);
    EmptyBoardCounts(9, O);
    g
  }

  /** A new board size: the rows and columns change, then the effect runs. */
  function Resize(g: Game, rows: int, columns: int): (r: Game)
    requires rows >= 1 && columns >= 1
    ensures Valid(r) && r.rows == rows && r.columns == columns
    ensures forall i :: 0 <= i < |r.squares| ==> r.squares[i] == Empty
    ensures r.isXNext == g.isXNext && r.numToWin == g.numToWin
  {
    Refresh(g.(rows := rows, columns := columns))
  }

  /** The mark the next click places. */
  function NextSymbol(g: Game): Mark
  {
    if g.isXNext then X else O
  }

  /** The winner computed on every render from the current cells and lines. */
  function CurrentWinner(g: Game): Option<WinResult>
  {
    Winner(g.squares, g.winPossibilities, g.numToWin)
  }

  /** A click on cell `i`: ignored when the cell is taken or the game is
      won; otherwise the cell gets the current mark, no other cell
      changes, and the turn passes. */
  function Move(g: Game, i: int): (r: Game)
    requires 0 <= i < |g.squares|
    ensures g.squares[i] != Empty || CurrentWinner(g).Some? ==> r == g
    ensures g.squares[i] == Empty && CurrentWinner(g).None? ==>
              |r.squares| == |g.squares| && r.squares[i] == NextSymbol(g) &&
              (forall j :: 0 <= j < |g.squares| && j != i ==> r.squares[j] == g.squares[j]) &&
              r.isXNext == !g.isXNext &&
              r.rows == g.rows && r.columns == g.columns && r.numToWin == g.numToWin &&
              r.winPossibilities == g.winPossibilities
  {
    if g.squares[i] != Empty || CurrentWinner(g).Some? then g
    else g.(squares := g.squares[i := NextSymbol(g)], isXNext := !g.isXNext)
  }

  /** The restart button: R * C empty cells and X to move. */
  function Restart(g: Game): (r: Game)
    requires g.rows * g.columns >= 0
    ensures |r.squares| == g.rows * g.columns
    ensures forall i :: 0 <= i < |r.squares| ==> r.squares[i] == Empty
    ensures r.isXNext
    ensures r.rows == g.rows && r.columns == g.columns && r.numToWin == g.numToWin
    ensures r.winPossibilities == g.winPossibilities
  {
    g.(squares := EmptyBoard(g.rows * g.columns), isXNext := true)
  }

  /** How a mark is spelled in the status line; concatenating `null` to a
      string spells it "null". */
  function MarkName(m: Mark): string
  {
    match m
    case X => "X"
    case O => "O"
    case Empty => "null"
  }

  predicate StartsWith(s: string, prefix: string)
  {
    |prefix| <= |s| && s[..|prefix|] == prefix
  }

  /** The status line: a win first, then a draw, then whose turn it is. */
  function GetStatus(g: Game): (s: string)
    ensures StartsWith(s, "Winner: ") <==> CurrentWinner(g).Some?
    ensures s == "Draw!" <==> CurrentWinner(g).None? && BoardFull(g.squares)
    ensures StartsWith(s, "Next player: ") <==> CurrentWinner(g).None? && !BoardFull(g.squares)
    ensures CurrentWinner(g).Some? ==> s == "Winner: " + MarkName(CurrentWinner(g).value.winner)
    ensures CurrentWinner(g).None? && !BoardFull(g.squares) ==> s == "Next player: " + MarkName(NextSymbol(g))
  {
    var w := CurrentWinner(g);
    if w.Some? then
      var s := "Winner: " + MarkName(w.value.winner);
      assert s[..8] == "Winner: ";
      s
    else if BoardFull(g.squares) then "Draw!"
    else
      var s := "Next player: " + MarkName(NextSymbol(g));
      assert s[..13] == "Next player: ";
      assert s[..8] != "Winner: " by { assert s[0] != 'W'; }
      s
  }

  // ---------------------------------------------------------------------
  // Counting marks
  // ---------------------------------------------------------------------

  lemma {:induction false} EmptyBoardCounts(n: int, m: Mark)
    requires n >= 0
    ensures Count(EmptyBoard(n), m) == if m == Empty then n else 0
    decreases n
  {
    if n > 0 {
      assert EmptyBoard(n)[1..] == EmptyBoard(n - 1);
      EmptyBoardCounts(n - 1, m);
    }
  }

  /** Writing one cell moves it from the count of its old mark to the count
      of its new one. */
  lemma {:induction false} CountUpdate(squares: seq<Mark>, i: int, v: Mark, m: Mark)
    requires 0 <= i < |squares|
    ensures Count(squares[i := v], m) ==
            Count(squares, m) - (if squares[i] == m then 1 else 0) + (if v == m then 1 else 0)
    decreases |squares|
  {
    if i == 0 {
      assert squares[i := v][1..] == squares[1..];
    } else {
      assert squares[i := v][1..] == squares[1..][i - 1 := v];
      CountUpdate(squares[1..], i - 1, v, m);
    }
  }

  /** A board is full exactly when no cell is empty. */
  lemma {:induction false} FullIffNoEmpty(squares: seq<Mark>)
    ensures BoardFull(squares) <==> Count(squares, Empty) == 0
    decreases |squares|
  {
    if squares != [] {
      FullIffNoEmpty(squares[1..]);
      if BoardFull(squares[1..]) && squares[0] != Empty {
        forall i | 0 <= i < |squares| ensures squares[i] != Empty {
          if i > 0 { assert squares[i] == squares[1..][i - 1]; }
        }
      }
    }
  }

  // ---------------------------------------------------------------------
  // What the transitions keep
  // ---------------------------------------------------------------------

  /** Turns alternate from X: X has as many marks as O when X is to move,
      and one more when O is. */
  ghost predicate Balanced(g: Game)
  {
    Count(g.squares, X) == Count(g.squares, O) + (if g.isXNext then 0 else 1)
  }

  lemma MovePreservesValid(g: Game, i: int)
    requires Valid(g) && 0 <= i < |g.squares|
    ensures Valid(Move(g, i))
  {
  }

  /** A click keeps the marks balanced with the turn. */
  lemma MovePreservesBalance(g: Game, i: int)
    requires Balanced(g) && 0 <= i < |g.squares|
    ensures Balanced(Move(g, i))
  {
    if g.squares[i] == Empty && CurrentWinner(g).None? {
      CountUpdate(g.squares, i, NextSymbol(g), X);
      CountUpdate(g.squares, i, NextSymbol(g), O);
    }
  }

  /** A click that changes anything fills exactly one empty cell, so a game
      ends after at most R * C effective clicks. */
  lemma MoveFillsOneCell(g: Game, i: int)
    requires 0 <= i < |g.squares|
    ensures Move(g, i) != g ==> Count(Move(g, i).squares, Empty) == Count(g.squares, Empty) - 1
    ensures Move(g, i) == g <==> g.squares[i] != Empty || CurrentWinner(g).Some?
  {
    if g.squares[i] == Empty && CurrentWinner(g).None? {
      CountUpdate(g.squares, i, NextSymbol(g), Empty);
      assert Move(g, i).isXNext != g.isXNext;
    }
  }

  /** Restart keeps a valid state valid, balances it, and leaves nobody
      winning. */
  lemma RestartResets(g: Game)
    requires Valid(g)
    ensures Valid(Restart(g)) && Balanced(Restart(g))
    ensures CurrentWinner(Restart(g)).None?
    ensures GetStatus(Restart(g)) == "Next player: X"
  {
    MulLeq(0, g.rows, g.columns);
    var r := Restart(g);
    EmptyBoardCounts(g.rows * g.columns, X);
    EmptyBoardCounts(g.rows * g.columns, O);
    NoMarksNoWinner(r.squares, r.winPossibilities, r.numToWin);
    MulLeq(1, g.rows, g.columns);
    assert r.squares[0] == Empty;
  }

  /** Resizing keeps the turn: after X's first move on a fresh 3 x 3 board,
      a resize to 4 x 4 leaves an empty board with O to move, so the marks
      no longer follow the turn. */
  lemma ResizeKeepsTurn()
    ensures var g := Resize(Move(Mount(), 0), 4, 4);
            !g.isXNext && Count(g.squares, X) == 0 && !Balanced(g)
  {
    var m := Mount();
    NoMarksNoWinner(m.squares, m.winPossibilities, m.numToWin);
    assert Move(m, 0).isXNext == false;
    EmptyBoardCounts(16, X);
    EmptyBoardCounts(16, O);
  }

  // ---------------------------------------------------------------------
  // What the status line tells
  // ---------------------------------------------------------------------

  /** The status invites the next player exactly when some click would
      change the game; a win or a draw freezes it. */
  lemma StatusTellsWhetherPlayContinues(g: Game)
    ensures StartsWith(GetStatus(g), "Next player: ") <==>
            exists i :: 0 <= i < |g.squares| && Move(g, i) != g
  {
    if CurrentWinner(g).None? && !BoardFull(g.squares) {
      var i :| 0 <= i < |g.squares| && g.squares[i] == Empty;
      assert Move(g, i).squares[i] != g.squares[i];
    }
  }

  /** A winner in the status line really won: the named mark is not empty
      and holds exactly `numToWin` cells, in order, of one scanned line. */
  lemma StatusWinnerIsGenuine(g: Game)
    requires StartsWith(GetStatus(g), "Winner: ")
    ensures var w := CurrentWinner(g).value;
            GetStatus(g) == "Winner: " + MarkName(w.winner) && w.winner != Empty &&
            |w.numbers| == g.numToWin &&
            (forall n :: n in w.numbers ==> CellAt(g.squares, n) == w.winner) &&
            exists i, a, b :: 0 <= i < |g.winPossibilities| &&
                              IsRun(g.squares, g.winPossibilities[i], a, b, w.winner, w.numbers)
  {
    WinnerSound(g.squares, g.winPossibilities, g.numToWin);
  }

  /** A draw leaves no empty cell and no winner. */
  lemma DrawMeansBoardFilled(g: Game)
    requires GetStatus(g) == "Draw!"
    ensures Count(g.squares, Empty) == 0 && CurrentWinner(g).None?
  {
    FullIffNoEmpty(g.squares);
  }

  // ---------------------------------------------------------------------
  // A whole game
  // ---------------------------------------------------------------------

  /** The state after a series of clicks on drawn cells. */
  function Play(g: Game, clicks: seq<int>): (r: Game)
    requires forall k :: 0 <= k < |clicks| ==> 0 <= clicks[k] < |g.squares|
    ensures |r.squares| == |g.squares|
    decreases |clicks|
  {
    if clicks == [] then g else Play(Move(g, clicks[0]), clicks[1..])
  }

  /** Clicks keep a valid, balanced state valid and balanced. */
  lemma {:induction false} PlayKeepsInvariants(g: Game, clicks: seq<int>)
    requires Valid(g) && Balanced(g)
    requires forall k :: 0 <= k < |clicks| ==> 0 <= clicks[k] < |g.squares|
    ensures Valid(Play(g, clicks)) && Balanced(Play(g, clicks))
    decreases |clicks|
  {
    if clicks != [] {
      MovePreservesValid(g, clicks[0]);
      MovePreservesBalance(g, clicks[0]);
      PlayKeepsInvariants(Move(g, clicks[0]), clicks[1..]);
    }
  }

  /** Any game played from the mounted board, without a resize, has X
      moving first and the players alternating. */
  lemma MountedPlayBalanced(clicks: seq<int>)
    requires forall k :: 0 <= k < |clicks| ==> 0 <= clicks[k] < 9
    ensures var g := Play(Mount(), clicks);
            Valid(g) && Count(g.squares, O) <= Count(g.squares, X) <= Count(g.squares, O) + 1
  {
    PlayKeepsInvariants(Mount(), clicks);
  }

  /** How many clicks of a series change the game. */
  function EffectiveClicks(g: Game, clicks: seq<int>): nat
    requires forall k :: 0 <= k < |clicks| ==> 0 <= clicks[k] < |g.squares|
    decreases |clicks|
  {
    if clicks == [] then 0
    else (if Move(g, clicks[0]) != g then 1 else 0) + EffectiveClicks(Move(g, clicks[0]), clicks[1..])
  }

  lemma {:induction false} CountAtMostLength(squares: seq<Mark>, m: Mark)
    ensures Count(squares, m) <= |squares|
    decreases |squares|
  {
    if squares != [] {
      CountAtMostLength(squares[1..], m);
    }
  }

  /** Every click that changes the game uses up one empty cell, so a
      series of clicks changes the game at most as often as there are
      empty cells: on an R x C board, at most R * C times. */
  lemma {:induction false} EffectiveClicksBounded(g: Game, clicks: seq<int>)
    requires forall k :: 0 <= k < |clicks| ==> 0 <= clicks[k] < |g.squares|
    ensures EffectiveClicks(g, clicks) + Count(Play(g, clicks).squares, Empty) == Count(g.squares, Empty)
    ensures EffectiveClicks(g, clicks) <= |g.squares|
    decreases |clicks|
  {
    if clicks != [] {
      MoveFillsOneCell(g, clicks[0]);
      EffectiveClicksBounded(Move(g, clicks[0]), clicks[1..]);
    }
    CountAtMostLength(g.squares, Empty);
  }
}
