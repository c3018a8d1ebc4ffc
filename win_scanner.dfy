/** The win scanner: walks every line keeping a running run of one mark,
    and reports the run that reaches the target length. */
module WinScanner {
  import opened Board

  /** A win: the winning mark and the cells of its run, in line order. */
  datatype WinResult = WinResult(winner: Mark, numbers: seq<int>)

  // ---------------------------------------------------------------------
  // The scan as functions
  // ---------------------------------------------------------------------

  /** The scan of one line from position `k`, with the running
      `winnerLine` and `possibleWinner` of the inner loop. An empty cell
      changes nothing; a mark first drops the run when it belongs to the
      other player, then joins it; a run of exactly `numToWin` cells wins. */
  function ScanFrom(squares: seq<Mark>, line: seq<int>, numToWin: int, k: int,
                    winnerLine: seq<int>, possibleWinner: Mark): Option<WinResult>
    requires 0 <= k <= |line|
    decreases |line| - k
  {
    if k == |line| then None
    else
      var mark := CellAt(squares, line[k]);
      if mark == Empty then ScanFrom(squares, line, numToWin, k + 1, winnerLine, possibleWinner)
      else
        var run := (if possibleWinner == Opposite(mark) then [] else winnerLine) + [line[k]];
        if |run| == numToWin then Some(WinResult(mark, run))
        else ScanFrom(squares, line, numToWin, k + 1, run, mark)
  }

  /** The scan of one whole line, starting with no run and no candidate. */
  function ScanLine(squares: seq<Mark>, line: seq<int>, numToWin: int): Option<WinResult>
  {
    ScanFrom(squares, line, numToWin, 0, [], Empty)
  }

  /** The result of scanning every line: the win of the LAST line that has
      one, since a later win overwrites an earlier one. */
  function Winner(squares: seq<Mark>, lines: seq<seq<int>>, numToWin: int): Option<WinResult>
    decreases |lines|
  {
    if lines == [] then None
    else
      var last := ScanLine(squares, lines[|lines| - 1], numToWin);
      if last.Some? then last else Winner(squares, lines[..|lines| - 1], numToWin)
  }

  /** Every cell holds a mark. */
  predicate BoardFull(squares: seq<Mark>)
  {
    forall i :: 0 <= i < |squares| ==> squares[i] != Empty
  }

  // ---------------------------------------------------------------------
  // The scan as the game runs it
  // ---------------------------------------------------------------------

  /** The scanner: an outer loop over the lines and an inner loop over the
      cells of one line, whose `break` leaves only the inner loop. */
  method CalculateWinner(squares: seq<Mark>, possibleLines: seq<seq<int>>, numToWin: int)
    returns (result: Option<WinResult>)
    ensures result == Winner(squares, possibleLines, numToWin)
  {
    result := None;
    for i := 0 to |possibleLines|
      invariant result == Winner(squares, possibleLines[..i], numToWin)
    {
      var line := possibleLines[i];
      var winnerLine: seq<int> := [];
      var possibleWinner := Empty;
      var k := 0;
      while k < |line|
        invariant 0 <= k <= |line|
        invariant ScanFrom(squares, line, numToWin, k, winnerLine, possibleWinner) == ScanLine(squares, line, numToWin)
        invariant result == Winner(squares, possibleLines[..i], numToWin)
      {
        var mark := CellAt(squares, line[k]);
        if mark == X {
          if possibleWinner == O {
            winnerLine := [];
          }
          winnerLine := winnerLine + [line[k]];
          possibleWinner := X;
          if |winnerLine| == numToWin {
            result := Some(WinResult(X, winnerLine));
            break;
          }
        } else if mark == O {
          if possibleWinner == X {
            winnerLine := [];
          }
          winnerLine := winnerLine + [line[k]];
          possibleWinner := O;
          if |winnerLine| == numToWin {
            result := Some(WinResult(O, winnerLine));
            break;
          }
        }
        k := k + 1;
      }
      assert possibleLines[..i + 1][..i] == possibleLines[..i];
      assert possibleLines[..i + 1][i] == line;
    }
    assert possibleLines[..|possibleLines|] == possibleLines;
  }

  /** Whether every cell holds a mark, stopping at the first empty one. */
  method IsBoardFull(squares: seq<Mark>) returns (full: bool)
    ensures full == BoardFull(squares)
  {
    for i := 0 to |squares|
      invariant forall j :: 0 <= j < i ==> squares[j] != Empty
    {
      if squares[i] == Empty {
        return false;
      }
    }
    return true;
  }

  // ---------------------------------------------------------------------
  // What a reported win is made of
  // ---------------------------------------------------------------------

  /** The cells of `cells` that hold `mark`, in order. */
  function Marked(squares: seq<Mark>, cells: seq<int>, mark: Mark): seq<int>
    decreases |cells|
  {
    if cells == [] then []
    else
      var last := cells[|cells| - 1];
      Marked(squares, cells[..|cells| - 1], mark) + (if CellAt(squares, last) == mark then [last] else [])
  }

  /** No cell of `cells` holds the other player's mark. */
  predicate Uninterrupted(squares: seq<Mark>, cells: seq<int>, mark: Mark)
  {
    forall j :: 0 <= j < |cells| ==> CellAt(squares, cells[j]) != Opposite(mark)
  }

  /** `numbers` are the `mark` cells of the stretch `line[from..to]`, a
      stretch in which the other player has no mark (empty cells may sit
      between them). */
  predicate IsRun(squares: seq<Mark>, line: seq<int>, from: int, to: int, mark: Mark, numbers: seq<int>)
  {
    0 <= from <= to <= |line| && mark != Empty &&
    Uninterrupted(squares, line[from..to], mark) && numbers == Marked(squares, line[from..to], mark)
  }

  /** Every cell `Marked` picks holds the mark. */
  lemma {:induction false} MarkedHold(squares: seq<Mark>, cells: seq<int>, mark: Mark)
    ensures forall n :: n in Marked(squares, cells, mark) ==> CellAt(squares, n) == mark
    decreases |cells|
  {
    if cells != [] {
      MarkedHold(squares, cells[..|cells| - 1], mark);
    }
  }

  /** Extending a stretch by one cell that is not the opponent's keeps a run. */
  lemma RunExtends(squares: seq<Mark>, line: seq<int>, from: int, k: int, mark: Mark, numbers: seq<int>)
    requires IsRun(squares, line, from, k, mark, numbers) && k < |line|
    requires CellAt(squares, line[k]) != Opposite(mark)
    ensures IsRun(squares, line, from, k + 1, mark,
                  numbers + if CellAt(squares, line[k]) == mark then [line[k]] else [])
  {
    assert line[from..k + 1][..k - from] == line[from..k];
  }

  /** A run that starts afresh at a marked cell. */
  lemma RunStarts(squares: seq<Mark>, line: seq<int>, k: int)
    requires 0 <= k < |line| && CellAt(squares, line[k]) != Empty
    ensures IsRun(squares, line, k, k + 1, CellAt(squares, line[k]), [line[k]])
  {
    assert line[k..k + 1] == [line[k]];
    assert line[k..k + 1][..0] == [];
  }

  /** Soundness of the scan of one line from a state the inner loop can
      reach: a reported win has exactly `numToWin` cells, and they are the
      winner's marks in a stretch of the line the opponent does not
      interrupt. */
  lemma {:induction false} ScanFromSound(squares: seq<Mark>, line: seq<int>, numToWin: int, k: int,
                                         winnerLine: seq<int>, possibleWinner: Mark, from: int)
    requires 0 <= k <= |line|
    requires possibleWinner == Empty ==> winnerLine == []
    requires possibleWinner != Empty ==> IsRun(squares, line, from, k, possibleWinner, winnerLine)
    requires ScanFrom(squares, line, numToWin, k, winnerLine, possibleWinner).Some?
    ensures var w := ScanFrom(squares, line, numToWin, k, winnerLine, possibleWinner).value;
            |w.numbers| == numToWin >= 1 &&
            exists a, b :: IsRun(squares, line, a, b, w.winner, w.numbers)
    decreases |line| - k
  {
    var mark := CellAt(squares, line[k]);
    if mark == Empty {
      if possibleWinner != Empty {
        RunExtends(squares, line, from, k, possibleWinner, winnerLine);
      }
      ScanFromSound(squares, line, numToWin, k + 1, winnerLine, possibleWinner, from);
    } else {
      var run := (if possibleWinner == Opposite(mark) then [] else winnerLine) + [line[k]];
      var from' := if possibleWinner == mark then from else k;
      if possibleWinner == mark {
        RunExtends(squares, line, from, k, mark, winnerLine);
      } else {
        RunStarts(squares, line, k);
      }
      assert IsRun(squares, line, from', k + 1, mark, run);
      if |run| != numToWin {
        ScanFromSound(squares, line, numToWin, k + 1, run, mark, from');
      }
    }
  }

  /** The win of a whole line is a run of that line of exactly `numToWin`
      cells that all hold the winner's mark. */
  lemma ScanLineSound(squares: seq<Mark>, line: seq<int>, numToWin: int)
    requires ScanLine(squares, line, numToWin).Some?
    ensures var w := ScanLine(squares, line, numToWin).value;
            w.winner != Empty && |w.numbers| == numToWin >= 1 &&
            (forall n :: n in w.numbers ==> CellAt(squares, n) == w.winner) &&
            exists a, b :: IsRun(squares, line, a, b, w.winner, w.numbers)
  {
    var w := ScanLine(squares, line, numToWin).value;
    ScanFromSound(squares, line, numToWin, 0, [], Empty, 0);
    var a, b :| IsRun(squares, line, a, b, w.winner, w.numbers);
    MarkedHold(squares, line[a..b], w.winner);
  }

  /** The scan reports the win of the last line that has one, and reports
      nothing exactly when no line has one. */
  lemma {:induction false} WinnerIsLastWinningLine(squares: seq<Mark>, lines: seq<seq<int>>, numToWin: int)
    ensures Winner(squares, lines, numToWin).None? <==>
            forall i :: 0 <= i < |lines| ==> ScanLine(squares, lines[i], numToWin).None?
    ensures Winner(squares, lines, numToWin).Some? ==>
            exists i :: 0 <= i < |lines| && Winner(squares, lines, numToWin) == ScanLine(squares, lines[i], numToWin) &&
                        forall j :: i < j < |lines| ==> ScanLine(squares, lines[j], numToWin).None?
    decreases |lines|
  {
    if lines != [] {
      var n := |lines| - 1;
      var front := lines[..n];
      WinnerIsLastWinningLine(squares, front, numToWin);
      assert forall i :: 0 <= i < n ==> front[i] == lines[i];
      if ScanLine(squares, lines[n], numToWin).None? && Winner(squares, front, numToWin).Some? {
        var i :| 0 <= i < n && Winner(squares, front, numToWin) == ScanLine(squares, front[i], numToWin) &&
                 forall j :: i < j < n ==> ScanLine(squares, front[j], numToWin).None?;
        assert Winner(squares, lines, numToWin) == ScanLine(squares, lines[i], numToWin);
      }
    }
  }

  /** Conversely, a line that has a win and is followed only by lines that
      have none decides the result. */
  lemma LastWinningLineDecides(squares: seq<Mark>, lines: seq<seq<int>>, numToWin: int, i: int)
    requires 0 <= i < |lines| && ScanLine(squares, lines[i], numToWin).Some?
    requires forall j :: i < j < |lines| ==> ScanLine(squares, lines[j], numToWin).None?
    ensures Winner(squares, lines, numToWin) == ScanLine(squares, lines[i], numToWin)
  {
    WinnerIsLastWinningLine(squares, lines, numToWin);
    var i' :| 0 <= i' < |lines| && Winner(squares, lines, numToWin) == ScanLine(squares, lines[i'], numToWin) &&
              forall j :: i' < j < |lines| ==> ScanLine(squares, lines[j], numToWin).None?;
    assert i' == i;
  }

  /** Whatever the scan reports is a genuine win: the winner's mark on
      exactly `numToWin` cells of one of the lines, in line order, with no
      opponent's mark among them. */
  lemma WinnerSound(squares: seq<Mark>, lines: seq<seq<int>>, numToWin: int)
    requires Winner(squares, lines, numToWin).Some?
    ensures var w := Winner(squares, lines, numToWin).value;
            w.winner != Empty && |w.numbers| == numToWin >= 1 &&
            (forall n :: n in w.numbers ==> CellAt(squares, n) == w.winner) &&
            exists i, a, b :: 0 <= i < |lines| && IsRun(squares, lines[i], a, b, w.winner, w.numbers)
  {
    WinnerIsLastWinningLine(squares, lines, numToWin);
    var i :| 0 <= i < |lines| && Winner(squares, lines, numToWin) == ScanLine(squares, lines[i], numToWin);
    ScanLineSound(squares, lines[i], numToWin);
  }

  // ---------------------------------------------------------------------
  // Which win is reported, and that none is missed
  // ---------------------------------------------------------------------

  /** Scanning a prefix that the scan of the whole line does not finish
      runs the same course. The scan of a line stops at the first cell
      where a run reaches `numToWin`: the prefix ending there already
      yields the win, the prefix one cell shorter yields nothing. */
  lemma {:induction false} ScanFromStopsFirst(squares: seq<Mark>, line: seq<int>, numToWin: int, k: int,
                                              winnerLine: seq<int>, possibleWinner: Mark)
    requires 0 <= k <= |line|
    requires ScanFrom(squares, line, numToWin, k, winnerLine, possibleWinner).Some?
    ensures exists b :: k < b <= |line| &&
              ScanFrom(squares, line[..b], numToWin, k, winnerLine, possibleWinner)
                == ScanFrom(squares, line, numToWin, k, winnerLine, possibleWinner) &&
              ScanFrom(squares, line[..b - 1], numToWin, k, winnerLine, possibleWinner).None?
    decreases |line| - k
  {
    var mark := CellAt(squares, line[k]);
    var run := (if possibleWinner == Opposite(mark) then [] else winnerLine) + [line[k]];
    if mark != Empty && |run| == numToWin {
      assert line[..k + 1][k] == line[k];
      assert ScanFrom(squares, line[..k + 1], numToWin, k, winnerLine, possibleWinner)
          == ScanFrom(squares, line, numToWin, k, winnerLine, possibleWinner);
      assert |line[..k]| == k;
    } else {
      var winnerLine', possibleWinner' := if mark == Empty then winnerLine else run, if mark == Empty then possibleWinner else mark;
      ScanFromStopsFirst(squares, line, numToWin, k + 1, winnerLine', possibleWinner');
      var b :| k + 1 < b <= |line| &&
               ScanFrom(squares, line[..b], numToWin, k + 1, winnerLine', possibleWinner')
                 == ScanFrom(squares, line, numToWin, k + 1, winnerLine', possibleWinner') &&
               ScanFrom(squares, line[..b - 1], numToWin, k + 1, winnerLine', possibleWinner').None?;
      assert line[..b][k] == line[k];
      assert line[..b - 1][k] == line[k];
    }
  }

  /** Within one line the first run to reach `numToWin` is the one
      reported: some prefix of the line yields the win and the prefix one
      cell shorter yields none. */
  lemma ScanLineStopsFirst(squares: seq<Mark>, line: seq<int>, numToWin: int)
    requires ScanLine(squares, line, numToWin).Some?
    ensures exists b :: 0 < b <= |line| &&
              ScanLine(squares, line[..b], numToWin) == ScanLine(squares, line, numToWin) &&
              ScanLine(squares, line[..b - 1], numToWin).None?
  {
    ScanFromStopsFirst(squares, line, numToWin, 0, [], Empty);
  }

  /** From a state the inner loop can reach before or inside a stretch of
      `numToWin` consecutive cells that all hold `mark`, the scan finds a
      win. */
  lemma {:induction false} ScanFromFindsRun(squares: seq<Mark>, line: seq<int>, numToWin: int, k: int,
                                            winnerLine: seq<int>, possibleWinner: Mark, a: int, mark: Mark)
    requires numToWin >= 1 && mark != Empty && 0 <= a && a + numToWin <= |line|
    requires forall t :: a <= t < a + numToWin ==> CellAt(squares, line[t]) == mark
    requires 0 <= k && |winnerLine| < numToWin
    requires k <= a || (possibleWinner == mark && |winnerLine| >= k - a)
    ensures k <= |line| && ScanFrom(squares, line, numToWin, k, winnerLine, possibleWinner).Some?
    decreases |line| - k
  {
    var m := CellAt(squares, line[k]);
    var run := (if possibleWinner == Opposite(m) then [] else winnerLine) + [line[k]];
    if m == Empty {
      ScanFromFindsRun(squares, line, numToWin, k + 1, winnerLine, possibleWinner, a, mark);
    } else if |run| != numToWin {
      ScanFromFindsRun(squares, line, numToWin, k + 1, run, m, a, mark);
    }
  }

  /** No win along a line is missed: if `numToWin` consecutive cells of a
      line hold the same mark, the scan of that line reports a win. */
  lemma ScanLineFindsRun(squares: seq<Mark>, line: seq<int>, numToWin: int, a: int, mark: Mark)
    requires numToWin >= 1 && mark != Empty && 0 <= a && a + numToWin <= |line|
    requires forall t :: a <= t < a + numToWin ==> CellAt(squares, line[t]) == mark
    ensures ScanLine(squares, line, numToWin).Some?
  {
    ScanFromFindsRun(squares, line, numToWin, 0, [], Empty, a, mark);
  }

  /** Extending a stretch by one cell adds that cell to the marked ones
      when it holds the mark. */
  lemma MarkedSnoc(squares: seq<Mark>, line: seq<int>, a: int, k: int, mark: Mark)
    requires 0 <= a <= k < |line|
    ensures Marked(squares, line[a..k + 1], mark) ==
            Marked(squares, line[a..k], mark) + (if CellAt(squares, line[k]) == mark then [line[k]] else [])
  {
    assert line[a..k + 1][..k - a] == line[a..k];
  }

  /** From a state the inner loop can reach, before or inside a stretch
      that the opponent does not interrupt and that holds at least
      `numToWin` cells of `mark`, empty cells between them or not, the scan
      finds a win. Inside the stretch the loop has `mark` as its candidate
      and a run at least as long as the marks seen so far. */
  lemma {:induction false} ScanFromFindsStretch(squares: seq<Mark>, line: seq<int>, numToWin: int, k: int,
                                                winnerLine: seq<int>, possibleWinner: Mark,
                                                a: int, b: int, mark: Mark)
    requires numToWin >= 1 && mark != Empty && 0 <= a <= b <= |line|
    requires Uninterrupted(squares, line[a..b], mark) && |Marked(squares, line[a..b], mark)| >= numToWin
    requires 0 <= k <= b && |winnerLine| < numToWin
    requires a < k && |Marked(squares, line[a..k], mark)| >= 1 ==>
               possibleWinner == mark && |winnerLine| >= |Marked(squares, line[a..k], mark)|
    ensures ScanFrom(squares, line, numToWin, k, winnerLine, possibleWinner).Some?
    decreases |line| - k
  {
    if k == b {
      assert false;
    }
    var m := CellAt(squares, line[k]);
    var run := (if possibleWinner == Opposite(m) then [] else winnerLine) + [line[k]];
    if a <= k {
      MarkedSnoc(squares, line, a, k, mark);
      assert line[a..b][k - a] == line[k];
      if k == a {
        assert line[a..k] == [];
      }
    }
    if m == Empty {
      ScanFromFindsStretch(squares, line, numToWin, k + 1, winnerLine, possibleWinner, a, b, mark);
    } else if |run| != numToWin {
      ScanFromFindsStretch(squares, line, numToWin, k + 1, run, m, a, b, mark);
    }
  }

  /** The converse of `ScanLineSound`: a stretch of a line that the
      opponent does not interrupt and that holds `numToWin` or more cells
      of one mark, whatever empty cells sit between them, makes the scan of
      that line report a win. */
  lemma ScanLineFindsStretch(squares: seq<Mark>, line: seq<int>, numToWin: int, a: int, b: int, mark: Mark)
    requires numToWin >= 1 && mark != Empty && 0 <= a <= b <= |line|
    requires Uninterrupted(squares, line[a..b], mark) && |Marked(squares, line[a..b], mark)| >= numToWin
    ensures ScanLine(squares, line, numToWin).Some?
  {
    ScanFromFindsStretch(squares, line, numToWin, 0, [], Empty, a, b, mark);
  }

  /** On a board with no marks the scan of a line finds nothing. */
  lemma {:induction false} ScanFromNoMarks(squares: seq<Mark>, line: seq<int>, numToWin: int, k: int,
                                           winnerLine: seq<int>, possibleWinner: Mark)
    requires 0 <= k <= |line|
    requires forall i :: 0 <= i < |squares| ==> squares[i] == Empty
    ensures ScanFrom(squares, line, numToWin, k, winnerLine, possibleWinner).None?
    decreases |line| - k
  {
    if k < |line| {
      ScanFromNoMarks(squares, line, numToWin, k + 1, winnerLine, possibleWinner);
    }
  }

  /** An all-empty board has no winner, whatever the lines and the target. */
  lemma {:induction false} NoMarksNoWinner(squares: seq<Mark>, lines: seq<seq<int>>, numToWin: int)
    requires forall i :: 0 <= i < |squares| ==> squares[i] == Empty
    ensures Winner(squares, lines, numToWin).None?
    decreases |lines|
  {
    if lines != [] {
      ScanFromNoMarks(squares, lines[|lines| - 1], numToWin, 0, [], Empty);
      NoMarksNoWinner(squares, lines[..|lines| - 1], numToWin);
    }
  }

  /** An empty cell does not break a run: X, empty, X, X with a target of
      three is a win for X on the three marked cells. */
  lemma EmptyCellDoesNotBreakRun()
    ensures ScanLine([X, Empty, X, X], [0, 1, 2, 3], 3) == Some(WinResult(X, [0, 2, 3]))
  {
    var squares, line := [X, Empty, X, X], [0, 1, 2, 3];
    assert CellAt(squares, 3) == X && CellAt(squares, 2) == X && CellAt(squares, 1) == Empty;
    assert [0, 2] + [3] == [0, 2, 3] && [0] + [2] == [0, 2];
    assert ScanFrom(squares, line, 3, 3, [0, 2], X) == Some(WinResult(X, [0, 2, 3]));
    assert ScanFrom(squares, line, 3, 2, [0], X) == Some(WinResult(X, [0, 2, 3]));
    assert ScanFrom(squares, line, 3, 1, [0], X) == Some(WinResult(X, [0, 2, 3]));
    assert CellAt(squares, 0) == X && [] + [0] == [0];
  }

  /** The opponent's mark does break a run: X, O, X, X with a target of
      three is no win. */
  lemma OpponentBreaksRun()
    ensures ScanLine([X, O, X, X], [0, 1, 2, 3], 3).None?
  {
    var squares, line := [X, O, X, X], [0, 1, 2, 3];
    assert ScanFrom(squares, line, 3, 3, [2], X).None?;
    assert ScanFrom(squares, line, 3, 2, [1], O).None?;
    assert ScanFrom(squares, line, 3, 1, [0], X).None?;
  }
}
