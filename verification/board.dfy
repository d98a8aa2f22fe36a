/**
 * The 3x3 board of the game: its cells, the eight winning lines, the win
 * evaluator (`calculateWinner`), the full-board test (`isBoardFull`) and the
 * list of empty cells the computer player draws its move from.
 */
module Board {
  import opened Wrappers

  datatype Mark = X | O

  /** A cell is `null` (empty) or holds the string "X" or "O". */
  datatype Cell = Empty | Filled(mark: Mark)

  /** Cell addresses, row-major: 0 1 2 / 3 4 5 / 6 7 8. */
  type Index = i: int | 0 <= i < 9

  /** The board always has exactly nine cells. */
  type Board = b: seq<Cell> | |b| == 9
    witness [Empty, Empty, Empty, Empty, Empty, Empty, Empty, Empty, Empty]

  function Other(m: Mark): Mark
  {
    if m == X then O else X
  }

  /** `initialBoard`: nine `null` cells. */
  function InitialBoard(): (b: Board)
    ensures forall i: Index :: b[i] == Empty
  {
    seq(9, _ => Empty)
  }

  // ---------------------------------------------------------------------
  // Winning lines

  datatype Pattern = Pattern(a: Index, b: Index, c: Index)

  /** `WINNING_PATTERNS`, in the order the evaluator scans them. */
  const WinningPatterns: seq<Pattern> := [
    Pattern(0, 1, 2), Pattern(3, 4, 5), Pattern(6, 7, 8),
    Pattern(0, 3, 6), Pattern(1, 4, 7), Pattern(2, 5, 8),
    Pattern(0, 4, 8), Pattern(2, 4, 6)
  ]

  function Row(i: Index): int
  {
    if i < 3 then 0 else if i < 6 then 1 else 2
  }

  function Col(i: Index): int
  {
    i - 3 * Row(i)
  }

  /** Three cells in ascending order, the middle one halfway between the
      outer two on the 3x3 grid: a straight line of three. */
  predicate IsLine(p: Pattern)
  {
    && p.a < p.b < p.c
    && Row(p.a) + Row(p.c) == 2 * Row(p.b)
    && Col(p.a) + Col(p.c) == 2 * Col(p.b)
  }

  predicate IsRow(p: Pattern)
  {
    Row(p.a) == Row(p.b) == Row(p.c)
  }

  predicate IsColumn(p: Pattern)
  {
    Col(p.a) == Col(p.b) == Col(p.c)
  }

  /** The hard-coded table is exactly the set of straight lines of three on
      the grid. */
  lemma WinningPatternsAreTheLines()
    ensures forall k :: 0 <= k < |WinningPatterns| ==> IsLine(WinningPatterns[k])
    ensures forall p: Pattern :: IsLine(p) ==> p in WinningPatterns
  {
    forall p: Pattern | IsLine(p)
      ensures p in WinningPatterns
    {
      LineIsListed(p);
    }
  }

  /** The table lists three rows, then three columns, then the two diagonals. */
  lemma TableOrder()
    ensures forall k :: 0 <= k < 3 ==> IsRow(WinningPatterns[k])
    ensures forall k :: 3 <= k < 6 ==> IsColumn(WinningPatterns[k])
    ensures forall k :: 6 <= k < 8 ==>
      !IsRow(WinningPatterns[k]) && !IsColumn(WinningPatterns[k])
  {
  }

  lemma LineIsListed(p: Pattern)
    requires IsLine(p)
    ensures p in WinningPatterns
  {
  }

  // ---------------------------------------------------------------------
  // Win evaluator

  /** The evaluator's test on one pattern: `board[a]` is non-empty and equal
      to `board[b]` and to `board[c]`. */
  predicate Completes(b: Board, p: Pattern)
  {
    b[p.a] != Empty && b[p.a] == b[p.b] && b[p.a] == b[p.c]
  }

  /** Mark m occupies all three cells of p. */
  predicate LineOf(b: Board, p: Pattern, m: Mark)
  {
    b[p.a] == Filled(m) && b[p.b] == Filled(m) && b[p.c] == Filled(m)
  }

  /** Mark m has three in a row along some winning pattern. */
  predicate HasLine(b: Board, m: Mark)
  {
    exists k :: 0 <= k < |WinningPatterns| && LineOf(b, WinningPatterns[k], m)
  }

  /** Reference definition: pattern number k is completed and no pattern
      before it in the table is. */
  ghost predicate IsFirstWin(b: Board, k: int)
  {
    && 0 <= k < |WinningPatterns|
    && Completes(b, WinningPatterns[k])
    && forall j :: 0 <= j < k ==> !Completes(b, WinningPatterns[j])
  }

  /** The scan of `calculateWinner`'s loop, from pattern number `from` on:
      the number of the first completed pattern, or the table's length when
      none is. */
  function FirstCompleted(b: Board, from: nat): (k: nat)
    requires from <= |WinningPatterns|
    ensures from <= k <= |WinningPatterns|
    ensures k < |WinningPatterns| ==> Completes(b, WinningPatterns[k])
    ensures forall j :: from <= j < k ==> !Completes(b, WinningPatterns[j])
    decreases |WinningPatterns| - from
  {
    if from == |WinningPatterns| then from
    else if Completes(b, WinningPatterns[from]) then from
    else FirstCompleted(b, from + 1)
  }

  /** `{ winner, pattern }` as returned by `calculateWinner`. */
  datatype WinInfo = WinInfo(winner: Mark, pattern: Pattern)

  /** `calculateWinner`: the first pattern in table order whose three cells
      hold the same mark, with that mark; `None` when there is none. */
  function CalculateWinner(b: Board): (r: Option<WinInfo>)
    ensures r.None? <==> forall m :: !HasLine(b, m)
    ensures r.Some? ==> LineOf(b, r.value.pattern, r.value.winner)
    ensures r.Some? ==>
      exists k :: IsFirstWin(b, k) && r.value.pattern == WinningPatterns[k]
  {
    var k := FirstCompleted(b, 0);
    if k == |WinningPatterns| then None
    else
      var m := b[WinningPatterns[k].a].mark;
      assert LineOf(b, WinningPatterns[k], m);
      assert HasLine(b, m);
      Some(WinInfo(m, WinningPatterns[k]))
  }

  /** The evaluator reports pattern number k exactly when k is the first
      completed pattern. */
  lemma CalculateWinnerIsFirstWin(b: Board, k: int)
    requires 0 <= k < |WinningPatterns|
    ensures IsFirstWin(b, k) <==>
      CalculateWinner(b).Some? && CalculateWinner(b).value.pattern == WinningPatterns[k]
  {
  }

  // ---------------------------------------------------------------------
  // Empty cells and the full board

  /** `isBoardFull`: every cell is non-null; that is, the two marks
      together occupy all nine cells. */
  predicate IsBoardFull(b: Board)
    ensures IsBoardFull(b) <==> Count(b, X) + Count(b, O) == 9
  {
    CountsOfMarks(b);
    forall i :: 0 <= i < |b| ==> b[i] != Empty
  }

  /** The indexes from `from` on whose cell is empty, in ascending order. */
  function EmptyIndexesFrom(b: Board, from: nat): (r: seq<Index>)
    requires from <= 9
    ensures forall k :: 0 <= k < |r| ==> from <= r[k] && b[r[k]] == Empty
    ensures forall i: Index {:trigger i in r} :: from <= i && b[i] == Empty ==> i in r
    ensures forall k, l :: 0 <= k < l < |r| ==> r[k] < r[l]
    decreases 9 - from
  {
    if from == 9 then []
    else if b[from] == Empty then [from as Index] + EmptyIndexesFrom(b, from + 1)
    else EmptyIndexesFrom(b, from + 1)
  }

  /** `emptyIndexes`: the board mapped to index-or-null, nulls filtered out. */
  function EmptyIndexes(b: Board): (r: seq<Index>)
    ensures forall i: Index {:trigger i in r} :: i in r <==> b[i] == Empty
    ensures forall k, l :: 0 <= k < l < |r| ==> r[k] < r[l]
  {
    EmptyIndexesFrom(b, 0)
  }

  /** On a board empty from `from` on, the empty indexes from there are
      all of `from`..8, in order. */
  lemma {:induction false} EmptyTail(b: Board, from: nat)
    requires from <= 9
    requires forall i :: from <= i < 9 ==> b[i] == Empty
    ensures |EmptyIndexesFrom(b, from)| == 9 - from
    ensures forall k :: 0 <= k < 9 - from ==> EmptyIndexesFrom(b, from)[k] == from + k
    decreases 9 - from
  {
    if from < 9 {
      EmptyTail(b, from + 1);
      assert EmptyIndexesFrom(b, from) == [from as Index] + EmptyIndexesFrom(b, from + 1);
    }
  }

  /** The board is full exactly when the computer has no empty cell to pick. */
  lemma FullIffNoEmptyIndex(b: Board)
    ensures IsBoardFull(b) <==> |EmptyIndexes(b)| == 0
  {
  }

  // ---------------------------------------------------------------------
  // Counting marks

  /** How many cells hold mark m. */
  function Count(cells: seq<Cell>, m: Mark): nat
  {
    if |cells| == 0 then 0
    else (if cells[0] == Filled(m) then 1 else 0) + Count(cells[1..], m)
  }

  /** The two marks never occupy more cells than there are, and they occupy
      all of them exactly when no cell is empty. */
  lemma {:induction false} CountsOfMarks(cells: seq<Cell>)
    ensures Count(cells, X) + Count(cells, O) <= |cells|
    ensures Count(cells, X) + Count(cells, O) == |cells| <==>
      forall i :: 0 <= i < |cells| ==> cells[i] != Empty
  {
    if |cells| > 0 {
      var tail := cells[1..];
      CountsOfMarks(tail);
      if cells[0] == Empty {
        assert Count(cells, X) + Count(cells, O) == Count(tail, X) + Count(tail, O);
      } else {
        // The first cell holds X or O: it adds one to exactly one count.
        assert cells[0] == Filled(X) || cells[0] == Filled(O) by {
          if cells[0].mark == X { assert cells[0] == Filled(X); }
        }
        assert Count(cells, X) + Count(cells, O) == 1 + Count(tail, X) + Count(tail, O);
        if forall i :: 0 <= i < |tail| ==> tail[i] != Empty {
          assert forall i :: 0 <= i < |cells| ==> cells[i] != Empty by {
            forall i | 1 <= i < |cells|
              ensures cells[i] != Empty
            {
              assert cells[i] == tail[i - 1];
            }
          }
        }
      }
    }
  }

  lemma {:induction false} CountNoMarks(cells: seq<Cell>, m: Mark)
    requires forall i :: 0 <= i < |cells| ==> cells[i] == Empty
    ensures Count(cells, m) == 0
  {
    if |cells| > 0 {
      CountNoMarks(cells[1..], m);
    }
  }

  /** Filling an empty cell with m adds one m and leaves the other mark's count. */
  lemma {:induction false} CountAfterFill(cells: seq<Cell>, i: int, m: Mark)
    requires 0 <= i < |cells| && cells[i] == Empty
    ensures Count(cells[i := Filled(m)], m) == Count(cells, m) + 1
    ensures Count(cells[i := Filled(m)], Other(m)) == Count(cells, Other(m))
  {
    var after := cells[i := Filled(m)];
    if i == 0 {
      assert after[1..] == cells[1..];
    } else {
      assert after[1..] == cells[1..][i - 1 := Filled(m)];
      CountAfterFill(cells[1..], i - 1, m);
    }
  }

  /** Writing m into an empty cell cannot give the other mark a line. */
  lemma FillKeepsOtherLines(b: Board, i: Index, m: Mark)
    requires b[i] == Empty
    ensures HasLine(b[i := Filled(m)], Other(m)) ==> HasLine(b, Other(m))
  {
  }

  lemma EmptyBoardHasNoLine(b: Board, m: Mark)
    requires forall i: Index :: b[i] == Empty
    ensures !HasLine(b, m)
  {
  }
}
