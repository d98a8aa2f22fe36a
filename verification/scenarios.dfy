/** Concrete games that pin the model to the expected behaviour, one step
    per lemma. */
module Scenarios {
  import opened Wrappers
  import opened Board
  import opened Game
  import opened Status

  const E := Empty
  const Xc := Filled(X)
  const Oc := Filled(O)

  // Multiplayer: X at 4, then O at 0.

  const MultiStart := State(InitialBoard(), true, Multi, false)
  const MultiAfterX := State([E, E, E, E, Xc, E, E, E, E], false, Multi, false)
  const MultiAfterO := State([Oc, E, E, E, Xc, E, E, E, E], true, Multi, false)

  lemma MultiplayerStart()
    ensures SelectMode(InitialState(), Multi) == MultiStart
  {
  }

  lemma MultiplayerFirstMove()
    ensures HandleClick(MultiStart, 4) == MultiAfterX
  {
  }

  lemma MultiplayerSecondMove()
    ensures HandleClick(MultiAfterX, 0) == MultiAfterO
    ensures Winner(MultiAfterO.board).None?
  {
  }

  // X completes the top row.

  const BeforeTopRow := State([Xc, Xc, E, Oc, Oc, E, E, E, E], true, Multi, false)
  const AfterTopRow := State([Xc, Xc, Xc, Oc, Oc, E, E, E, E], false, Multi, false)

  lemma TopRowMove()
    ensures HandleClick(BeforeTopRow, 2) == AfterTopRow
  {
  }

  lemma TopRowWinner()
    ensures CalculateWinner(AfterTopRow.board) == Some(WinInfo(X, Pattern(0, 1, 2)))
  {
  }

  lemma TopRowMessage()
    ensures StatusMessage(AfterTopRow) == "Player X Wins!"
  {
  }

  /** After the win every click is ignored, on an occupied cell or not. */
  lemma TopRowClicksIgnored(i: Index)
    ensures HandleClick(AfterTopRow, i) == AfterTopRow
  {
  }

  // A full board without three in a row.

  const DrawnGame := State([Xc, Oc, Xc, Xc, Oc, Oc, Oc, Xc, Xc], false, Multi, false)

  lemma DrawnGameHasNoWinner()
    ensures CalculateWinner(DrawnGame.board).None?
  {
  }

  lemma DrawnGameMessage()
    ensures StatusMessage(DrawnGame) == "It's a draw!"
  {
    DrawnGameHasNoWinner();
    assert IsBoardFull(DrawnGame.board);
  }

  // Single player: X takes cell 0, the computer answers.

  const SingleStart := State(InitialBoard(), true, Single, false)
  const SingleAfterX := State([Xc, E, E, E, E, E, E, E, E], false, Single, false)

  lemma SinglePlayerFirstMove()
    ensures HandleClick(SingleStart, 0) == SingleAfterX
  {
  }

  /** The eight empty cells left after X takes cell 0 are listed as 1..8. */
  lemma SinglePlayerEmptyCells()
    ensures |EmptyIndexes(SingleAfterX.board)| == 8
    ensures forall k :: 0 <= k < 8 ==> EmptyIndexes(SingleAfterX.board)[k] == k + 1
  {
    var b := SingleAfterX.board;
    EmptyTail(b, 1);
    assert EmptyIndexes(b) == EmptyIndexesFrom(b, 1);
  }

  lemma SinglePlayerUndecided()
    ensures Winner(SingleAfterX.board).None?
  {
  }

  /** Whatever the draw among the eight empty cells, the computer puts an O
      into cell draw + 1 and gives the turn back to X. */
  lemma ComputerAnswersFirstMove(draw: nat)
    requires draw < 8
    ensures ValidDraw(SingleAfterX.board, draw)
    ensures ComputerMove(SingleAfterX, draw) ==
            State(SingleAfterX.board[draw + 1 := Oc], true, Single, false)
  {
    SinglePlayerEmptyCells();
    SinglePlayerUndecided();
    assert ComputerToMove(SingleAfterX);
    assert ComputerChoice(SingleAfterX.board, draw) == Some(draw + 1);
  }

  // Two lines complete at once.

  const TwoLines: Board := [Xc, Xc, Xc, Xc, Oc, Oc, Xc, Oc, Oc]

  /** The row listed first is reported, not the column also completed. */
  lemma FirstListedLineWins()
    ensures CalculateWinner(TwoLines) == Some(WinInfo(X, Pattern(0, 1, 2)))
  {
  }
}
