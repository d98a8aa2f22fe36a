/**
 * The status line (`getStatusMessage`): a winner first, then a draw, then
 * whose turn it is.
 */
module Status {
  import opened Wrappers
  import opened Board
  import opened Game

  /** What the status line reports. */
  datatype Status = Won(winner: Mark) | Draw | Turn(next: Mark)

  /** The status, in the source's priority order. */
  function GetStatus(s: State): (st: Status)
    ensures st.Won? <==> Winner(s.board).Some?
    ensures st.Won? ==> HasLine(s.board, st.winner)
    ensures st.Draw? <==> (forall m :: !HasLine(s.board, m)) && IsBoardFull(s.board)
    ensures st.Turn? ==>
      && st.next == ToMove(s.xNext)
      && !IsBoardFull(s.board)
      && forall m :: !HasLine(s.board, m)
  {
    match Winner(s.board)
    case Some(m) => Won(m)
    case None => if IsBoardFull(s.board) then Draw else Turn(ToMove(s.xNext))
  }

  function MarkName(m: Mark): string
  {
    if m == X then "X" else "O"
  }

  /** The text shown for a status: the draw text, or "Player " followed by
      the mark, then " Wins!" (14 characters) or " Turn". */
  function Message(st: Status): (r: string)
    ensures st.Draw? <==> r == "It's a draw!"
    ensures st.Won? <==> |r| == 14 && r[8..] == " Wins!"
    ensures st.Won? ==> |r| == 14 && r[..7] == "Player " && r[7..8] == MarkName(st.winner)
    ensures st.Turn? ==>
      |r| == 13 && r[..7] == "Player " && r[7..8] == MarkName(st.next) && r[8..] == " Turn"
  {
    match st
    case Won(m) => "Player " + MarkName(m) + " Wins!"
    case Draw => "It's a draw!"
    case Turn(m) => "Player " + MarkName(m) + " Turn"
  }

  /** Distinct statuses are shown as distinct texts, so the text alone tells
      a win (and by whom), a draw and whose turn it is apart. */
  lemma MessageInjective(a: Status, b: Status)
    ensures Message(a) == Message(b) ==> a == b
  {
    if Message(a) == Message(b) {
      if a.Draw? || b.Draw? {
        assert Message(a)[0] == Message(b)[0];
      } else {
        assert Message(a)[7] == Message(b)[7];
        assert Message(a)[9] == Message(b)[9];
      }
    }
  }

  /** `getStatusMessage`: the draw text exactly when nobody has won and the
      board is full, "Player M Wins!" exactly when M is the winner, and
      "Player M Turn" exactly when the game is open and M is to move. */
  function StatusMessage(s: State): (r: string)
    ensures r == "It's a draw!" <==> Winner(s.board).None? && IsBoardFull(s.board)
    ensures forall m :: r == "Player " + MarkName(m) + " Wins!" <==> Winner(s.board) == Some(m)
    ensures forall m :: r == "Player " + MarkName(m) + " Turn" <==>
      Winner(s.board).None? && !IsBoardFull(s.board) && m == ToMove(s.xNext)
  {
    var st := GetStatus(s);
    MessageInjective(st, Draw);
    MessageInjective(st, Won(X));
    MessageInjective(st, Won(O));
    MessageInjective(st, Turn(X));
    MessageInjective(st, Turn(O));
    Message(st)
  }
}
