/**
 * The game component's state and its transitions: a player's click
 * (`handleClick`), the computer's move in single-player mode (the body of
 * the move effect), reset, return home and mode selection.
 */
module Game {
  import opened Wrappers
  import opened Board

  /** `gameMode`: `null`, "single" or "multi". */
  datatype Mode = Unselected | Single | Multi

  /** The component's four pieces of React state. */
  datatype State = State(board: Board, xNext: bool, mode: Mode, showReturnHome: bool)

  /** The initial values given to the four state hooks. */
  function InitialState(): (s: State)
    ensures forall i: Index :: s.board[i] == Empty
    ensures s.xNext && s.mode == Unselected && !s.showReturnHome
  {
    State(InitialBoard(), true, Unselected, false)
  }

  /** `winner`: the mark reported by the evaluator, or `null`. */
  function Winner(b: Board): (w: Option<Mark>)
    ensures w.None? <==> forall m :: !HasLine(b, m)
    ensures w.Some? ==> HasLine(b, w.value)
  {
    match CalculateWinner(b)
    case None => None
    case Some(info) => Some(info.winner)
  }

  /** The mark that moves next: "X" when the turn flag is set, else "O". */
  function ToMove(xNext: bool): Mark
  {
    if xNext then X else O
  }

  // ---------------------------------------------------------------------
  // A player's click

  /** The click handler goes through with a click on cell i: the cell is
      empty, nobody has won, and it is not the computer's turn. */
  predicate ClickAccepted(s: State, i: Index)
  {
    && s.board[i] == Empty
    && Winner(s.board).None?
    && !(s.mode == Single && !s.xNext)
  }

  /** `handleClick`: a rejected click changes nothing; an accepted one writes
      the mover's mark into cell i alone and passes the turn. */
  function HandleClick(s: State, i: Index): (s': State)
    ensures !ClickAccepted(s, i) ==> s' == s
    ensures ClickAccepted(s, i) ==>
      && s'.board[i] == Filled(ToMove(s.xNext))
      && (forall j: Index :: j != i ==> s'.board[j] == s.board[j])
      && s'.xNext == !s.xNext
      && s'.mode == s.mode && s'.showReturnHome == s.showReturnHome
    ensures forall j: Index :: s.board[j] != Empty ==> s'.board[j] == s.board[j]
    ensures s.mode == Single && s' != s ==> s'.board[i] == Filled(X)
  {
    if s.board[i] != Empty || Winner(s.board).Some? then s
    else if s.mode == Single && !s.xNext then s
    else s.(board := s.board[i := Filled(ToMove(s.xNext))], xNext := !s.xNext)
  }

  // ---------------------------------------------------------------------
  // The computer's move

  /** The effect's guard: single-player mode, O to move, and no winner. */
  predicate ComputerToMove(s: State)
  {
    s.mode == Single && !s.xNext && Winner(s.board).None?
  }

  /** A possible value of `Math.floor(Math.random() * n)` with n the number of
      empty cells: below n, or 0 when n is 0. */
  predicate ValidDraw(b: Board, draw: nat)
  {
    draw < |EmptyIndexes(b)| || draw == 0
  }

  /** `move`: the drawn entry of `emptyIndexes`, or `undefined` (`None`) when
      the draw falls outside it. */
  function ComputerChoice(b: Board, draw: nat): (r: Option<Index>)
    requires ValidDraw(b, draw)
    ensures r.Some? ==> b[r.value] == Empty
    ensures r.None? <==> IsBoardFull(b)
  {
    FullIffNoEmptyIndex(b);
    var e := EmptyIndexes(b);
    if draw < |e| then Some(e[draw]) else None
  }

  /** The computer's move as one step: outside its turn, or on a full board,
      nothing changes; otherwise an O goes into the chosen empty cell alone
      and the turn returns to X. */
  function ComputerMove(s: State, draw: nat): (s': State)
    requires ValidDraw(s.board, draw)
    ensures !ComputerToMove(s) || IsBoardFull(s.board) ==> s' == s
    ensures ComputerToMove(s) && ComputerChoice(s.board, draw).Some? ==>
      var k := ComputerChoice(s.board, draw).value;
      && s.board[k] == Empty
      && s'.board[k] == Filled(O)
      && (forall j: Index :: j != k ==> s'.board[j] == s.board[j])
      && s'.xNext && s'.mode == s.mode && s'.showReturnHome == s.showReturnHome
    ensures forall j: Index :: s.board[j] != Empty ==> s'.board[j] == s.board[j]
  {
    if ComputerToMove(s) then
      match ComputerChoice(s.board, draw)
      case None => s
      case Some(k) => s.(board := s.board[k := Filled(O)], xNext := true)
    else s
  }

  /** Every empty cell is a possible computer move: some draw picks it. */
  lemma EveryEmptyCellCanBeChosen(b: Board, k: Index)
    requires b[k] == Empty
    ensures exists draw: nat :: ValidDraw(b, draw) && ComputerChoice(b, draw) == Some(k)
  {
    var e := EmptyIndexes(b);
    assert k in e;
    var d :| 0 <= d < |e| && e[d] == k;
    assert ValidDraw(b, d) && ComputerChoice(b, d) == Some(k);
  }

  // ---------------------------------------------------------------------
  // Session transitions

  /** `resetGame`: a fresh board, X to move, the return-home option shown;
      the mode is kept. */
  function ResetGame(s: State): (s': State)
    ensures forall i: Index :: s'.board[i] == Empty
    ensures Winner(s'.board).None?
    ensures s'.xNext && s'.showReturnHome && s'.mode == s.mode
  {
    EmptyBoardHasNoLine(InitialBoard(), X);
    EmptyBoardHasNoLine(InitialBoard(), O);
    s.(board := InitialBoard(), xNext := true, showReturnHome := true)
  }

  /** `returnHome`: back to mode selection, option hidden; board and turn kept. */
  function ReturnHome(s: State): (s': State)
    ensures s'.mode == Unselected && !s'.showReturnHome
    ensures s'.board == s.board && s'.xNext == s.xNext
  {
    s.(mode := Unselected, showReturnHome := false)
  }

  /** The "Single Player" and "Multiplayer" buttons: set the mode and nothing
      else, so the board and turn are those left from before. */
  function SelectMode(s: State, m: Mode): (s': State)
    requires m != Unselected
    ensures s'.mode == m
    ensures s'.board == s.board && s'.xNext == s.xNext
    ensures s'.showReturnHome == s.showReturnHome
  {
    s.(mode := m)
  }

  /** Once there is a winner or the board is full, neither a click nor the
      computer changes anything. */
  lemma GameOverIgnoresMoves(s: State, i: Index, draw: nat)
    requires Winner(s.board).Some? || IsBoardFull(s.board)
    requires ValidDraw(s.board, draw)
    ensures HandleClick(s, i) == s
    ensures ComputerMove(s, draw) == s
  {
  }
}
