/**
 * Whole sessions: every user action and the computer's move as one reducer
 * step, runs of such steps from any state, and the facts that hold of every
 * state a session can reach.
 */
module Session {
  import opened Wrappers
  import opened Board
  import opened Game

  /** Everything that can change the state. */
  datatype Action =
    | Click(cell: Index)
    | ComputerTurn(draw: nat)
    | Reset
    | Home
    | Choose(mode: Mode)

  /** The argument of an action is one the program can produce. */
  predicate Enabled(s: State, a: Action)
  {
    match a
    case ComputerTurn(draw) => ValidDraw(s.board, draw)
    case Choose(m) => m != Unselected
    case _ => true
  }

  function Apply(s: State, a: Action): State
    requires Enabled(s, a)
  {
    match a
    case Click(i) => HandleClick(s, i)
    case ComputerTurn(draw) => ComputerMove(s, draw)
    case Reset => ResetGame(s)
    case Home => ReturnHome(s)
    case Choose(m) => SelectMode(s, m)
  }

  /** Every action of the run is enabled in the state it is applied to. */
  predicate ValidRun(s: State, acts: seq<Action>)
    decreases |acts|
  {
    |acts| == 0 || (Enabled(s, acts[0]) && ValidRun(Apply(s, acts[0]), acts[1..]))
  }

  function Run(s: State, acts: seq<Action>): State
    requires ValidRun(s, acts)
    decreases |acts|
  {
    if |acts| == 0 then s else Run(Apply(s, acts[0]), acts[1..])
  }

  // ---------------------------------------------------------------------
  // Invariant of reachable states

  /** X moves first and the marks alternate: with X to move both marks
      appear equally often, with O to move X has one more. */
  ghost predicate TurnMatchesCounts(s: State)
  {
    if s.xNext then Count(s.board, X) == Count(s.board, O)
    else Count(s.board, X) == Count(s.board, O) + 1
  }

  /** Never do both marks have three in a row. */
  ghost predicate AtMostOneWinner(b: Board)
  {
    !(HasLine(b, X) && HasLine(b, O))
  }

  ghost predicate Consistent(s: State)
  {
    TurnMatchesCounts(s) && AtMostOneWinner(s.board)
  }

  lemma InitialConsistent()
    ensures Consistent(InitialState())
  {
  }

  /** Writing the mover's mark into an empty cell of an undecided board and
      passing the turn keeps the state consistent. */
  lemma FillPreservesConsistent(s: State, i: Index)
    requires Consistent(s)
    requires s.board[i] == Empty && Winner(s.board).None?
    ensures Consistent(s.(board := s.board[i := Filled(ToMove(s.xNext))], xNext := !s.xNext))
  {
    var m := ToMove(s.xNext);
    CountAfterFill(s.board, i, m);
    FillKeepsOtherLines(s.board, i, m);
    assert Other(m) == (if m == X then O else X);
  }

  /** Every step from a consistent state leads to a consistent state. */
  lemma StepPreservesConsistent(s: State, a: Action)
    requires Consistent(s) && Enabled(s, a)
    ensures Consistent(Apply(s, a))
  {
    match a
    case Click(i) =>
      if ClickAccepted(s, i) {
        FillPreservesConsistent(s, i);
        assert HandleClick(s, i).board == s.board[i := Filled(ToMove(s.xNext))];
      }
    case ComputerTurn(draw) =>
      if ComputerToMove(s) && ComputerChoice(s.board, draw).Some? {
        var k := ComputerChoice(s.board, draw).value;
        FillPreservesConsistent(s, k);
        assert ComputerMove(s, draw).board == s.board[k := Filled(O)];
      }
    case Reset =>
      CountNoMarks(InitialBoard(), X);
      CountNoMarks(InitialBoard(), O);
    case Home =>
    case Choose(m) =>
  }

  lemma {:induction false} RunPreservesConsistent(s: State, acts: seq<Action>)
    requires Consistent(s) && ValidRun(s, acts)
    ensures Consistent(Run(s, acts))
    decreases |acts|
  {
    if |acts| > 0 {
      StepPreservesConsistent(s, acts[0]);
      RunPreservesConsistent(Apply(s, acts[0]), acts[1..]);
    }
  }

  /** Every state a session reaches from the start is consistent: the turn
      flag agrees with the marks on the board, and at most one mark has won. */
  lemma ReachableStatesConsistent(acts: seq<Action>)
    requires ValidRun(InitialState(), acts)
    ensures Consistent(Run(InitialState(), acts))
  {
    InitialConsistent();
    RunPreservesConsistent(InitialState(), acts);
  }

  // ---------------------------------------------------------------------
  // Marks stay put

  /** Without a reset, a cell once filled keeps its mark for the rest of the run. */
  lemma {:induction false} RunKeepsMarks(s: State, acts: seq<Action>)
    requires ValidRun(s, acts)
    requires forall k :: 0 <= k < |acts| ==> !acts[k].Reset?
    ensures forall i: Index :: s.board[i] != Empty ==> Run(s, acts).board[i] == s.board[i]
    decreases |acts|
  {
    if |acts| > 0 {
      RunKeepsMarks(Apply(s, acts[0]), acts[1..]);
    }
  }

  /** Once the game is over (a winner, or a full board), nothing but a reset
      changes the board again. */
  lemma {:induction false} GameOverIsFinal(s: State, acts: seq<Action>)
    requires ValidRun(s, acts)
    requires Winner(s.board).Some? || IsBoardFull(s.board)
    requires forall k :: 0 <= k < |acts| ==> !acts[k].Reset?
    ensures Run(s, acts).board == s.board
    decreases |acts|
  {
    if |acts| > 0 {
      var a := acts[0];
      if a.Click? || a.ComputerTurn? {
        GameOverIgnoresMoves(s, if a.Click? then a.cell else 0,
                             if a.ComputerTurn? then a.draw else 0);
      }
      GameOverIsFinal(Apply(s, a), acts[1..]);
    }
  }

  /** In single-player mode the human only ever places X: a click either
      changes nothing or writes X. */
  lemma SinglePlayerClickWritesX(s: State, i: Index)
    requires s.mode == Single
    ensures HandleClick(s, i) == s || HandleClick(s, i).board == s.board[i := Filled(X)]
  {
  }

  /** Leaving to the home screen and picking a mode again resumes the board
      and turn exactly as they were left. */
  lemma HomeThenChooseResumes(s: State, m: Mode)
    requires m != Unselected
    ensures Run(s, [Home, Choose(m)]).board == s.board
    ensures Run(s, [Home, Choose(m)]).xNext == s.xNext
    ensures Run(s, [Home, Choose(m)]).mode == m
  {
    var acts := [Home, Choose(m)];
    var s1 := ReturnHome(s);
    assert acts[1..] == [Choose(m)];
    assert [Choose(m)][1..] == [];
    assert Run(s1, [Choose(m)]) == Run(SelectMode(s1, m), []);
    assert Run(s, acts) == Run(s1, [Choose(m)]);
  }
}
