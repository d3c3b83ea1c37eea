/**
 The rule engine as values: the game state, the classification of a click,
 the transition a click causes, and the "cancelable cells" query. The class
 in module Engine updates its fields in place and is proved to follow
 `Step`; the lemmas here state the rules of the game about `Step`.
 */
module Rules {
  import opened Board

  /** The engine's state: the grid, whose turn it is, and each player's
      `lastMoveWasCancel` flag. */
  datatype State = State(
    board: seq<Cell>,
    currentPlayer: Player,
    xLastMoveWasCancel: bool,
    oLastMoveWasCancel: bool)

  predicate WellFormed(s: State) {
    IsGrid(s.board)
  }

  /** Player `p`'s `lastMoveWasCancel` flag. */
  function LastMoveWasCancel(s: State, p: Player): bool {
    if p == X then s.xLastMoveWasCancel else s.oLastMoveWasCancel
  }

  /** `s` with player `p`'s flag set to `b` and nothing else changed. */
  function WithFlag(s: State, p: Player, b: bool): (t: State)
    ensures LastMoveWasCancel(t, p) == b
    ensures LastMoveWasCancel(t, Opponent(p)) == LastMoveWasCancel(s, Opponent(p))
    ensures t.board == s.board && t.currentPlayer == s.currentPlayer
  {
    if p == X then s.(xLastMoveWasCancel := b) else s.(oLastMoveWasCancel := b)
  }

  /** The player to move may cancel: their own last move was not a cancel. */
  predicate CanCancel(s: State) {
    !LastMoveWasCancel(s, s.currentPlayer)
  }

  /** The starting state (also the state after a reset). */
  function Initial(): (s: State)
    ensures WellFormed(s)
    ensures forall i :: 0 <= i < |s.board| ==> s.board[i] == Empty
    ensures s.currentPlayer == X
    ensures !LastMoveWasCancel(s, X) && !LastMoveWasCancel(s, O)
  {
    State(EmptyGrid(), X, false, false)
  }

  /** What a click on a cell does. */
  datatype Action = Cancel | Place | Invalid

  /** How a round ends. */
  datatype Terminal = Won(win: Win) | Drawn

  /** The immediate action and, when the round is over, how it ended. */
  datatype Outcome = Outcome(action: Action, terminal: Option<Terminal>)

  datatype Transition = Transition(next: State, outcome: Outcome)

  /** Classification of a click on cell `i`: cancel the opponent's mark if
      allowed, else place on an empty cell, else ignore. */
  function Classify(s: State, i: nat): (a: Action)
    requires WellFormed(s) && i < CellCount
    ensures a == Place <==> s.board[i] == Empty
    ensures a == Invalid <==>
      s.board[i] == Mark(s.currentPlayer) ||
      (s.board[i] == Mark(Opponent(s.currentPlayer)) && !CanCancel(s))
  {
    if s.board[i] == Mark(Opponent(s.currentPlayer)) && CanCancel(s) then Cancel
    else if s.board[i] == Empty then Place
    else
      assert s.board[i].player in {X, O};
      Invalid
  }

  /** The state change of a cancel or a place on cell `i`, before the
      turn passes. */
  function Perform(s: State, i: nat, a: Action): (t: State)
    requires WellFormed(s) && i < CellCount && a != Invalid
    ensures WellFormed(t)
  {
    if a == Cancel then
      WithFlag(s.(board := s.board[i := Empty]), s.currentPlayer, true)
    else
      WithFlag(s.(board := s.board[i := Mark(s.currentPlayer)]), s.currentPlayer, false)
  }

  /** One click on cell `i`: classify it; for a cancel or a place, change
      the cell and the mover's flag, then check for a win, then for a
      draw, and pass the turn only when the round goes on. */
  function Step(s: State, i: nat): (t: Transition)
    requires WellFormed(s) && i < CellCount
    ensures WellFormed(t.next)
  {
    var a := Classify(s, i);
    if a == Invalid then Transition(s, Outcome(Invalid, None))
    else
      var u := Perform(s, i, a);
      var w := CheckWin(u.board);
      if w.Some? then Transition(u, Outcome(a, Some(Won(w.value))))
      else if IsBoardFull(u.board) then Transition(u, Outcome(a, Some(Drawn)))
      else Transition(u.(currentPlayer := Opponent(u.currentPlayer)), Outcome(a, None))
  }

  /** The cells the player to move may cancel now: those holding the
      opponent's mark, provided the mover may cancel at all. */
  function Cancelable(s: State): (r: set<nat>)
    requires WellFormed(s)
    ensures forall i :: i in r ==> i < CellCount && s.board[i] == Mark(Opponent(s.currentPlayer))
    ensures !CanCancel(s) ==> r == {}
  {
    set i: nat | i < CellCount && s.board[i] == Mark(Opponent(s.currentPlayer)) && CanCancel(s)
  }

  // ---------------------------------------------------------------------
  // The rules, stated about one click.
  // ---------------------------------------------------------------------

  /** Cancel: the opponent's mark on cell `i` is removed when the mover's
      flag is clear; the mover's flag becomes set; no other cell and not
      the opponent's flag change. */
  lemma CancelRule(s: State, i: nat)
    requires WellFormed(s) && i < CellCount
    requires s.board[i] == Mark(Opponent(s.currentPlayer)) && !LastMoveWasCancel(s, s.currentPlayer)
    ensures var t := Step(s, i);
      t.outcome.action == Cancel &&
      t.next.board[i] == Empty &&
      (forall j :: 0 <= j < CellCount && j != i ==> t.next.board[j] == s.board[j]) &&
      LastMoveWasCancel(t.next, s.currentPlayer) &&
      LastMoveWasCancel(t.next, Opponent(s.currentPlayer)) == LastMoveWasCancel(s, Opponent(s.currentPlayer))
  {
  }

  /** Place: an empty cell `i` receives the mover's mark; the mover's flag
      is cleared; no other cell and not the opponent's flag change. */
  lemma PlaceRule(s: State, i: nat)
    requires WellFormed(s) && i < CellCount
    requires s.board[i] == Empty
    ensures var t := Step(s, i);
      t.outcome.action == Place &&
      t.next.board[i] == Mark(s.currentPlayer) &&
      (forall j :: 0 <= j < CellCount && j != i ==> t.next.board[j] == s.board[j]) &&
      !LastMoveWasCancel(t.next, s.currentPlayer) &&
      LastMoveWasCancel(t.next, Opponent(s.currentPlayer)) == LastMoveWasCancel(s, Opponent(s.currentPlayer))
  {
  }

  /** Invalid click: exactly a click on the mover's own mark, or on the
      opponent's mark while the mover's flag is set; it changes nothing
      and ends nothing. */
  lemma InvalidRule(s: State, i: nat)
    requires WellFormed(s) && i < CellCount
    ensures Step(s, i).outcome.action == Invalid <==>
      (s.board[i] == Mark(s.currentPlayer) ||
       (s.board[i] == Mark(Opponent(s.currentPlayer)) && LastMoveWasCancel(s, s.currentPlayer)))
    ensures Step(s, i).outcome.action == Invalid ==>
      Step(s, i) == Transition(s, Outcome(Invalid, None))
  {
  }

  /** No double cancel: a mover whose flag is set empties no cell; the only
      click that does anything is a place, and it clears the flag. */
  lemma NoDoubleCancel(s: State, i: nat)
    requires WellFormed(s) && i < CellCount
    requires LastMoveWasCancel(s, s.currentPlayer)
    ensures var t := Step(s, i);
      t.outcome.action != Cancel &&
      (forall j :: 0 <= j < CellCount && t.next.board[j] == Empty ==> s.board[j] == Empty) &&
      (t.outcome.action == Place ==> !LastMoveWasCancel(t.next, s.currentPlayer)) &&
      (t.outcome.action == Invalid ==> t.next == s)
  {
  }

  /** Turn alternation: the turn passes exactly when the click was valid and
      the round goes on; the opponent's flag is never touched. */
  lemma TurnAlternation(s: State, i: nat)
    requires WellFormed(s) && i < CellCount
    ensures var t := Step(s, i);
      (t.outcome.action != Invalid && t.outcome.terminal.None? <==>
         t.next.currentPlayer == Opponent(s.currentPlayer)) &&
      ((t.outcome.action == Invalid || t.outcome.terminal.Some?) ==>
         t.next.currentPlayer == s.currentPlayer) &&
      LastMoveWasCancel(t.next, Opponent(s.currentPlayer)) == LastMoveWasCancel(s, Opponent(s.currentPlayer))
  {
  }

  /** A win is reported exactly when a valid click leaves a completed line,
      and it is the first one in the scan order. */
  lemma WinReported(s: State, i: nat, w: Win)
    requires WellFormed(s) && i < CellCount
    ensures var t := Step(s, i);
      t.outcome.terminal == Some(Won(w)) <==>
        t.outcome.action != Invalid && CheckWin(t.next.board) == Some(w)
  {
  }

  /** A draw is reported exactly when a valid click leaves no completed line
      and no empty cell. */
  lemma DrawReported(s: State, i: nat)
    requires WellFormed(s) && i < CellCount
    ensures var t := Step(s, i);
      t.outcome.terminal == Some(Drawn) <==>
        t.outcome.action != Invalid &&
        (forall k, p :: 0 <= k < |WinCombinations| ==> !Owns(t.next.board, WinCombinations[k], p)) &&
        (forall j :: 0 <= j < CellCount ==> t.next.board[j] != Empty)
  {
  }

  /** Within a round no line is completed. From such a state a cancel never
      ends the round, and a win is always the mover's own, along a line
      through the clicked cell. */
  lemma WinIsTheMovers(s: State, i: nat)
    requires WellFormed(s) && i < CellCount
    requires CheckWin(s.board).None?
    ensures var t := Step(s, i);
      (t.outcome.action == Cancel ==> t.outcome.terminal.None?) &&
      (t.outcome.terminal.Some? && t.outcome.terminal.value.Won? ==>
         var w := t.outcome.terminal.value.win;
         t.outcome.action == Place && w.winner == s.currentPlayer &&
         (w.combination.a == i || w.combination.b == i || w.combination.c == i))
  {
  }

  /** The cancelable-cells query agrees with the click classification: a
      cell is listed exactly when clicking it cancels. */
  lemma CancelableMeansCancel(s: State, i: nat)
    requires WellFormed(s) && i < CellCount
    ensures i in Cancelable(s) <==> Step(s, i).outcome.action == Cancel
  {
  }

  /** The cancelable cells are exactly the opponent's marks when the mover
      may cancel, and none otherwise. */
  lemma CancelableIsOpponentMarks(s: State)
    requires WellFormed(s)
    ensures CanCancel(s) ==>
      Cancelable(s) == set i: nat | i < CellCount && s.board[i] == Mark(Opponent(s.currentPlayer))
    ensures !CanCancel(s) ==> Cancelable(s) == {}
  {
  }
}
