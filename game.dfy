/**
 The engine as the program keeps it: a grid of nine cells updated in
 place, the player to move, the two `lastMoveWasCancel` flags, the
 `isAnimating` lock that the caller's timers set and clear, and
 `resetPending`, set when a win or draw schedules the reset. Every method
 that changes the state is proved to do what `Rules.Step`,
 `Rules.Initial` and module Lock say.
 */
module Engine {
  import opened Board
  import opened Rules
  import Lock

  class Game {
    var board: array<Cell>
    var currentPlayer: Player
    var xLastMoveWasCancel: bool
    var oLastMoveWasCancel: bool
    /** While set, clicks are dropped. */
    var isAnimating: bool
    /** A win or draw has scheduled the reset. */
    var resetPending: bool

    ghost predicate Valid()
      reads this
    {
      board.Length == CellCount
    }

    /** The engine's state as a value. */
    function Snapshot(): State
      reads this, board
    {
      State(board[..], currentPlayer, xLastMoveWasCancel, oLastMoveWasCancel)
    }

    /** The engine state together with the lock. */
    function SessionState(): Lock.Session
      reads this, board
    {
      Lock.Session(Snapshot(), isAnimating, resetPending)
    }

    /** The state at page load: empty grid, X to move, both flags clear,
        no animation running. */
    constructor ()
      ensures Valid() && fresh(board)
      ensures Snapshot() == Initial() && !isAnimating && !resetPending
    {
      board := new Cell[CellCount](_ => Empty);
      currentPlayer := X;
      xLastMoveWasCancel, oLastMoveWasCancel := false, false;
      isAnimating, resetPending := false, false;
      new;
      assert board[..] == EmptyGrid();
    }

    /** A click on cell `index`. A click while an animation runs is
        dropped. Otherwise the click cancels, places or is ignored as
        `Rules.Step` says, and a cancel or place takes the lock. */
    method HandleCellClick(index: nat) returns (outcome: Outcome)
      requires Valid() && index < CellCount
      modifies this, board
      ensures Valid() && board == old(board)
      ensures old(isAnimating) ==>
        outcome == Outcome(Invalid, None) && Snapshot() == old(Snapshot()) && isAnimating
      ensures !old(isAnimating) ==>
        Transition(Snapshot(), outcome) == Step(old(Snapshot()), index) &&
        isAnimating == (outcome.action != Invalid)
      ensures Lock.SessionStep(SessionState(), outcome) == Lock.Click(old(SessionState()), index)
    {
      ghost var before := SessionState();
      if isAnimating {
        return Outcome(Invalid, None);
      }
      var cellValue := board[index];
      var opponentMark := Mark(Opponent(currentPlayer));
      var action: Action;
      if cellValue == opponentMark && CanCancel(Snapshot()) {
        PerformCancel(index);
        action := Cancel;
      } else if cellValue == Empty {
        PerformPlace(index);
        action := Place;
      } else {
        outcome := Outcome(Invalid, None);
        Lock.ClickIsStep(before, index, SessionState(), outcome);
        return;
      }
      var winResult := CheckWin();
      if winResult.Some? {
        // the win handler takes the lock and schedules the reset
        isAnimating, resetPending := true, true;
        outcome := Outcome(action, Some(Won(winResult.value)));
      } else if IsBoardFull(board[..]) {
        // so does the draw handler
        isAnimating, resetPending := true, true;
        outcome := Outcome(action, Some(Drawn));
      } else {
        SwitchPlayer();
        outcome := Outcome(action, None);
      }
      Lock.ClickIsStep(before, index, SessionState(), outcome);
    }

    /** Remove the opponent's mark on cell `index` and set the mover's flag;
        takes the lock. */
    method PerformCancel(index: nat)
      requires Valid() && index < CellCount
      modifies this, board
      ensures Valid() && board == old(board) && isAnimating && resetPending == old(resetPending)
      ensures Snapshot() == Perform(old(Snapshot()), index, Cancel)
    {
      isAnimating := true;
      board[index] := Empty;
      if currentPlayer == X {
        xLastMoveWasCancel := true;
      } else {
        oLastMoveWasCancel := true;
      }
    }

    /** Put the mover's mark on cell `index` and clear the mover's flag;
        takes the lock. */
    method PerformPlace(index: nat)
      requires Valid() && index < CellCount
      modifies this, board
      ensures Valid() && board == old(board) && isAnimating && resetPending == old(resetPending)
      ensures Snapshot() == Perform(old(Snapshot()), index, Place)
    {
      isAnimating := true;
      board[index] := Mark(currentPlayer);
      if currentPlayer == X {
        xLastMoveWasCancel := false;
      } else {
        oLastMoveWasCancel := false;
      }
    }

    /** Pass the turn to the other player. */
    method SwitchPlayer()
      modifies this`currentPlayer
      ensures currentPlayer == Opponent(old(currentPlayer))
    {
      currentPlayer := Opponent(currentPlayer);
    }

    /** The win scan over the grid, line by line in the listed order. */
    method CheckWin() returns (r: Option<Win>)
      requires Valid()
      ensures r == Board.CheckWin(board[..])
    {
      WinCombinationsOnGrid();
      var k := 0;
      while k < |WinCombinations|
        invariant 0 <= k <= |WinCombinations|
        invariant forall j :: 0 <= j < k ==> !LineWon(board[..], WinCombinations[j])
      {
        var combination := WinCombinations[k];
        var a, b, c := combination.a, combination.b, combination.c;
        if board[a] != Empty && board[a] == board[b] && board[a] == board[c] {
          assert LineWon(board[..], combination);
          return Some(Win(board[a].player, combination));
        }
        k := k + 1;
      }
      return None;
    }

    /** The cells to show as cancelable: each cell holding the opponent's
        mark, when the mover may cancel. */
    method CancelableCells() returns (cells: set<nat>)
      requires Valid()
      ensures cells == Cancelable(Snapshot())
    {
      var opponentMark := Mark(Opponent(currentPlayer));
      cells := {};
      var index: nat := 0;
      while index < board.Length
        invariant index <= board.Length
        invariant cells == set i: nat | i < index && board[i] == opponentMark && CanCancel(Snapshot())
      {
        if board[index] == opponentMark && CanCancel(Snapshot()) {
          cells := cells + {index};
        }
        index := index + 1;
      }
    }

    /** The end of a place or cancel animation releases the lock, unless
        a win or draw has scheduled the reset: then the lock stays taken
        until the reset (corrected; see `Lock.AnimationEndAsWritten`). */
    method EndAnimation()
      modifies this`isAnimating
      ensures SessionState() == Lock.AnimationEnd(old(SessionState()))
    {
      if !resetPending {
        isAnimating := false;
      }
    }

    /** Start a new round: a fresh empty grid, X to move, both flags clear,
        the lock released and no reset pending. The result does not depend on the state
        before, so resetting twice is resetting once. */
    method Reset()
      modifies this
      ensures Valid() && fresh(board)
      ensures Snapshot() == Initial() && !isAnimating
      ensures SessionState() == Lock.ResetFires()
    {
      board := new Cell[CellCount](_ => Empty);
      currentPlayer := X;
      xLastMoveWasCancel, oLastMoveWasCancel := false, false;
      isAnimating, resetPending := false, false;
      assert board[..] == EmptyGrid();
    }
  }
}
