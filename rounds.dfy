/**
 Sequences of clicks within one round (no reset in between), and the
 rule that a player never cancels twice without placing in between. Also
 five concrete plays: a first place, a cancel followed by a place, a
 top-row win, a draw on the last cell, and a click on one's own mark.
 */
module Rounds {
  import opened Board
  import opened Rules

  /** Who clicked and what the click did. */
  datatype Move = Move(mover: Player, action: Action)

  /** Every click is on the grid. */
  predicate OnGrid(clicks: seq<nat>) {
    forall k :: 0 <= k < |clicks| ==> clicks[k] < CellCount
  }

  /** The moves of the clicks, one per click, in order. */
  function Moves(s: State, clicks: seq<nat>): (m: seq<Move>)
    requires WellFormed(s) && OnGrid(clicks)
    ensures |m| == |clicks|
    decreases |clicks|
  {
    if clicks == [] then []
    else
      var t := Step(s, clicks[0]);
      [Move(s.currentPlayer, t.outcome.action)] + Moves(t.next, clicks[1..])
  }

  /** One click moves player `p`'s flag only when `p` is the mover and the
      click was valid: a cancel sets it, a place clears it. */
  lemma FlagAfterStep(s: State, i: nat, p: Player)
    requires WellFormed(s) && i < CellCount
    ensures var t := Step(s, i);
      LastMoveWasCancel(t.next, p) ==
        if p == s.currentPlayer && t.outcome.action == Cancel then true
        else if p == s.currentPlayer && t.outcome.action == Place then false
        else LastMoveWasCancel(s, p)
  {
  }

  /** Player `p` places somewhere strictly between positions `i` and `j`. */
  predicate PlacedBetween(m: seq<Move>, p: Player, i: int, j: int) {
    exists k :: i < k < j && 0 <= k < |m| && m[k] == Move(p, Place)
  }

  /** In the moves `m`, every cancel by `p` is preceded by a place by `p`
      since `p`'s previous cancel, and, when `p` starts with the flag set
      (`flag`), since the start. */
  predicate CancelsSeparated(m: seq<Move>, p: Player, flag: bool) {
    forall j :: 0 <= j < |m| && m[j] == Move(p, Cancel) ==>
      (flag ==> PlacedBetween(m, p, -1, j)) &&
      (forall i :: 0 <= i < j && m[i] == Move(p, Cancel) ==> PlacedBetween(m, p, i, j))
  }

  /** Within a round, between any two cancels by `p` there is a place by
      `p`; and if `p`'s last move before the round was a cancel, `p`
      places before cancelling again. */
  lemma {:induction false} CancelsSeparatedByPlace(s: State, clicks: seq<nat>, p: Player)
    requires WellFormed(s) && OnGrid(clicks)
    ensures CancelsSeparated(Moves(s, clicks), p, LastMoveWasCancel(s, p))
    decreases |clicks|
  {
    if clicks != [] {
      var t := Step(s, clicks[0]);
      var m := Moves(s, clicks);
      var m' := Moves(t.next, clicks[1..]);
      assert OnGrid(clicks[1..]);
      assert m == [Move(s.currentPlayer, t.outcome.action)] + m';
      assert m[1..] == m';
      CancelsSeparatedByPlace(t.next, clicks[1..], p);
      FlagAfterStep(s, clicks[0], p);
      forall j | 0 <= j < |m| && m[j] == Move(p, Cancel)
        ensures LastMoveWasCancel(s, p) ==> PlacedBetween(m, p, -1, j)
        ensures forall i :: 0 <= i < j && m[i] == Move(p, Cancel) ==> PlacedBetween(m, p, i, j)
      {
        if j == 0 {
          assert Classify(s, clicks[0]) == Cancel;
        } else {
          assert m'[j - 1] == m[j];
          if LastMoveWasCancel(s, p) {
            if m[0] == Move(p, Place) {
              assert PlacedBetween(m, p, -1, j);
            } else {
              assert LastMoveWasCancel(t.next, p);
              ShiftPlaced(m, m', p, -1, j);
            }
          }
          forall i | 0 <= i < j && m[i] == Move(p, Cancel)
            ensures PlacedBetween(m, p, i, j)
          {
            if i == 0 {
              assert LastMoveWasCancel(t.next, p);
              ShiftPlaced(m, m', p, -1, j);
            } else {
              assert m'[i - 1] == m[i];
              ShiftPlaced(m, m', p, i - 1, j);
            }
          }
        }
      }
    }
  }

  /** A place found in the tail of the moves is one in the whole. */
  lemma ShiftPlaced(m: seq<Move>, m': seq<Move>, p: Player, i: int, j: int)
    requires |m| == |m'| + 1 && m[1..] == m'
    requires 0 < j <= |m|
    requires PlacedBetween(m', p, i, j - 1)
    ensures PlacedBetween(m, p, i + 1, j)
  {
  }

  // ---------------------------------------------------------------------
  // Concrete situations.
  // ---------------------------------------------------------------------

  /** From the start, X places on cell 0: the turn passes to O and X's
      flag stays clear. */
  lemma FirstPlace()
    ensures var t := Step(Initial(), 0);
      t.outcome == Outcome(Place, None) &&
      t.next.board[0] == Mark(X) &&
      t.next.currentPlayer == O &&
      !LastMoveWasCancel(t.next, X)
  {
  }

  /** X cancels O's mark on cell 0; O then places on cell 4; back on X's
      turn, X may cancel nothing until X places again. */
  lemma CancelThenPlace()
    ensures var s := State(Initial().board[0 := Mark(O)], X, false, false);
      var t1 := Step(s, 0);
      var t2 := Step(t1.next, 4);
      t1.outcome == Outcome(Cancel, None) && t1.next.board[0] == Empty &&
      LastMoveWasCancel(t1.next, X) && t1.next.currentPlayer == O &&
      t2.outcome == Outcome(Place, None) && t2.next.currentPlayer == X &&
      Cancelable(t2.next) == {} &&
      forall i :: 0 <= i < CellCount ==> Step(t2.next, i).outcome.action != Cancel
  {
  }

  /** X completes the top row: the win is reported on line (0, 1, 2) and
      the turn stays with X. */
  lemma TopRowWin()
    ensures var s := State([Mark(X), Mark(X), Empty, Mark(O), Mark(O), Empty, Empty, Empty, Empty], X, false, false);
      var t := Step(s, 2);
      t.outcome == Outcome(Place, Some(Won(Win(X, Line(0, 1, 2))))) &&
      t.next.currentPlayer == X
  {
  }

  /** X fills the last cell without completing a line: a draw. */
  lemma LastCellDraw()
    ensures var s := State([Mark(X), Mark(O), Mark(X),
                            Mark(X), Mark(O), Mark(O),
                            Mark(O), Mark(X), Empty], X, false, false);
      var t := Step(s, 8);
      t.outcome == Outcome(Place, Some(Drawn)) && t.next.currentPlayer == X
  {
  }

  /** Clicking one's own mark is ignored. */
  lemma OwnMarkIgnored()
    ensures var s := State(Initial().board[4 := Mark(X)], X, false, false);
      Step(s, 4) == Transition(s, Outcome(Invalid, None))
  {
  }
}
