/**
 The input lock around the rule engine. `isAnimating` drops clicks while
 an animation or the end-of-round delay runs; `resetPending` records that
 a win or draw has scheduled a reset. The end of a place or cancel
 animation is given twice: as script.js has it (the lock is always
 released) and corrected (the lock stays taken while a reset is pending).
 */
module Lock {
  import opened Board
  import opened Rules

  datatype Session = Session(game: State, isAnimating: bool, resetPending: bool)

  datatype SessionStep = SessionStep(next: Session, outcome: Outcome)

  /** A click: dropped while locked; otherwise the rule engine's `Step`,
      after which a valid click holds the lock and a win or draw
      schedules a reset. */
  function Click(x: Session, i: nat): (r: SessionStep)
    requires WellFormed(x.game) && i < CellCount
    ensures WellFormed(r.next.game)
    ensures x.isAnimating ==> r == SessionStep(x, Outcome(Invalid, None))
    ensures !x.isAnimating && r.outcome.terminal.Some? ==> r.next.isAnimating && r.next.resetPending
  {
    if x.isAnimating then SessionStep(x, Outcome(Invalid, None))
    else
      var t := Step(x.game, i);
      SessionStep(
        Session(t.next, t.outcome.action != Invalid, x.resetPending || t.outcome.terminal.Some?),
        t.outcome)
  }

  /** An unlocked click moves the session by `Step`, takes the lock
      exactly when valid and adds a pending reset exactly on a win or draw. */
  lemma ClickIsStep(x: Session, i: nat, y: Session, o: Outcome)
    requires WellFormed(x.game) && i < CellCount && !x.isAnimating
    requires Transition(y.game, o) == Step(x.game, i)
    requires y.isAnimating == (o.action != Invalid)
    requires y.resetPending == (x.resetPending || o.terminal.Some?)
    ensures Click(x, i) == SessionStep(y, o)
  {
  }

  /** The end of a place or cancel animation as script.js has it: the
      lock is released whatever else is pending. */
  function AnimationEndAsWritten(x: Session): (y: Session)
    ensures !y.isAnimating && y.game == x.game && y.resetPending == x.resetPending
  {
    x.(isAnimating := false)
  }

  /** The end of a place or cancel animation, corrected: the lock is
      released only when no reset is pending. */
  function AnimationEnd(x: Session): (y: Session)
    ensures y.game == x.game && y.resetPending == x.resetPending
    ensures y.isAnimating <==> x.isAnimating && x.resetPending
  {
    if x.resetPending then x else x.(isAnimating := false)
  }

  /** The delayed reset: the starting state, the lock released and
      nothing pending. */
  function ResetFires(): (y: Session)
    ensures y.game == Initial() && !y.isAnimating && !y.resetPending
  {
    Session(Initial(), false, false)
  }

  /** A pending reset keeps the lock taken. */
  predicate Guarded(x: Session) {
    x.resetPending ==> x.isAnimating
  }

  /** Clicks, corrected animation ends and the reset all keep `Guarded`. */
  lemma GuardedPreserved(x: Session, i: nat)
    requires WellFormed(x.game) && i < CellCount && Guarded(x)
    ensures Guarded(Click(x, i).next)
    ensures Guarded(AnimationEnd(x))
    ensures Guarded(ResetFires())
  {
  }

  /** What can happen to a session. */
  datatype Event = ClickOn(cell: nat) | AnimationEnds | ResetRuns

  predicate OnGrid(events: seq<Event>) {
    forall k :: 0 <= k < |events| && events[k].ClickOn? ==> events[k].cell < CellCount
  }

  /** The session after the events, with the corrected animation end. */
  function Run(x: Session, events: seq<Event>): (y: Session)
    requires WellFormed(x.game) && OnGrid(events)
    ensures WellFormed(y.game)
    decreases |events|
  {
    if events == [] then x
    else
      var y := match events[0]
        case ClickOn(i) => Click(x, i).next
        case AnimationEnds => AnimationEnd(x)
        case ResetRuns => ResetFires();
      Run(y, events[1..])
  }

  /** Once a win or draw has scheduled the reset, nothing but the reset
      changes the session: every click is dropped and no animation end
      releases the lock. */
  lemma {:induction false} NoPlayAfterRoundEnds(x: Session, events: seq<Event>)
    requires WellFormed(x.game) && OnGrid(events)
    requires x.resetPending && Guarded(x)
    requires forall k :: 0 <= k < |events| ==> events[k] != ResetRuns
    ensures Run(x, events) == x
    decreases |events|
  {
    if events != [] {
      assert OnGrid(events[1..]);
      if events[0].ClickOn? {
        assert Click(x, events[0].cell).next == x;
      } else {
        assert events[0] == AnimationEnds && AnimationEnd(x) == x;
      }
      NoPlayAfterRoundEnds(x, events[1..]);
    }
  }

  /** As written, the lock does not hold until the reset. X completes the
      top row; the place animation ends and releases the lock; X's next
      click, on the finished grid, is played and reported as a second win,
      which schedules a second reset. */
  lemma ClickAcceptedAfterWinAsWritten()
    ensures var x0 := Session(State([Mark(X), Mark(X), Empty,
                                     Mark(O), Mark(O), Empty,
                                     Empty, Empty, Empty], X, false, false), false, false);
      var c1 := Click(x0, 2);
      var x2 := AnimationEndAsWritten(c1.next);
      var c3 := Click(x2, 5);
      c1.outcome == Outcome(Place, Some(Won(Win(X, Line(0, 1, 2))))) &&
      !Guarded(x2) &&
      c3.outcome == Outcome(Place, Some(Won(Win(X, Line(0, 1, 2)))))
  {
  }
}
