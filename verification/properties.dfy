/**
 Properties of whole runs of the controller, and the game's scenarios
 replayed on the model.
 */
module Properties {
  import opened Board
  import opened Transitions

  /** No "play again" among the events. */
  predicate NoReset(events: seq<Event>)
  {
    forall k :: 0 <= k < |events| ==> !events[k].PlayAgain?
  }

  /** The oldest scheduled resolution is the one for the two selected
      apples, with the sum of their current values. */
  predicate ResolvesSelection(s: Session)
  {
    && |s.selectedIndices| == 2 && s.pending != []
    && var a, b := s.selectedIndices[0], s.selectedIndices[1];
       && 0 <= a < |s.grid| && 0 <= b < |s.grid|
       && s.pending[0] == Pending(a, b, s.grid[a].value + s.grid[b].value)
  }

  /** The discipline the lock is meant to enforce: at most one resolution is
      scheduled, exactly while the lock is held, and it is the one for the
      selected pair. */
  predicate Orderly(s: Session)
  {
    && |s.pending| <= 1
    && (s.isProcessing <==> |s.pending| == 1)
    && (s.isProcessing ==> ResolvesSelection(s))
  }

  /** The score effect is idempotent: when the high score it raised triggers
      it again, the second run changes nothing. */
  lemma ScoreEffectSettles(s: Session)
    ensures AfterScoreChange(AfterScoreChange(s)) == AfterScoreChange(s)
  {
  }

  /** Over any run, resets included, the high score never goes down. */
  lemma {:induction false} HighScoreNeverDecreases(s: Session, events: seq<Event>)
    requires Inv(s)
    ensures Run(s, events).highScore >= s.highScore
    decreases |events|
  {
    if events != [] {
      HighScoreNeverDecreases(Step(s, events[0]), events[1..]);
    }
  }

  /** Between two resets the score never goes down (that it stays even is
      part of the invariant every run keeps). */
  lemma {:induction false} ScoreNeverFallsWithoutReset(s: Session, events: seq<Event>)
    requires Inv(s) && NoReset(events)
    ensures Run(s, events).score >= s.score
    decreases |events|
  {
    if events != [] {
      assert !events[0].PlayAgain?;
      ScoreNeverFallsWithoutReset(Step(s, events[0]), events[1..]);
    }
  }

  /** Once the game is over it stays over until "play again". */
  lemma {:induction false} GameOverIsSticky(s: Session, events: seq<Event>)
    requires Inv(s) && s.isGameOver && NoReset(events)
    ensures Run(s, events).isGameOver
    decreases |events|
  {
    if events != [] {
      assert !events[0].PlayAgain?;
      GameOverIsSticky(Step(s, events[0]), events[1..]);
    }
  }

  /** Once the game is over, taps change nothing, whatever was tapped. */
  lemma {:induction false} TapsIgnoredAfterGameOver(s: Session, taps: seq<int>)
    requires Inv(s) && s.isGameOver
    ensures Run(s, seq(|taps|, k requires 0 <= k < |taps| => Tap(taps[k]))) == s
    decreases |taps|
  {
    var events := seq(|taps|, k requires 0 <= k < |taps| => Tap(taps[k]));
    if taps != [] {
      assert Step(s, events[0]) == s;
      assert events[1..] == seq(|taps[1..]|, k requires 0 <= k < |taps[1..]| => Tap(taps[1..][k]));
      TapsIgnoredAfterGameOver(s, taps[1..]);
    }
  }

  /** Without resets the lock works as intended: one step keeps at most one
      resolution scheduled, exactly while the lock is held. */
  lemma StepKeepsOrderly(s: Session, e: Event)
    requires Inv(s) && Orderly(s) && !e.PlayAgain?
    ensures Orderly(Step(s, e))
  {
  }

  lemma {:induction false} RunKeepsOrderly(s: Session, events: seq<Event>)
    requires Inv(s) && Orderly(s) && NoReset(events)
    ensures Orderly(Run(s, events))
    decreases |events|
  {
    if events != [] {
      assert !events[0].PlayAgain?;
      StepKeepsOrderly(s, events[0]);
      RunKeepsOrderly(Step(s, events[0]), events[1..]);
    }
  }

  /** Every state reached from the start without a reset is orderly. */
  lemma OrderlyUntilFirstReset(saved: Option<int>, draws: seq<nat>, events: seq<Event>)
    requires |draws| == TotalCells && ValidDraws(draws) && NoReset(events)
    ensures Orderly(Run(Initial(saved, draws), events))
  {
    RunKeepsOrderly(Initial(saved, draws), events);
  }

  /** Any two distinct apples, picked from an idle board and resolved: the
      pair scores 2 exactly when its values add up to 9, and then both
      positions get apples whose ids differ from every id on the board;
      otherwise the board is untouched. No other position changes, and the
      controller is idle again afterwards. */
  lemma PairResolution(s: Session, a: int, b: int, draw1: nat, draw2: nat)
    requires Inv(s) && s.selectedIndices == [] && s.pending == [] && !s.isGameOver
    requires 0 <= a < |s.grid| && 0 <= b < |s.grid| && a != b
    requires draw1 < 9 && draw2 < 9
    ensures var t := AfterResolve(AfterClick(AfterClick(s, a), b), draw1, draw2);
            var sum := s.grid[a].value + s.grid[b].value;
            && t.score == s.score + (if sum == 9 then 2 else 0)
            && |t.grid| == |s.grid|
            && (forall k :: 0 <= k < |s.grid| && k != a && k != b ==> t.grid[k] == s.grid[k])
            && (sum != 9 ==> t.grid == s.grid)
            && (sum == 9 ==> forall k :: 0 <= k < |s.grid| ==>
                  t.grid[a].id != s.grid[k].id && t.grid[b].id != s.grid[k].id)
            && t.selectedIndices == [] && !t.isProcessing && t.pending == []
  {
  }

  /** A reset while a pair is being resolved releases the lock but leaves the
      timer scheduled, so the discipline above is lost. */
  lemma ResetWhileProcessingLeavesTimer(s: Session, draws: seq<nat>)
    requires Inv(s) && s.isProcessing && |draws| == TotalCells && ValidDraws(draws)
    ensures !AfterReset(s, draws).isProcessing && AfterReset(s, draws).pending != []
    ensures !Orderly(AfterReset(s, draws))
  {
  }

  /** The stale timer then still scores on the new game: a matching pair
      picked before the reset gives the fresh game 2 points. */
  lemma StaleMatchScoresAfterReset(s: Session, draws: seq<nat>, draw1: nat, draw2: nat)
    requires Inv(s) && s.pending != [] && s.pending[0].sum == 9
    requires |draws| == TotalCells && ValidDraws(draws) && draw1 < 9 && draw2 < 9
    ensures AfterResolve(AfterReset(s, draws), draw1, draw2).score == 2
  {
  }

  /** A board whose first two apples are 4 and 5. */
  predicate FourFiveStart(draws: seq<nat>)
  {
    |draws| == TotalCells && ValidDraws(draws) && draws[0] == 3 && draws[1] == 4
  }

  /** Tap 0, tap 1, timer: the pair 4 + 5 scores 2 and both apples are new. */
  lemma ScenarioMatchingPair(draws: seq<nat>, draw1: nat, draw2: nat)
    requires FourFiveStart(draws) && draw1 < 9 && draw2 < 9
    ensures var s0 := Initial(None, draws);
            var s1 := AfterClick(s0, 0);
            var s2 := AfterClick(s1, 1);
            var s3 := AfterResolve(s2, draw1, draw2);
            && s1.selectedIndices == [0] && !s1.isProcessing
            && s2.selectedIndices == [0, 1] && s2.isProcessing
            && s3.score == 2 && s3.selectedIndices == [] && !s3.isProcessing
            && s3.grid[0].id != s0.grid[0].id && s3.grid[1].id != s0.grid[1].id
  {
  }

  /** Tap 0, tap 1, "play again", timer: the new game starts at 2 points. */
  lemma ScenarioStaleTimer(draws: seq<nat>, again: seq<nat>, draw1: nat, draw2: nat)
    requires FourFiveStart(draws) && |again| == TotalCells && ValidDraws(again)
    requires draw1 < 9 && draw2 < 9
    ensures Run(Initial(None, draws), [Tap(0), Tap(1), PlayAgain(again), TimerFires(draw1, draw2)]).score == 2
  {
    var s0 := Initial(None, draws);
    assert s0.grid[0].value == 4 && s0.grid[1].value == 5;
    var s1 := AfterClick(s0, 0);
    var s2 := AfterClick(s1, 1);
    assert s2.pending == [Pending(0, 1, 9)];
    var s3 := AfterReset(s2, again);
    var events := [Tap(0), Tap(1), PlayAgain(again), TimerFires(draw1, draw2)];
    assert Run(s3, events[3..]) == AfterResolve(s3, draw1, draw2);
    assert Run(s2, events[2..]) == Run(s3, events[3..]);
    assert Run(s1, events[1..]) == Run(s2, events[2..]);
    assert Run(s0, events) == Run(s1, events[1..]);
  }

  /** Tap 5 twice: the second tap takes the apple out of the selection again. */
  lemma ScenarioDeselect(draws: seq<nat>)
    requires |draws| == TotalCells && ValidDraws(draws)
    ensures var s1 := AfterClick(Initial(None, draws), 5);
            && s1.selectedIndices == [5]
            && AfterClick(s1, 5).selectedIndices == []
            && !AfterClick(s1, 5).isProcessing
  {
  }

  /** At 28 points a matching pair wins the game in the same update. */
  lemma ScenarioWinningPair(s: Session, draw1: nat, draw2: nat)
    requires Inv(s) && s.score == 28 && s.pending != [] && s.pending[0].sum == 9
    requires draw1 < 9 && draw2 < 9
    ensures AfterResolve(s, draw1, draw2).score == 30
    ensures AfterResolve(s, draw1, draw2).isGameOver
  {
  }
}
