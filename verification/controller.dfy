/**
 The `App` component's game logic as an object: one field per piece of
 state the component keeps, and one method per handler. The timer that the
 component schedules with `setTimeout` is the `pending` queue; the event
 loop firing it is a call of `ResolvePending`. Every method is proved to
 move the object from its old snapshot to the one the corresponding
 function of module Transitions prescribes.
 */
module MatchController {
  import opened Board
  import opened Transitions

  class App {
    var grid: seq<Apple>
    var score: int
    var selectedIndices: seq<int>
    var isProcessing: bool
    var highScore: int
    var isGameOver: bool
    var pending: seq<Pending>
    var nextId: nat

    function Snapshot(): Session
      reads this
    {
      Session(grid, score, selectedIndices, isProcessing, isGameOver, highScore, pending, nextId)
    }

    ghost predicate Valid()
      reads this
    {
      Inv(Snapshot())
    }

    /** Mounting the component: the initial state, then the stored high score
        is loaded and the score effect runs. */
    constructor (saved: Option<int>, draws: seq<nat>)
      requires |draws| == TotalCells && ValidDraws(draws)
      ensures Valid() && Snapshot() == Initial(saved, draws)
    {
      grid := InitialGrid(0, draws);
      nextId := TotalCells;
      score := 0;
      selectedIndices := [];
      isProcessing := false;
      highScore := 0;
      isGameOver := false;
      pending := [];
      new;
      if saved.Some? {
        highScore := saved.value;
      }
      ScoreEffect();
    }

    /** The effect that watches the score: raise the high score, end the game
        at the target score. */
    method ScoreEffect()
      modifies this`highScore, this`isGameOver
      ensures Snapshot() == AfterScoreChange(old(Snapshot()))
    {
      if score > highScore {
        highScore := score;
      }
      if score >= TargetScore {
        isGameOver := true;
      }
    }

    method HandleAppleClick(index: int)
      requires Valid() && 0 <= index < |grid|
      modifies this`selectedIndices, this`isProcessing, this`pending
      ensures Valid() && Snapshot() == AfterClick(old(Snapshot()), index)
    {
      if isProcessing || grid[index].isMatched || isGameOver {
        return;
      }
      if index in selectedIndices {
        selectedIndices := Without(selectedIndices, index);
        return;
      }
      var nextSelection := selectedIndices + [index];
      if |nextSelection| == 2 {
        isProcessing := true;
        selectedIndices := nextSelection;
        var firstIdx, secondIdx := nextSelection[0], nextSelection[1];
        var sum := grid[firstIdx].value + grid[secondIdx].value;
        pending := pending + [Pending(firstIdx, secondIdx, sum)];
      } else {
        selectedIndices := nextSelection;
      }
    }

    /** The oldest scheduled timer fires; `draw1` and `draw2` are the random
        draws for the two replacement apples. */
    method ResolvePending(draw1: nat, draw2: nat)
      requires Valid() && pending != [] && draw1 < 9 && draw2 < 9
      modifies this
      ensures Valid() && Snapshot() == AfterResolve(old(Snapshot()), draw1, draw2)
    {
      var p := pending[0];
      pending := pending[1..];
      if p.sum == 9 {
        score := score + 2;
        grid := ReplacePair(grid, p.first, p.second, nextId, draw1, draw2);
        nextId := nextId + 2;
        selectedIndices := [];
        isProcessing := false;
        ScoreEffect();
      } else {
        selectedIndices := [];
        isProcessing := false;
      }
    }

    /** The "play again" button. Scheduled timers are left in place. */
    method ResetGame(draws: seq<nat>)
      requires Valid() && |draws| == TotalCells && ValidDraws(draws)
      modifies this`grid, this`nextId, this`score, this`selectedIndices, this`isProcessing, this`isGameOver
      ensures Valid() && Snapshot() == AfterReset(old(Snapshot()), draws)
    {
      grid := InitialGrid(nextId, draws);
      nextId := nextId + TotalCells;
      score := 0;
      selectedIndices := [];
      isProcessing := false;
      isGameOver := false;
    }
  }
}
