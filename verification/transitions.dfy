/**
 The match controller as a state machine over values. A `Session` is a
 snapshot of the controller's state; each function below gives the state
 after one event (a tap on an apple, the resolution timer firing, a reset,
 the score effect) in terms of the state before it. The class in
 controller.dfy is proved to follow these functions step by step.
 */
module Transitions {
  import opened Board

  const TargetScore: int := 30

  datatype Option<T> = None | Some(value: T)

  /** A resolution scheduled with `setTimeout`: the two picked positions and
      the sum of their values as they were when the second one was picked. */
  datatype Pending = Pending(first: int, second: int, sum: int)

  /** The controller's state. `pending` holds the scheduled resolutions in
      the order their timers fire; `nextId` is the next unused apple id. */
  datatype Session = Session(
    grid: seq<Apple>,
    score: int,
    selectedIndices: seq<int>,
    isProcessing: bool,
    isGameOver: bool,
    highScore: int,
    pending: seq<Pending>,
    nextId: nat)

  predicate ValidPending(p: Pending)
  {
    0 <= p.first < TotalCells && 0 <= p.second < TotalCells && p.first != p.second
  }

  /** What holds in every state the game can reach. */
  ghost predicate Inv(s: Session)
  {
    && WellFormedGrid(s.grid, s.nextId)
    // the selection: at most two distinct positions on the board
    && |s.selectedIndices| <= 2
    && (forall k :: 0 <= k < |s.selectedIndices| ==> 0 <= s.selectedIndices[k] < TotalCells)
    && (|s.selectedIndices| == 2 ==> s.selectedIndices[0] != s.selectedIndices[1])
    // the lock is held exactly while a full pair is selected, and then a timer is scheduled
    && (s.isProcessing <==> |s.selectedIndices| == 2)
    && (s.isProcessing ==> s.pending != [])
    && (forall k :: 0 <= k < |s.pending| ==> ValidPending(s.pending[k]))
    // the score is a non-negative even number, never above the high score
    && 0 <= s.score && s.score % 2 == 0
    && s.score <= s.highScore
    && (s.score >= TargetScore ==> s.isGameOver)
  }

  /** Input is ignored while the lock is held, on a matched apple, and once the game is over. */
  predicate Ignores(s: Session, index: int)
    requires 0 <= index < |s.grid|
  {
    s.isProcessing || s.grid[index].isMatched || s.isGameOver
  }

  predicate Distinct(xs: seq<int>)
  {
    forall j, k :: 0 <= j < k < |xs| ==> xs[j] != xs[k]
  }

  /** `xs` without any occurrence of `x`, order kept (`Array.prototype.filter`). */
  function Without(xs: seq<int>, x: int): (r: seq<int>)
    ensures forall y :: y in r <==> y in xs && y != x
    ensures |r| <= |xs|
    ensures x in xs ==> |r| < |xs|
    ensures Distinct(xs) ==> Distinct(r)
    // order is kept: nothing is dropped when `x` is absent (see also WithoutCutsOut)
    ensures x !in xs ==> r == xs
  {
    if xs == [] then []
    else if xs[0] == x then Without(xs[1..], x)
    else
      var rest := Without(xs[1..], x);
      assert Distinct(xs) ==> xs[0] !in xs[1..];
      [xs[0]] + rest
  }

  /** A single occurrence of `x` is cut out of `xs` where it stands; every
      other entry keeps its place. */
  lemma {:induction false} WithoutCutsOut(xs: seq<int>, x: int, i: int)
    requires 0 <= i < |xs| && xs[i] == x && x !in xs[..i] && x !in xs[i + 1..]
    ensures Without(xs, x) == xs[..i] + xs[i + 1..]
  {
    if i == 0 {
      assert xs[1..] == xs[i + 1..];
    } else {
      assert xs[0] in xs[..i];
      var tail := xs[1..];
      assert tail[..i - 1] == xs[1..i] && tail[i..] == xs[i + 1..];
      WithoutCutsOut(tail, x, i - 1);
      assert xs[..i] == [xs[0]] + xs[1..i];
    }
  }

  /** The score effect: run after every change of the score. It raises the
      high score to the score and ends the game once the target is reached. */
  function AfterScoreChange(s: Session): (t: Session)
    ensures t.highScore >= s.highScore && t.highScore >= s.score
    ensures t.highScore == s.highScore || t.highScore == s.score
    ensures t.isGameOver <==> s.isGameOver || s.score >= TargetScore
    ensures t == s.(highScore := t.highScore, isGameOver := t.isGameOver)
  {
    var raised := if s.score > s.highScore then s.(highScore := s.score) else s;
    if raised.score >= TargetScore then raised.(isGameOver := true) else raised
  }

  /** The state when the game is first shown: a fresh board, nothing selected,
      and the high score loaded from storage (`saved`), then settled by the
      score effect. */
  function Initial(saved: Option<int>, draws: seq<nat>): (s: Session)
    requires |draws| == TotalCells && ValidDraws(draws)
    ensures Inv(s)
    ensures s.score == 0 && s.selectedIndices == [] && s.pending == []
    ensures !s.isProcessing && !s.isGameOver
    ensures s.highScore >= 0 && (saved.Some? ==> s.highScore >= saved.value)
    ensures s.highScore == 0 || saved == Some(s.highScore)
  {
    var start := Session(InitialGrid(0, draws), 0, [], false, false, 0, [], TotalCells);
    var loaded := if saved.Some? then start.(highScore := saved.value) else start;
    AfterScoreChange(loaded)
  }

  /** A tap on the apple at `index`. */
  function AfterClick(s: Session, index: int): (t: Session)
    requires Inv(s) && 0 <= index < |s.grid|
    ensures Inv(t)
    // a tap never touches the board, the score, the game-over flag or the high score
    ensures t.grid == s.grid && t.nextId == s.nextId && t.score == s.score
    ensures t.isGameOver == s.isGameOver && t.highScore == s.highScore
    // ignored input changes nothing at all
    ensures Ignores(s, index) ==> t == s
    // tapping a selected apple removes exactly that position from the selection
    ensures !Ignores(s, index) && index in s.selectedIndices ==>
              && (forall j :: j in t.selectedIndices <==> j in s.selectedIndices && j != index)
              && t.selectedIndices == [] && !t.isProcessing && t.pending == s.pending
    // otherwise the position is appended
    ensures !Ignores(s, index) && index !in s.selectedIndices ==>
              t.selectedIndices == s.selectedIndices + [index]
    // the first pick leaves the lock open and schedules nothing
    ensures !Ignores(s, index) && s.selectedIndices == [] ==>
              !t.isProcessing && t.pending == s.pending
    // the second pick takes the lock and schedules the pair with its sum as of now
    ensures !Ignores(s, index) && index !in s.selectedIndices && |s.selectedIndices| == 1 ==>
              var first := s.selectedIndices[0];
              && t.isProcessing
              && t.pending == s.pending + [Pending(first, index, s.grid[first].value + s.grid[index].value)]
  {
    if Ignores(s, index) then s
    else if index in s.selectedIndices then
      s.(selectedIndices := Without(s.selectedIndices, index))
    else
      var nextSelection := s.selectedIndices + [index];
      if |nextSelection| == 2 then
        var firstIdx, secondIdx := nextSelection[0], nextSelection[1];
        var sum := s.grid[firstIdx].value + s.grid[secondIdx].value;
        s.(isProcessing := true, selectedIndices := nextSelection,
           pending := s.pending + [Pending(firstIdx, secondIdx, sum)])
      else
        s.(selectedIndices := nextSelection)
  }

  /** The oldest scheduled timer fires. A pair whose captured sum is 9 scores
      2 points and has both apples replaced; in every case the selection is
      cleared and the lock released. */
  function AfterResolve(s: Session, draw1: nat, draw2: nat): (t: Session)
    requires Inv(s) && s.pending != [] && draw1 < 9 && draw2 < 9
    ensures Inv(t)
    ensures t.pending == s.pending[1..]
    ensures t.selectedIndices == [] && !t.isProcessing
    ensures t.score == s.score + (if s.pending[0].sum == 9 then 2 else 0)
    // only the two picked positions can change, and on a match both get apples never seen before
    ensures |t.grid| == |s.grid|
    ensures forall k :: 0 <= k < |s.grid| && k != s.pending[0].first && k != s.pending[0].second ==>
              t.grid[k] == s.grid[k]
    ensures s.pending[0].sum == 9 ==>
              forall k :: 0 <= k < |s.grid| ==>
                t.grid[s.pending[0].first].id != s.grid[k].id && t.grid[s.pending[0].second].id != s.grid[k].id
    ensures s.pending[0].sum != 9 ==> t.grid == s.grid
    // the score effect has run on the new score
    ensures t.highScore == if t.score > s.highScore then t.score else s.highScore
    ensures t.isGameOver <==> s.isGameOver || t.score >= TargetScore
  {
    var p := s.pending[0];
    var fired := s.(pending := s.pending[1..]);
    if p.sum == 9 then
      var scored := fired.(score := fired.score + 2,
                           grid := ReplacePair(fired.grid, p.first, p.second, fired.nextId, draw1, draw2),
                           nextId := fired.nextId + 2,
                           selectedIndices := [], isProcessing := false);
      AfterScoreChange(scored)
    else
      fired.(selectedIndices := [], isProcessing := false)
  }

  /** "Play again": a fresh board, score, selection, lock and game-over flag
      back to their initial values. The high score is kept, and timers that
      were already scheduled are NOT cancelled. */
  function AfterReset(s: Session, draws: seq<nat>): (t: Session)
    requires Inv(s) && |draws| == TotalCells && ValidDraws(draws)
    ensures Inv(t)
    ensures t.score == 0 && t.selectedIndices == [] && !t.isProcessing && !t.isGameOver
    ensures t.highScore == s.highScore
    ensures t.pending == s.pending
    ensures forall j, k :: 0 <= j < |t.grid| && 0 <= k < |s.grid| ==> t.grid[j].id != s.grid[k].id
    // the score effect that follows the reset has nothing left to do
    ensures AfterScoreChange(t) == t
  {
    s.(grid := InitialGrid(s.nextId, draws), nextId := s.nextId + TotalCells,
       score := 0, selectedIndices := [], isProcessing := false, isGameOver := false)
  }

  /** The events the environment can deliver to the controller. */
  datatype Event =
    | Tap(index: int)
    | TimerFires(draw1: nat, draw2: nat)
    | PlayAgain(draws: seq<nat>)

  /** Whether the environment can deliver `e` in state `s`: a tap hits a
      rendered apple, a timer fires only when one is scheduled, and fresh
      apples come from valid draws. */
  predicate Enabled(s: Session, e: Event)
  {
    match e
    case Tap(index) => 0 <= index < |s.grid|
    case TimerFires(draw1, draw2) => s.pending != [] && draw1 < 9 && draw2 < 9
    case PlayAgain(draws) => |draws| == TotalCells && ValidDraws(draws)
  }

  /** One event; an event the environment cannot deliver leaves the state alone. */
  function Step(s: Session, e: Event): (t: Session)
    requires Inv(s)
    ensures Inv(t)
    ensures t.highScore >= s.highScore
    ensures !e.PlayAgain? ==> t.score >= s.score && (t.score - s.score) % 2 == 0
    ensures !e.PlayAgain? && s.isGameOver ==> t.isGameOver
  {
    if !Enabled(s, e) then s
    else
      match e
      case Tap(index) => AfterClick(s, index)
      case TimerFires(draw1, draw2) => AfterResolve(s, draw1, draw2)
      case PlayAgain(draws) => AfterReset(s, draws)
  }

  /** A sequence of events, in order. */
  function Run(s: Session, events: seq<Event>): (t: Session)
    requires Inv(s)
    ensures Inv(t)
    decreases |events|
  {
    if events == [] then s else Run(Step(s, events[0]), events[1..])
  }
}
