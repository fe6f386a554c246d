# Apple Sum 9: the match controller, modelled and verified in Dafny

The game shows an 8x8 board of apples, each with a value from 1 to 9. The
player taps two apples. If their values add up to 9, the pair scores 2
points and both apples are replaced by fresh ones, so the board stays full.
Reaching 30 points wins the game. A high score survives "play again".

This project models the game logic of the `App` component. That is the
board model and the match controller. The rendering is not modelled.

- `board.dfy`, module `Board`: the `Apple` record and the board-building
  functions: `GenerateApple`, `InitialGrid`, and `ReplacePair` (the copy of
  the board with both apples of a pair replaced).
- `transitions.dfy`, module `Transitions`: the controller's state as a
  value (`Session`) and the state invariant `Inv`. One function per event
  gives the state after it:
  - `AfterClick` is a tap;
  - `AfterResolve` is the 500 ms timer firing;
  - `AfterReset` is "play again";
  - `AfterScoreChange` is the score effect;
  - `Initial` is the mount.
  
  `Step` and `Run` replay a sequence of events.
- `controller.dfy`, module `MatchController`: class `App`. It has the
  component's state fields (`grid`, `score`, `selectedIndices`,
  `isProcessing`, `highScore`, `isGameOver`), plus `pending` for the
  scheduled timers and `nextId` for fresh apple ids. Its methods update these
  fields the way the handlers do. Each method is proved to move `Snapshot()`
  to the state that the matching `Transitions` function prescribes.
- `properties.dfy`, module `Properties`: properties of whole runs, and the
  game's scenarios replayed on the model.

Abstractions:
- A random value is a parameter `draw < 9`. It stands for
  `Math.floor(Math.random() * 9)`, so the apple's value is `draw + 1`.
- Apple ids come from a counter, `nextId`. This makes every new apple's id
  provably different from every id already on the board.
- A `setTimeout` callback is a `Pending` entry: the two positions and the
  sum captured at the second tap. Entries sit in a queue, and the queue fires
  in scheduling order, because all timers have the same delay.

The lock suggests that at most one resolution can be pending at a time.
The code does not guarantee this, and the model follows the code:
- `resetGame` (App.tsx:84-90) clears `isProcessing` without cancelling the
  timer scheduled at App.tsx:64-78. So after a reset the player can schedule
  a second pair while the first is still pending.
- When the old timer fires, it clears whatever the player has selected
  since and releases the lock. If the old pair's captured sum was 9, it
  also adds 2 to the new game's score and replaces the two old positions on
  the new board.
- `pending` is therefore a queue, not an optional single entry.
- `Properties.RunKeepsOrderly` proves that steps without a reset keep the
  one-pending discipline. `Properties.OrderlyUntilFirstReset` proves it holds
  from the start of the game until the first reset. `Properties.ResetWhileProcessingLeavesTimer` and
  `Properties.StaleMatchScoresAfterReset` show how a reset breaks it.
- The code's random id strings are not guaranteed to be unique. The model's
  counter makes them unique.

## Model

| member | source | states |
|---|---|---|
| `Board.GenerateApple` | App.tsx:10-14 | a new apple has the given id, a value in 1..9 and is not matched |
| `Board.InitialGrid` | App.tsx:16-18 | the starting board has exactly 8x8 = 64 apples, all with values in 1..9, none matched, with pairwise distinct ids drawn from a fresh range |
| `Board.ReplacePair` | App.tsx:68-74 | only the two picked positions change, both get fresh ids and values in 1..9, the length is kept, and a well-formed board stays well formed |
| `Transitions.Without` | App.tsx:51 | the filtered selection holds exactly the old entries other than the tapped index; it is strictly shorter when that index was present, equal to the old selection when it was absent, and keeps entries distinct |
| `Transitions.WithoutCutsOut` | App.tsx:51 | a single occurrence of the tapped index is cut out where it stands; the entries before and after it keep their order |
| `Transitions.AfterScoreChange` | App.tsx:34-44 | afterwards the high score is the larger of the old high score and the score; the game is over iff it already was or the score reached 30; nothing else changes |
| `Transitions.Initial` | App.tsx:21-32 | the mounted game satisfies the invariant: score 0, nothing selected or scheduled, unlocked, not over; the high score is the stored value or 0, whichever is larger |
| `Transitions.AfterClick` | App.tsx:46-82 | a tap never changes board, score, high score or game-over; ignored input (locked, matched, game over) changes nothing; re-tapping the selected apple empties the selection; otherwise the index is appended; the first pick leaves the lock open, the second takes it and schedules the pair with the sum of the two values at tap time; the invariant is kept |
| `Transitions.AfterResolve` | App.tsx:64-78 | the oldest timer is consumed; a captured sum of 9 adds exactly 2 points and gives both positions apples whose ids differ from every id on the board before, any other sum leaves board and score alone; no other position changes; selection empty and lock released; high score and game-over settled by the score effect; the invariant is kept |
| `Transitions.AfterReset` | App.tsx:84-90 | score 0, empty selection, unlocked, not over, a board of 64 all-new apples, high score unchanged, scheduled timers still scheduled; the score effect that follows has nothing to do; the invariant is kept |
| `Transitions.Step` | App.tsx:46-90 | every deliverable event keeps the invariant and never lowers the high score; apart from a reset it never lowers the score, changes it only by an even amount, and never clears game-over |
| `Transitions.Run` | App.tsx:46-90 | every state reached by any sequence of events satisfies the invariant: 64 well-formed apples with distinct ids, a selection of at most two distinct valid positions, the lock held exactly while two are selected, an even non-negative score not above the high score, game over from 30 points on |
| `MatchController.App.constructor` | App.tsx:21-32 | the mounted component's fields equal `Initial` of the stored high score |
| `MatchController.App.ScoreEffect` | App.tsx:34-44 | only the high score and the game-over flag may change; the fields after the effect are `AfterScoreChange` of the fields before |
| `MatchController.App.HandleAppleClick` | App.tsx:46-82 | only the selection, the lock and the timer queue may change; the fields after the handler are `AfterClick` of the fields before, and the invariant is kept |
| `MatchController.App.ResolvePending` | App.tsx:64-78 | the fields after the timer body are `AfterResolve` of the fields before, and the invariant is kept |
| `MatchController.App.ResetGame` | App.tsx:84-90 | the high score and the timer queue are not touched; the fields after the reset are `AfterReset` of the fields before, and the invariant is kept |
| `Properties.ScoreEffectSettles` | App.tsx:34-44 | running the score effect a second time (as the changed high score triggers it) changes nothing |
| `Properties.HighScoreNeverDecreases` | App.tsx:35-38 | over any run, resets included, the high score never decreases |
| `Properties.ScoreNeverFallsWithoutReset` | App.tsx:67 | over any run without a reset the score never decreases |
| `Properties.GameOverIsSticky` | App.tsx:41-43 | once the game is over it stays over through any run without a reset |
| `Properties.TapsIgnoredAfterGameOver` | App.tsx:47 | once the game is over, any sequence of taps leaves the whole state unchanged |
| `Properties.StepKeepsOrderly` | App.tsx:57-78 | without a reset, one step keeps at most one resolution scheduled, exactly while the lock is held, and that resolution is for the two selected positions with the sum of their current values |
| `Properties.RunKeepsOrderly` | App.tsx:57-78 | the same holds over any run without a reset, from any state where it holds |
| `Properties.OrderlyUntilFirstReset` | App.tsx:21-26 | from the mounted game, every state before the first reset has at most one scheduled resolution, exactly while locked, and it is the one for the selected pair |
| `Properties.PairResolution` | App.tsx:55-78 | for any two distinct apples picked from an idle board and resolved: the score rises by 2 exactly when their values add up to 9, and then both positions get apples whose ids differ from every id on the board, otherwise the board is unchanged; no other position changes; selection empty, lock open, no timer left |
| `Properties.ResetWhileProcessingLeavesTimer` | App.tsx:84-90 | a reset while a pair is being resolved releases the lock but leaves its timer scheduled |
| `Properties.StaleMatchScoresAfterReset` | App.tsx:64-78 | a matching pair scheduled before a reset, when its timer fires, gives the fresh game a score of 2 |
| `Properties.ScenarioMatchingPair` | App.tsx:55-78 | on a board starting 4, 5: tap 0 selects [0] unlocked, tap 1 selects [0, 1] locked, the timer scores 2, clears selection and lock and puts new apples at 0 and 1 |
| `Properties.ScenarioStaleTimer` | App.tsx:84-90 | tap 0, tap 1 on a board starting 4, 5, then "play again", then the timer: the new game has 2 points |
| `Properties.ScenarioDeselect` | App.tsx:50-52 | tapping apple 5 twice selects it and then empties the selection, with the lock still open |
| `Properties.ScenarioWinningPair` | App.tsx:41-43 | at 28 points a matching pair brings the score to 30 and ends the game in the same update |

## Left out

- Rendering: the JSX tree, the `Apple` button component, CSS classes and
  the progress-bar width, which is floating-point arithmetic (App.tsx:92-184,
  components/Apple.tsx).
- Persistence: reading and writing `localStorage` (App.tsx:29-32, 37). The
  stored high score enters as an already-parsed `Option<int>`. A stored
  string that `parseInt` turns into `NaN` is not modelled. The write that
  accompanies every raise of the high score is not modelled either; it
  happens exactly when `AfterScoreChange` raises `highScore`.
- Randomness: `Math.random` for values and ids (App.tsx:11-12) is replaced by
  draws passed as parameters and an id counter.
- Timing: the 500 ms delay and React's scheduling of state updates and
  effects. Each handler is modelled as seeing the state committed by the
  previous event. Timers fire in the order they were scheduled. The effect
  is run where the score changes.
- `MatchController.App.ResetGame`: does not run the score effect after the
  reset. `Transitions.AfterReset` proves the effect would change nothing
  there.
- The unused `GameState` interface (types.ts:8-13).
