/**
 The board of the apple-sum-9 game: an 8x8 grid of apples, each carrying a
 value from 1 to 9. The board is a plain value: the controller replaces it
 with a new sequence rather than mutating it.

 Randomness is abstracted: a `draw` is the integer `Math.floor(Math.random() * 9)`,
 so it lies in 0..8, and apple ids come from a counter instead of a random string.
 */
module Board {

  const GridSize: nat := 8
  const TotalCells: nat := GridSize * GridSize

  /** One tile of the board. `isMatched` is part of the record but no
      operation of the game ever sets it. */
  datatype Apple = Apple(id: nat, value: int, isMatched: bool)

  /** Every draw is a possible outcome of `Math.floor(Math.random() * 9)`. */
  predicate ValidDraws(draws: seq<nat>)
  {
    forall k :: 0 <= k < |draws| ==> draws[k] < 9
  }

  /** A board as the game keeps it: 64 apples, each with a value in 1..9,
      none matched, with pairwise distinct ids all below `idBound`. */
  predicate WellFormedGrid(g: seq<Apple>, idBound: nat)
  {
    && |g| == TotalCells
    && (forall k :: 0 <= k < |g| ==> 1 <= g[k].value <= 9 && !g[k].isMatched && g[k].id < idBound)
    && (forall j, k :: 0 <= j < k < |g| ==> g[j].id != g[k].id)
  }

  /** A fresh apple: the value is the draw shifted into 1..9, and it is not matched. */
  function GenerateApple(id: nat, draw: nat): (a: Apple)
    requires draw < 9
    ensures a.id == id
    ensures 1 <= a.value <= 9 && !a.isMatched
  {
    Apple(id, draw + 1, false)
  }

  /** The starting board: 64 independently generated apples, whose ids are
      taken from `firstId` upwards. */
  function InitialGrid(firstId: nat, draws: seq<nat>): (g: seq<Apple>)
    requires |draws| == TotalCells && ValidDraws(draws)
    ensures WellFormedGrid(g, firstId + TotalCells)
    ensures forall k :: 0 <= k < |g| ==> firstId <= g[k].id
  {
    seq(TotalCells, k requires 0 <= k < TotalCells => GenerateApple(firstId + k, draws[k]))
  }

  /** The board after a successful pair: a copy of `g` in which exactly the
      positions `first` and `second` hold fresh apples with ids `freshId` and
      `freshId + 1`; a well-formed board stays well formed. */
  function ReplacePair(g: seq<Apple>, first: int, second: int, freshId: nat, draw1: nat, draw2: nat): (r: seq<Apple>)
    requires 0 <= first < |g| && 0 <= second < |g| && first != second
    requires draw1 < 9 && draw2 < 9
    ensures |r| == |g|
    ensures forall k :: 0 <= k < |g| && k != first && k != second ==> r[k] == g[k]
    ensures r[first].id == freshId && r[second].id == freshId + 1
    ensures 1 <= r[first].value <= 9 && !r[first].isMatched
    ensures 1 <= r[second].value <= 9 && !r[second].isMatched
    ensures WellFormedGrid(g, freshId) ==> WellFormedGrid(r, freshId + 2)
  {
    g[first := GenerateApple(freshId, draw1)][second := GenerateApple(freshId + 1, draw2)]
  }
}
