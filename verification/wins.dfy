/**
 * The end-of-game tests of the board: `player_road_win`, `game_flat_win`
 * and `player_flat_win`. Each is a method that reads the board buffer and
 * is proved equal to a function of the stacks; what the game promises
 * about roads and flat counts is proved about those functions.
 */
module Wins {
  import opened Stones
  import opened Rules
  import opened Boards

  // ---------------------------------------------------------------- roads

  /** `road_piece(x, y) and (white(x, y) == player_color)`. */
  predicate RoadFor(s: Stack, c: bool) {
    RoadPiece(s) && White(s) == c
  }

  /**
   * Cell j of lane i. The first sweep of `player_road_win` works column by
   * column (lane i is x = i), the second row by row (lane i is y = i).
   */
  function LaneCell(t: bool, i: int, j: int): (int, int) {
    if t then (j, i) else (i, j)
  }

  predicate RoadOn(g: Grid, c: bool, t: bool, i: int, j: int)
    requires IsGrid(g) && 0 <= i < N && 0 <= j < N
  {
    RoadFor(Cell(g, LaneCell(t, i, j)), c)
  }

  /**
   * `reach` for cell j of lane i after the straight pass: a road cell of
   * the first lane, or a road cell next to a reached cell of the previous lane.
   */
  predicate Entry(g: Grid, c: bool, t: bool, i: int, j: int)
    requires IsGrid(g) && 0 <= i < N && 0 <= j < N
    decreases i, 0, 0
  {
    if i == 0 then RoadOn(g, c, t, 0, j)
    else Reach(g, c, t, i - 1, j) && RoadOn(g, c, t, i, j)
  }

  /** `reach` after the pass towards higher j: a road cell next to a reached cell below it. */
  predicate Up(g: Grid, c: bool, t: bool, i: int, j: int)
    requires IsGrid(g) && 0 <= i < N && 0 <= j < N
    decreases i, 1, j
  {
    if j == 0 then Entry(g, c, t, i, 0)
    else Entry(g, c, t, i, j) || (Up(g, c, t, i, j - 1) && RoadOn(g, c, t, i, j))
  }

  /** `reach` after the pass towards lower j. */
  predicate Down(g: Grid, c: bool, t: bool, i: int, j: int)
    requires IsGrid(g) && 0 <= i < N && 0 <= j < N
    decreases i, 2, N - j
  {
    if j == N - 1 then Up(g, c, t, i, N - 1)
    else Up(g, c, t, i, j) || (Down(g, c, t, i, j + 1) && RoadOn(g, c, t, i, j))
  }

  /** `reach[i][j]` once lane i is done; the first lane gets the straight pass only. */
  predicate Reach(g: Grid, c: bool, t: bool, i: int, j: int)
    requires IsGrid(g) && 0 <= i < N && 0 <= j < N
    decreases i, 3, 0
  {
    if i == 0 then Entry(g, c, t, 0, j) else Down(g, c, t, i, j)
  }

  /** `reach[N-1][j]`: cell j of the last lane is reached. */
  predicate Final(g: Grid, c: bool, t: bool, j: int)
    requires IsGrid(g) && 0 <= j < N
  {
    Reach(g, c, t, N - 1, j)
  }

  /** Some cell of the last lane is reached. */
  predicate LastLaneReached(g: Grid, c: bool, t: bool)
    requires IsGrid(g)
  {
    exists j :: 0 <= j < N && Final(g, c, t, j)
  }

  /** `player_road_win`: the column sweep or the row sweep reaches the far edge. */
  predicate RoadWin(g: Grid, c: bool)
    requires IsGrid(g)
  {
    LastLaneReached(g, c, false) || LastLaneReached(g, c, true)
  }

  /** Two cells that share a side. */
  predicate Adjacent(a: (int, int), b: (int, int)) {
    (a.0 == b.0 && (a.1 - b.1 == 1 || b.1 - a.1 == 1)) ||
    (a.1 == b.1 && (a.0 - b.0 == 1 || b.0 - a.0 == 1))
  }

  /** A chain of road cells of colour c, each next to the one before. */
  predicate Chain(g: Grid, c: bool, p: seq<(int, int)>)
    requires IsGrid(g)
  {
    && |p| > 0
    && (forall k :: 0 <= k < |p| ==> OnBoard(p[k]) && RoadFor(Cell(g, p[k]), c))
    && (forall k :: 0 <= k < |p| - 1 ==> Adjacent(p[k], p[k + 1]))
  }

  /** A road: a chain from the column x = 0 to the column x = N - 1, or from the row y = 0 to the row y = N - 1. */
  predicate Road(g: Grid, c: bool, p: seq<(int, int)>)
    requires IsGrid(g)
  {
    && Chain(g, c, p)
    && ((p[0].0 == 0 && p[|p| - 1].0 == N - 1) || (p[0].1 == 0 && p[|p| - 1].1 == N - 1))
  }

  lemma ChainExtend(g: Grid, c: bool, p: seq<(int, int)>, q: (int, int))
    requires IsGrid(g) && Chain(g, c, p) && OnBoard(q) && RoadFor(Cell(g, q), c)
    requires Adjacent(p[|p| - 1], q)
    ensures Chain(g, c, p + [q]) && (p + [q])[0] == p[0] && (p + [q])[|p|] == q
  {
  }

  /** The lane coordinate of a cell: x for the column sweep, y for the row sweep. */
  function LaneOf(t: bool, q: (int, int)): int {
    if t then q.1 else q.0
  }

  /**
   * Every cell the sweep marks is the end of a chain that starts in the
   * first lane. `Entry`, `Up` and `Down` each extend a chain that ends on
   * the cell before.
   */
  lemma {:induction false} ReachChain(g: Grid, c: bool, t: bool, i: int, j: int) returns (p: seq<(int, int)>)
    requires IsGrid(g) && 0 <= i < N && 0 <= j < N && Reach(g, c, t, i, j)
    ensures Chain(g, c, p) && LaneOf(t, p[0]) == 0 && p[|p| - 1] == LaneCell(t, i, j)
    decreases i, 3, 0
  {
    if i == 0 {
      p := EntryChain(g, c, t, i, j);
    } else {
      p := DownChain(g, c, t, i, j);
    }
  }

  lemma {:induction false} EntryChain(g: Grid, c: bool, t: bool, i: int, j: int) returns (p: seq<(int, int)>)
    requires IsGrid(g) && 0 <= i < N && 0 <= j < N && Entry(g, c, t, i, j)
    ensures Chain(g, c, p) && LaneOf(t, p[0]) == 0 && p[|p| - 1] == LaneCell(t, i, j)
    decreases i, 0, 0
  {
    if i == 0 {
      p := [LaneCell(t, 0, j)];
    } else {
      var p0 := ReachChain(g, c, t, i - 1, j);
      ChainExtend(g, c, p0, LaneCell(t, i, j));
      p := p0 + [LaneCell(t, i, j)];
    }
  }

  lemma {:induction false} UpChain(g: Grid, c: bool, t: bool, i: int, j: int) returns (p: seq<(int, int)>)
    requires IsGrid(g) && 0 <= i < N && 0 <= j < N && Up(g, c, t, i, j)
    ensures Chain(g, c, p) && LaneOf(t, p[0]) == 0 && p[|p| - 1] == LaneCell(t, i, j)
    decreases i, 1, j
  {
    if j == 0 || Entry(g, c, t, i, j) {
      p := EntryChain(g, c, t, i, j);
    } else {
      var p0 := UpChain(g, c, t, i, j - 1);
      ChainExtend(g, c, p0, LaneCell(t, i, j));
      p := p0 + [LaneCell(t, i, j)];
    }
  }

  lemma {:induction false} DownChain(g: Grid, c: bool, t: bool, i: int, j: int) returns (p: seq<(int, int)>)
    requires IsGrid(g) && 0 <= i < N && 0 <= j < N && Down(g, c, t, i, j)
    ensures Chain(g, c, p) && LaneOf(t, p[0]) == 0 && p[|p| - 1] == LaneCell(t, i, j)
    decreases i, 2, N - j
  {
    if j == N - 1 || Up(g, c, t, i, j) {
      p := UpChain(g, c, t, i, j);
    } else {
      var p0 := DownChain(g, c, t, i, j + 1);
      ChainExtend(g, c, p0, LaneCell(t, i, j));
      p := p0 + [LaneCell(t, i, j)];
    }
  }

  /** Road soundness: when `player_road_win(c)` holds, colour c has a road between opposite edges. */
  lemma RoadWinSound(g: Grid, c: bool)
    requires IsGrid(g) && RoadWin(g, c)
    ensures exists p :: Road(g, c, p)
  {
    var t := !LastLaneReached(g, c, false);
    var j :| 0 <= j < N && Final(g, c, t, j);
    var p := ReachChain(g, c, t, N - 1, j);
    assert Road(g, c, p);
  }

  /** The straight pass of lane i = k + 1: `reach[i][j] |= reach[k][j] and road`. */
  method StraightPass(b: Board, c: bool, t: bool, reach: array2<bool>, k: int, i: int)
    requires b.Valid() && reach.Length0 == N && reach.Length1 == N && 0 <= k && i == k + 1 < N
    requires forall j :: 0 <= j < N ==> reach[k, j] == Reach(b.cells, c, t, k, j)
    requires forall j :: 0 <= j < N ==> !reach[i, j]
    modifies reach
    ensures forall j :: 0 <= j < N ==> reach[i, j] == Entry(b.cells, c, t, i, j)
    ensures forall k, j :: 0 <= k < N && 0 <= j < N && k != i ==> reach[k, j] == old(reach[k, j])
  {
    for j := 0 to N
      invariant forall l :: 0 <= l < j ==> reach[i, l] == Entry(b.cells, c, t, i, l)
      invariant forall l :: j <= l < N ==> !reach[i, l]
      invariant forall k, l :: 0 <= k < N && 0 <= l < N && k != i ==> reach[k, l] == old(reach[k, l])
    {
      var s := if t then b.grid[j, i] else b.grid[i, j];
      reach[i, j] := reach[i, j] || (reach[k, j] && RoadFor(s, c));
    }
  }

  /** `for (y = 1; y < N; ++y) reach[x][y] |= reach[x][y-1] and road`. */
  method UpPass(b: Board, c: bool, t: bool, reach: array2<bool>, i: int)
    requires b.Valid() && reach.Length0 == N && reach.Length1 == N && 0 <= i < N
    requires forall j :: 0 <= j < N ==> reach[i, j] == Entry(b.cells, c, t, i, j)
    modifies reach
    ensures forall j :: 0 <= j < N ==> reach[i, j] == Up(b.cells, c, t, i, j)
    ensures forall k, j :: 0 <= k < N && 0 <= j < N && k != i ==> reach[k, j] == old(reach[k, j])
  {
    for j := 1 to N
      invariant forall l :: 0 <= l < j ==> reach[i, l] == Up(b.cells, c, t, i, l)
      invariant forall l :: j <= l < N ==> reach[i, l] == Entry(b.cells, c, t, i, l)
      invariant forall k, l :: 0 <= k < N && 0 <= l < N && k != i ==> reach[k, l] == old(reach[k, l])
    {
      var s := if t then b.grid[j, i] else b.grid[i, j];
      reach[i, j] := reach[i, j] || (reach[i, j - 1] && RoadFor(s, c));
    }
  }

  /** `for (y = N-2; y >= 0; --y) reach[x][y] |= reach[x][y+1] and road`. */
  method DownPass(b: Board, c: bool, t: bool, reach: array2<bool>, i: int)
    requires b.Valid() && reach.Length0 == N && reach.Length1 == N && 0 <= i < N
    requires forall j :: 0 <= j < N ==> reach[i, j] == Up(b.cells, c, t, i, j)
    modifies reach
    ensures forall j :: 0 <= j < N ==> reach[i, j] == Down(b.cells, c, t, i, j)
    ensures forall k, j :: 0 <= k < N && 0 <= j < N && k != i ==> reach[k, j] == old(reach[k, j])
  {
    var j := N - 1;
    while j > 0
      invariant 0 <= j <= N - 1
      invariant forall l :: j <= l < N ==> reach[i, l] == Down(b.cells, c, t, i, l)
      invariant forall l :: 0 <= l < j ==> reach[i, l] == Up(b.cells, c, t, i, l)
      invariant forall k, l :: 0 <= k < N && 0 <= l < N && k != i ==> reach[k, l] == old(reach[k, l])
    {
      j := j - 1;
      var s := if t then b.grid[j, i] else b.grid[i, j];
      reach[i, j] := reach[i, j] || (reach[i, j + 1] && RoadFor(s, c));
    }
  }

  /**
   * One of the two sweeps of `player_road_win` over a fresh `reach`
   * buffer, lane by lane, and whether it reaches the last lane. The
   * buffer is indexed lane first in both sweeps.
   */
  method Sweep(b: Board, c: bool, t: bool) returns (found: bool)
    requires b.Valid()
    ensures found == LastLaneReached(b.cells, c, t)
  {
    var reach := new bool[N, N]((i, j) => false);
    for j := 0 to N
      invariant forall l :: 0 <= l < j ==> reach[0, l] == Reach(b.cells, c, t, 0, l)
      invariant forall k, l :: 0 <= k < N && 0 <= l < N && (k > 0 || l >= j) ==> !reach[k, l]
    {
      var s := if t then b.grid[j, 0] else b.grid[0, j];
      reach[0, j] := RoadFor(s, c);
    }
    var k := 0;
    while k < N - 1
      invariant 0 <= k <= N - 1
      invariant forall l :: 0 <= l < N ==> reach[k, l] == Reach(b.cells, c, t, k, l)
      invariant forall a, l :: k < a < N && 0 <= l < N ==> !reach[a, l]
    {
      StraightPass(b, c, t, reach, k, k + 1);
      UpPass(b, c, t, reach, k + 1);
      DownPass(b, c, t, reach, k + 1);
      k := k + 1;
    }
    found := false;
    for j := 0 to N
      invariant found == exists l :: 0 <= l < j && Final(b.cells, c, t, l)
    {
      assert reach[N - 1, j] == Final(b.cells, c, t, j);
      found := found || reach[N - 1, j];
    }
  }

  /** `player_road_win`: the column sweep, then the row sweep. */
  method PlayerRoadWin(b: Board, c: bool) returns (win: bool)
    requires b.Valid()
    ensures win == RoadWin(b.cells, c)
  {
    win := Sweep(b, c, false);
    if !win {
      win := Sweep(b, c, true);
    }
  }

  // ---------------------------------------------------------------- flats

  /** No cell of the board is empty. */
  predicate Full(g: Grid)
    requires IsGrid(g)
  {
    forall x, y :: 0 <= x < N && 0 <= y < N ==> !Empty(g[x][y])
  }

  /** `game_flat_win`: scan the cells and stop at the first empty one. */
  method GameFlatWin(b: Board) returns (full: bool)
    requires b.Valid()
    ensures full == Full(b.cells)
  {
    for x := 0 to N
      invariant forall a, y :: 0 <= a < x && 0 <= y < N ==> !Empty(b.cells[a][y])
    {
      for y := 0 to N
        invariant forall a, l :: ((0 <= a < x && 0 <= l < N) || (a == x && 0 <= l < y)) ==> !Empty(b.cells[a][l])
      {
        if |b.grid[x, y]| == 0 {
          return false;
        }
      }
    }
    return true;
  }

  /** 1 when the top of s is of colour `white`, else 0; an empty cell counts for neither. */
  function TopOf(s: Stack, white: bool): int {
    if (if white then White(s) else Black(s)) then 1 else 0
  }

  /** The cells (x, 0) .. (x, y - 1) whose top is of colour `white`. */
  function ColumnTops(g: Grid, white: bool, x: int, y: int): int
    requires IsGrid(g) && 0 <= x < N && 0 <= y <= N
  {
    if y == 0 then 0 else ColumnTops(g, white, x, y - 1) + TopOf(g[x][y - 1], white)
  }

  /** The cells of the columns 0 .. x - 1 whose top is of colour `white`. */
  function Tops(g: Grid, white: bool, x: int): int
    requires IsGrid(g) && 0 <= x <= N
  {
    if x == 0 then 0 else Tops(g, white, x - 1) + ColumnTops(g, white, x - 1, N)
  }

  /** `white_squares` or `black_squares`: the cells controlled by one colour. */
  function TopCount(g: Grid, white: bool): int
    requires IsGrid(g)
  {
    Tops(g, white, N)
  }

  /**
   * `player_flat_win`: more controlled cells wins; on equal counts, the
   * side with more flats left in reserve wins; on a full tie both sides do.
   */
  predicate FlatWin(p: Position, c: bool)
    requires ValidPos(p)
  {
    var w, k := TopCount(p.cells, true), TopCount(p.cells, false);
    if k != w then (k < w) == c
    else if p.blackFlats != p.whiteFlats then (p.blackFlats < p.whiteFlats) == c
    else true
  }

  /** `player_flat_win`: count the controlled cells of each colour, then compare. */
  method PlayerFlatWin(b: Board, c: bool) returns (win: bool)
    requires b.Valid()
    ensures win == FlatWin(b.Pos(), c)
  {
    var blackSquares, whiteSquares := 0, 0;
    for x := 0 to N
      invariant whiteSquares == Tops(b.cells, true, x) && blackSquares == Tops(b.cells, false, x)
    {
      for y := 0 to N
        invariant whiteSquares == Tops(b.cells, true, x) + ColumnTops(b.cells, true, x, y)
        invariant blackSquares == Tops(b.cells, false, x) + ColumnTops(b.cells, false, x, y)
      {
        var s := b.grid[x, y];
        if |s| > 0 && IsWhiteStone(s[|s| - 1]) {
          whiteSquares := whiteSquares + 1;
        } else if |s| > 0 && !IsWhiteStone(s[|s| - 1]) {
          blackSquares := blackSquares + 1;
        }
      }
    }
    if blackSquares != whiteSquares {
      win := (blackSquares < whiteSquares) == c;
    } else if b.blackFlats != b.whiteFlats {
      win := (b.blackFlats < b.whiteFlats) == c;
    } else {
      win := true;
    }
  }

  /** `player_flat_win` names a winner, or both on a tie: never neither. */
  lemma FlatWinSomeone(p: Position)
    requires ValidPos(p)
    ensures FlatWin(p, true) || FlatWin(p, false)
  {
  }

  /** More controlled cells wins outright. */
  lemma MoreTopsWins(p: Position, c: bool)
    requires ValidPos(p) && TopCount(p.cells, c) > TopCount(p.cells, !c)
    ensures FlatWin(p, c) && !FlatWin(p, !c)
  {
  }

  /** On equal counts the side with more flats left in reserve wins outright. */
  lemma MoreFlatsLeftWins(p: Position, c: bool)
    requires ValidPos(p) && TopCount(p.cells, c) == TopCount(p.cells, !c)
    requires FlatsLeft(p, c) > FlatsLeft(p, !c)
    ensures FlatWin(p, c) && !FlatWin(p, !c)
  {
  }

  /** Within one column, each occupied cell is controlled by exactly one of the two colours. */
  lemma {:induction false} ColumnTopsSplit(g: Grid, x: int, y: int)
    requires IsGrid(g) && 0 <= x < N && 0 <= y <= N
    requires forall l :: 0 <= l < y ==> !Empty(g[x][l])
    ensures ColumnTops(g, true, x, y) + ColumnTops(g, false, x, y) == y
  {
    if y > 0 {
      ColumnTopsSplit(g, x, y - 1);
    }
  }

  /** On a full board every cell is controlled by one of the two colours. */
  lemma {:induction false} FullTops(g: Grid, x: int)
    requires IsGrid(g) && Full(g) && 0 <= x <= N
    ensures Tops(g, true, x) + Tops(g, false, x) == x * N
  {
    if x > 0 {
      FullTops(g, x - 1);
      ColumnTopsSplit(g, x - 1, N);
    }
  }

  /**
   * On a full board (the only case `player_flat_win` is asked about) the
   * two counts add up to 25, an odd number, so they always differ: the
   * reserve tie-break never decides, and exactly one side wins.
   */
  lemma FullBoardOneWinner(p: Position)
    requires ValidPos(p) && Full(p.cells)
    ensures TopCount(p.cells, true) != TopCount(p.cells, false)
    ensures FlatWin(p, true) != FlatWin(p, false)
  {
    FullTops(p.cells, N);
  }
}
