/**
 * The move generator of `player.cpp`: `generate_placement_moves`,
 * `generate_motion_moves`, and the recursive `motion`/`cap_motion` that
 * spell out every way of dropping the stones of a slide. Each generator
 * appends to a list of move texts; each is proved to append exactly the
 * list a function below describes, and the lemmas say what is in it.
 */
module MoveGen {
  import opened Stones
  import opened Notation
  import opened Rules
  import opened SlideLaws
  import opened Boards

  // ---------------------------------------------------------------- placements

  /** The placements of one cell: S and F while flats remain, then C while a capstone remains. */
  function CellPlacements(s: Stack, x: int, y: int, flats: int, caps: int): seq<Move>
    requires InBounds(x, y)
  {
    if !Empty(s) then []
    else
      (if flats > 0 then ["S" + MakeSqr(x, y), "F" + MakeSqr(x, y)] else [])
      + (if caps > 0 then ["C" + MakeSqr(x, y)] else [])
  }

  /** The placements on the cells (x, 0) .. (x, n - 1). */
  function ColumnPlacements(p: Position, white: bool, x: int, n: int): seq<Move>
    requires ValidPos(p) && 0 <= x < N && 0 <= n <= N
  {
    if n == 0 then []
    else
      ColumnPlacements(p, white, x, n - 1)
      + CellPlacements(p.cells[x][n - 1], x, n - 1, FlatsLeft(p, white), CapsLeft(p, white))
  }

  /** The placements on the columns 0 .. m - 1. */
  function PlacementsUpTo(p: Position, white: bool, m: int): seq<Move>
    requires ValidPos(p) && 0 <= m <= N
  {
    if m == 0 then [] else PlacementsUpTo(p, white, m - 1) + ColumnPlacements(p, white, m - 1, N)
  }

  /** What `generate_placement_moves` appends. */
  function PlacementMoves(p: Position, white: bool): seq<Move>
    requires ValidPos(p)
  {
    PlacementsUpTo(p, white, N)
  }

  // ---------------------------------------------------------------- what the placements are

  /** A placement text naming cell (x, y). */
  predicate PlacementOn(m: Move, x: int, y: int) {
    |m| == 3 && IsPlacement(m) && IsSquare(m[1], m[2]) && Square(m) == (x, y)
  }

  /** The placements of one cell are exactly the legal three-letter placements on it. */
  lemma CellPlacementsExact(p: Position, white: bool, x: int, y: int, m: Move)
    requires ValidPos(p) && InBounds(x, y)
    ensures m in CellPlacements(p.cells[x][y], x, y, FlatsLeft(p, white), CapsLeft(p, white))
      <==> PlacementOn(m, x, y) && Legal(p, m, white)
  {
    var sq := MakeSqr(x, y);
    if PlacementOn(m, x, y) {
      SquareInBounds(m[1], m[2]);
      assert m == [m[0]] + sq;
    }
  }

  /** The placements of the first n cells of column x are the legal placements on them. */
  lemma {:induction false} ColumnPlacementsExact(p: Position, white: bool, x: int, n: int, m: Move)
    requires ValidPos(p) && 0 <= x < N && 0 <= n <= N
    ensures m in ColumnPlacements(p, white, x, n)
      <==> (exists y :: 0 <= y < n && PlacementOn(m, x, y)) && Legal(p, m, white)
  {
    if n > 0 {
      ColumnPlacementsExact(p, white, x, n - 1, m);
      CellPlacementsExact(p, white, x, n - 1, m);
    }
  }

  /** The placements of the first k columns are the legal placements on them. */
  lemma {:induction false} PlacementsUpToExact(p: Position, white: bool, k: int, m: Move)
    requires ValidPos(p) && 0 <= k <= N
    ensures m in PlacementsUpTo(p, white, k)
      <==> (exists x, y :: 0 <= x < k && 0 <= y < N && PlacementOn(m, x, y)) && Legal(p, m, white)
  {
    if k > 0 {
      PlacementsUpToExact(p, white, k - 1, m);
      ColumnPlacementsExact(p, white, k - 1, N, m);
    }
  }

  /**
   * `generate_placement_moves` offers exactly the legal placements: a kind
   * letter and a square naming an empty cell, S and F only while flats
   * remain, C only while a capstone remains.
   */
  lemma PlacementMovesExact(p: Position, white: bool, m: Move)
    requires ValidPos(p)
    ensures m in PlacementMoves(p, white) <==> |m| == 3 && IsPlacement(m) && Legal(p, m, white)
  {
    PlacementsUpToExact(p, white, N, m);
    if |m| == 3 && IsPlacement(m) && Legal(p, m, white) {
      SquareInBounds(m[1], m[2]);
      assert PlacementOn(m, Square(m).0, Square(m).1);
    }
  }

  /** The empty cells among (x, 0) .. (x, n - 1). */
  function EmptyInColumn(g: Grid, x: int, n: int): int
    requires IsGrid(g) && 0 <= x < N && 0 <= n <= N
  {
    if n == 0 then 0 else EmptyInColumn(g, x, n - 1) + (if Empty(g[x][n - 1]) then 1 else 0)
  }

  /** The empty cells of the columns 0 .. m - 1. */
  function EmptyCells(g: Grid, m: int): int
    requires IsGrid(g) && 0 <= m <= N
  {
    if m == 0 then 0 else EmptyCells(g, m - 1) + EmptyInColumn(g, m - 1, N)
  }

  /** The placements offered on each empty cell: two while flats remain, one more while a capstone remains. */
  function PerCell(p: Position, white: bool): int {
    (if FlatsLeft(p, white) > 0 then 2 else 0) + (if CapsLeft(p, white) > 0 then 1 else 0)
  }

  lemma {:induction false} ColumnPlacementsCount(p: Position, white: bool, x: int, n: int)
    requires ValidPos(p) && 0 <= x < N && 0 <= n <= N
    ensures |ColumnPlacements(p, white, x, n)| == PerCell(p, white) * EmptyInColumn(p.cells, x, n)
  {
    if n > 0 {
      ColumnPlacementsCount(p, white, x, n - 1);
      Distributes(PerCell(p, white), EmptyInColumn(p.cells, x, n - 1), if Empty(p.cells[x][n - 1]) then 1 else 0);
    }
  }

  /** The number of placements is the number of empty cells times the placements per cell. */
  lemma {:induction false} PlacementCount(p: Position, white: bool, m: int)
    requires ValidPos(p) && 0 <= m <= N
    ensures |PlacementsUpTo(p, white, m)| == PerCell(p, white) * EmptyCells(p.cells, m)
  {
    if m > 0 {
      PlacementCount(p, white, m - 1);
      ColumnPlacementsCount(p, white, m - 1, N);
      Distributes(PerCell(p, white), EmptyCells(p.cells, m - 1), EmptyInColumn(p.cells, m - 1, N));
    }
  }

  lemma Distributes(a: int, e: int, f: int)
    ensures a * (e + f) == a * e + a * f
  {
  }

  lemma {:induction false} FullColumnEmpty(g: Grid, x: int, n: int)
    requires IsGrid(g) && 0 <= x < N && 0 <= n <= N
    requires forall y :: 0 <= y < N ==> Empty(g[x][y])
    ensures EmptyInColumn(g, x, n) == n
  {
    if n > 0 {
      FullColumnEmpty(g, x, n - 1);
    }
  }

  lemma {:induction false} AllCellsEmpty(g: Grid, m: int)
    requires IsGrid(g) && 0 <= m <= N
    requires forall x, y :: 0 <= x < N && 0 <= y < N ==> Empty(g[x][y])
    ensures EmptyCells(g, m) == N * m
  {
    if m > 0 {
      AllCellsEmpty(g, m - 1);
      FullColumnEmpty(g, m - 1, N);
    }
  }

  /** On an empty board with a flat and a capstone in reserve, 75 placements are offered. */
  lemma EmptyBoardPlacements(p: Position, white: bool)
    requires ValidPos(p) && forall x, y :: 0 <= x < N && 0 <= y < N ==> Empty(p.cells[x][y])
    requires FlatsLeft(p, white) > 0 && CapsLeft(p, white) > 0
    ensures |PlacementMoves(p, white)| == 75
  {
    PlacementCount(p, white, N);
    AllCellsEmpty(p.cells, N);
  }

  // ---------------------------------------------------------------- slides

  /**
   * What `motion` (cap = false) and `cap_motion` (cap = true) append for a
   * slide that has `ht` stones left in hand on reaching (x, y): nothing
   * off the board or on a capstone, nothing on a wall unless a capstone
   * slide drops its last stone there; otherwise the move that drops all
   * of them here, then for h = 1 .. ht - 1 the moves that drop h here and
   * carry the rest on.
   */
  function Slides(g: Grid, d: char, x: int, y: int, prefix: string, ht: int, cap: bool): seq<Move>
    requires IsGrid(g) && 1 <= ht <= 9
    decreases ht, 1, 0
  {
    if !InBounds(x, y) || CapTop(g[x][y]) then []
    else if WallTop(g[x][y]) && (!cap || ht > 1) then []
    else [prefix + [Digit(ht)]] + Branches(g, d, x, y, prefix, ht, cap, ht)
  }

  /** The recursive calls of `motion`/`cap_motion` for h = 1 .. n - 1, in that order. */
  function Branches(g: Grid, d: char, x: int, y: int, prefix: string, ht: int, cap: bool, n: int): seq<Move>
    requires IsGrid(g) && 1 <= n <= ht <= 9
    decreases ht, 0, n
  {
    if n == 1 then []
    else
      Branches(g, d, x, y, prefix, ht, cap, n - 1)
      + Slides(g, d, NextX(x, d), NextY(y, d), prefix + [Digit(n - 1)], ht - (n - 1), cap)
  }

  /** `white_stack`/`black_stack`: the top is a flat or a wall of the mover. */
  predicate OwnStack(s: Stack, white: bool) {
    |s| > 0 && (IsFlat(Top(s)) || IsWall(Top(s))) && IsWhiteStone(Top(s)) == white
  }

  /** `white_cap`/`black_cap`: the top is the mover's capstone. */
  predicate OwnCap(s: Stack, white: bool) {
    |s| > 0 && IsCap(Top(s)) && IsWhiteStone(Top(s)) == white
  }

  /** The slides picking up h stones from (x, y) towards d. */
  function PickupSlides(g: Grid, white: bool, d: char, x: int, y: int, h: int): seq<Move>
    requires IsGrid(g) && InBounds(x, y) && 1 <= h <= N
  {
    var s := g[x][y];
    var prefix := SlidePrefix(h, x, y, d);
    if OwnStack(s, white) then Slides(g, d, NextX(x, d), NextY(y, d), prefix, h, false)
    else if OwnCap(s, white) then Slides(g, d, NextX(x, d), NextY(y, d), prefix, h, true)
    else []
  }

  /** The slides picking up 1 .. n stones from (x, y) towards d. */
  function Pickups(g: Grid, white: bool, d: char, x: int, y: int, n: int): seq<Move>
    requires IsGrid(g) && InBounds(x, y) && 0 <= n <= N
  {
    if n == 0 then [] else Pickups(g, white, d, x, y, n - 1) + PickupSlides(g, white, d, x, y, n)
  }

  /** The carry limit: at most N stones are picked up. */
  function CarryLimit(s: Stack): (n: int)
    ensures 0 <= n <= N && n <= |s| && (n == N || n == |s|)
  {
    if |s| < N then |s| else N
  }

  /** The slides from (x, y) towards d; none from an empty cell. */
  function OriginSlides(g: Grid, white: bool, d: char, x: int, y: int): seq<Move>
    requires IsGrid(g) && InBounds(x, y)
  {
    if Empty(g[x][y]) then [] else Pickups(g, white, d, x, y, CarryLimit(g[x][y]))
  }

  /** The slides towards d from the cells (x, 0) .. (x, n - 1). */
  function ColumnSlides(g: Grid, white: bool, d: char, x: int, n: int): seq<Move>
    requires IsGrid(g) && 0 <= x < N && 0 <= n <= N
  {
    if n == 0 then [] else ColumnSlides(g, white, d, x, n - 1) + OriginSlides(g, white, d, x, n - 1)
  }

  /** The slides towards d from the columns 0 .. m - 1. */
  function DirSlides(g: Grid, white: bool, d: char, m: int): seq<Move>
    requires IsGrid(g) && 0 <= m <= N
  {
    if m == 0 then [] else DirSlides(g, white, d, m - 1) + ColumnSlides(g, white, d, m - 1, N)
  }

  /** The direction order of `generate_motion_moves`. */
  const Dirs: string := "+-<>"

  /** The slides in the first i directions of `Dirs`. */
  function SlidesUpTo(g: Grid, white: bool, i: int): seq<Move>
    requires IsGrid(g) && 0 <= i <= |Dirs|
  {
    if i == 0 then [] else SlidesUpTo(g, white, i - 1) + DirSlides(g, white, Dirs[i - 1], N)
  }

  /** What `generate_motion_moves` appends. */
  function SlideMoves(g: Grid, white: bool): seq<Move>
    requires IsGrid(g)
  {
    SlidesUpTo(g, white, |Dirs|)
  }

  /** What `generate_moves` appends: the placements, then the slides. */
  function AllMoves(p: Position, white: bool): seq<Move>
    requires ValidPos(p)
  {
    PlacementMoves(p, white) + SlideMoves(p.cells, white)
  }

  // ---------------------------------------------------------------- what the slides are

  /**
   * Where a drop of n stones may land: on the board, not on a capstone, and
   * on a wall only as the last drop, of one stone, of a capstone slide.
   */
  predicate LandingOk(g: Grid, c: (int, int), cap: bool, last: bool, n: int)
    requires IsGrid(g)
  {
    OnBoard(c) && !CapTop(Cell(g, c)) && (WallTop(Cell(g, c)) ==> cap && last && n == 1)
  }

  predicate AllDigits(t: string) {
    forall i :: 0 <= i < |t| ==> IsDigit(t[i])
  }

  /**
   * The drop digits of a slide reaching (x, y) with ht stones in hand: at
   * least one, all positive, adding up to ht, the j-th landing j steps on
   * from (x, y) where a drop may land.
   */
  predicate DropsShape(g: Grid, d: char, x: int, y: int, t: string, ht: int, cap: bool)
    requires IsGrid(g)
  {
    && |t| > 0 && AllDigits(t)
    && Positive(DigitValues(t)) && Sum(DigitValues(t)) == ht
    && forall j :: 0 <= j < |t| ==> LandingOk(g, At(x, y, d, j), cap, j == |t| - 1, DigitValue(t[j]))
  }

  lemma {:induction false} SumCons(a: int, ds: seq<int>)
    ensures Sum([a] + ds) == a + Sum(ds)
    decreases |ds|
  {
    if ds != [] {
      var ds' := ds[..|ds| - 1];
      assert ([a] + ds)[..|ds|] == [a] + ds';
      SumCons(a, ds');
    }
  }

  /** The landings of a slide that drops v here, then lands where a slide from the next cell lands. */
  lemma LandingsCons(g: Grid, d: char, x: int, y: int, v: int, t: string, cap: bool)
    requires IsGrid(g) && InBounds(x, y) && !CapTop(g[x][y]) && !WallTop(g[x][y]) && 0 <= v <= 9
    requires forall j :: 0 <= j < |t| ==>
      LandingOk(g, At(NextX(x, d), NextY(y, d), d, j), cap, j == |t| - 1, DigitValue(t[j]))
    ensures var u := [Digit(v)] + t;
      forall j :: 0 <= j < |u| ==> LandingOk(g, At(x, y, d, j), cap, j == |u| - 1, DigitValue(u[j]))
  {
    var u := [Digit(v)] + t;
    forall j | 0 <= j < |u|
      ensures LandingOk(g, At(x, y, d, j), cap, j == |u| - 1, DigitValue(u[j]))
    {
      if j > 0 {
        AtNext(x, y, d, j - 1);
        assert u[j] == t[j - 1];
      }
    }
  }

  /** Dropping v here and then following a slide shaped from the next cell gives a slide shaped from here. */
  lemma DropsShapeCons(g: Grid, d: char, x: int, y: int, v: int, t: string, ht: int, cap: bool)
    requires IsGrid(g) && InBounds(x, y) && !CapTop(g[x][y]) && !WallTop(g[x][y])
    requires 1 <= v <= 9 && DropsShape(g, d, NextX(x, d), NextY(y, d), t, ht - v, cap)
    ensures DropsShape(g, d, x, y, [Digit(v)] + t, ht, cap)
  {
    DigitsCons(v, t);
    SumCons(v, DigitValues(t));
    LandingsCons(g, d, x, y, v, t, cap);
  }

  /** One more positive digit in front. */
  lemma DigitsCons(v: int, t: string)
    requires 1 <= v <= 9 && AllDigits(t) && Positive(DigitValues(t))
    ensures AllDigits([Digit(v)] + t)
    ensures DigitValues([Digit(v)] + t) == [v] + DigitValues(t)
    ensures Positive([v] + DigitValues(t))
  {
    var u := [Digit(v)] + t;
    assert DigitValues(u) == [v] + DigitValues(t);
  }

  /**
   * Every move `motion`/`cap_motion` emits is the prefix followed by drop
   * digits of the shape above: it never drops onto a capstone, and onto a
   * wall only a capstone slide's last single stone.
   */
  lemma {:induction false} SlidesShape(g: Grid, d: char, x: int, y: int, prefix: string, ht: int, cap: bool, m: Move)
    requires IsGrid(g) && 1 <= ht <= 9 && m in Slides(g, d, x, y, prefix, ht, cap)
    ensures |prefix| < |m| && m[..|prefix|] == prefix && DropsShape(g, d, x, y, m[|prefix|..], ht, cap)
    decreases ht, 1, 0
  {
    if m in Branches(g, d, x, y, prefix, ht, cap, ht) {
      var v, t := BranchesShape(g, d, x, y, prefix, ht, cap, ht, m);
      BranchShape(g, d, x, y, prefix, v, t, ht, cap);
    } else {
      SingleShape(g, d, x, y, prefix, ht, cap);
    }
  }

  /** A slide that drops v here, then follows a shaped slide from the next cell. */
  lemma BranchShape(g: Grid, d: char, x: int, y: int, prefix: string, v: int, t: string, ht: int, cap: bool)
    requires IsGrid(g) && InBounds(x, y) && !CapTop(g[x][y]) && !WallTop(g[x][y])
    requires 1 <= v <= 9 && DropsShape(g, d, NextX(x, d), NextY(y, d), t, ht - v, cap)
    ensures var m := prefix + [Digit(v)] + t;
      |prefix| < |m| && m[..|prefix|] == prefix && DropsShape(g, d, x, y, m[|prefix|..], ht, cap)
  {
    var m := prefix + [Digit(v)] + t;
    DropsShapeCons(g, d, x, y, v, t, ht, cap);
    assert m[..|prefix|] == prefix && m[|prefix|..] == [Digit(v)] + t;
  }

  /** The slide that drops every stone in hand here. */
  lemma SingleShape(g: Grid, d: char, x: int, y: int, prefix: string, ht: int, cap: bool)
    requires IsGrid(g) && InBounds(x, y) && !CapTop(g[x][y]) && (WallTop(g[x][y]) ==> cap && ht == 1)
    requires 1 <= ht <= 9
    ensures var m := prefix + [Digit(ht)];
      |prefix| < |m| && m[..|prefix|] == prefix && DropsShape(g, d, x, y, m[|prefix|..], ht, cap)
  {
    var m := prefix + [Digit(ht)];
    assert m[|prefix|..] == [Digit(ht)];
    assert DigitValues([Digit(ht)]) == [ht];
    assert At(x, y, d, 0) == (x, y);
  }

  /** The moves of the recursive calls for h = 1 .. n - 1: drop h here, then a shaped slide from the next cell. */
  lemma {:induction false} BranchesShape(g: Grid, d: char, x: int, y: int, prefix: string, ht: int, cap: bool, n: int, m: Move)
    returns (v: int, t: string)
    requires IsGrid(g) && 1 <= n <= ht <= 9 && m in Branches(g, d, x, y, prefix, ht, cap, n)
    ensures 1 <= v < n && m == prefix + [Digit(v)] + t
    ensures DropsShape(g, d, NextX(x, d), NextY(y, d), t, ht - v, cap)
    decreases ht, 0, n
  {
    if n == 1 {
      assert false;
    }
    var pre := prefix + [Digit(n - 1)];
    var rest := Slides(g, d, NextX(x, d), NextY(y, d), pre, ht - (n - 1), cap);
    InEither(Branches(g, d, x, y, prefix, ht, cap, n - 1), rest, m);
    if m in Branches(g, d, x, y, prefix, ht, cap, n - 1) {
      v, t := BranchesShape(g, d, x, y, prefix, ht, cap, n - 1, m);
    } else {
      v := n - 1;
      SlidesShape(g, d, NextX(x, d), NextY(y, d), pre, ht - v, cap, m);
      t := m[|pre|..];
      PrefixSplit(m, pre);
    }
  }

  // ---------------------------------------------------------------- the slides are legal

  /** The last group of drops that use up the carried stones, the last being 1, is the top stone alone. */
  lemma LastGroup(c: seq<Stone>, ds: seq<int>)
    requires NonNeg(ds) && |ds| > 0 && |c| > 0 && Sum(ds) == |c| && ds[|ds| - 1] == 1
    ensures Group(c, ds, |ds| - 1) == [c[|c| - 1]]
  {
    var j := |ds| - 1;
    SumStep(ds, j);
    assert ds[..j + 1] == ds;
  }

  lemma {:induction false} CapsOnWallsAll(g: Grid, path: seq<(int, int)>, c: seq<Stone>, ds: seq<int>, i: int)
    requires DropsDefined(g, path, c, ds) && 0 <= i <= |ds|
    requires forall j :: 0 <= j < i ==> CapOnWall(Cell(g, path[j]), Group(c, ds, j))
    ensures CapsOnWalls(g, path, c, ds, i)
    decreases i
  {
    if i > 0 {
      CapsOnWallsAll(g, path, c, ds, i - 1);
    }
  }

  /** The drops of a shaped slide from the cell before (x, y) land on its path, where drops may land. */
  lemma ShapedPath(g: Grid, d: char, x: int, y: int, t: string, h: int, cap: bool)
    requires IsGrid(g) && DropsShape(g, d, NextX(x, d), NextY(y, d), t, h, cap)
    ensures var path := Path(x, y, d, |t|); var ds := DigitValues(t);
      forall j :: 0 <= j < |ds| ==> LandingOk(g, path[j], cap, j == |ds| - 1, ds[j])
  {
    var path := Path(x, y, d, |t|);
    var ds := DigitValues(t);
    forall j | 0 <= j < |ds|
      ensures LandingOk(g, path[j], cap, j == |ds| - 1, ds[j])
    {
      AtNext(x, y, d, j);
    }
  }

  /**
   * Against the cells as they were, every group of a shaped slide that
   * lands on a wall is headed by the capstone: the wall is met only by the
   * last drop, of one stone, of a capstone slide.
   */
  lemma ShapedCapsOnWalls(p: Position, white: bool, d: char, x: int, y: int, h: int, ds: seq<int>)
    requires ShapedDrops(p, white, d, x, y, h, ds)
    ensures CapsOnWalls(Lifted(p, x, y, h), Path(x, y, d, |ds|), Carried(p.cells[x][y], h), ds, |ds|)
  {
    var path := Path(x, y, d, |ds|);
    var c := Carried(p.cells[x][y], h);
    var g0 := Lifted(p, x, y, h);
    forall j | 0 <= j < |ds|
      ensures CapOnWall(Cell(g0, path[j]), Group(c, ds, j))
    {
      ShapedCapOnWall(p, white, d, x, y, h, ds, j);
    }
    CapsOnWallsAll(g0, path, c, ds, |ds|);
  }

  /** One drop of a shaped slide: it meets a wall only as the capstone alone. */
  lemma ShapedCapOnWall(p: Position, white: bool, d: char, x: int, y: int, h: int, ds: seq<int>, j: int)
    requires ShapedDrops(p, white, d, x, y, h, ds) && 0 <= j < |ds|
    ensures CapOnWall(Cell(Lifted(p, x, y, h), Path(x, y, d, |ds|)[j]), Group(Carried(p.cells[x][y], h), ds, j))
  {
    var s := p.cells[x][y];
    var cell := Path(x, y, d, |ds|)[j];
    LiftedPath(p, x, y, d, h, ds, j);
    if WallTop(Cell(p.cells, cell)) {
      assert LandingOk(p.cells, cell, OwnCap(s, white), j == |ds| - 1, ds[j]);
      CarriedShape(s, h);
      LastGroup(Carried(s, h), ds);
    }
  }

  /**
   * A slide of h stones off an own stack (or capstone, with cap set) whose
   * drop digits have the shape `motion`/`cap_motion` produce is legal.
   */
  lemma ShapedSlideLegal(p: Position, white: bool, d: char, x: int, y: int, h: int, t: string)
    requires WellFormed(p) && InBounds(x, y) && IsDir(d) && 1 <= h <= N && h <= |p.cells[x][y]|
    requires OwnStack(p.cells[x][y], white) || OwnCap(p.cells[x][y], white)
    requires DropsShape(p.cells, d, NextX(x, d), NextY(y, d), t, h, OwnCap(p.cells[x][y], white))
    ensures Legal(p, SlidePrefix(h, x, y, d) + t, white)
  {
    var m := SlidePrefix(h, x, y, d) + t;
    var ds := DigitValues(t);
    SlidePrefixParts(h, x, y, d, t);
    assert Square(m) == (x, y) && m[3] == d && Count(m) == h && Drops(m) == ds;
    ShapedSlideOk(p, white, d, x, y, h, t);
    ShapedNoCaps(p.cells, d, x, y, t, h, OwnCap(p.cells[x][y], white));
    assert PerformOk(p, m, white);
  }

  /** No drop of a shaped slide lands on a capstone. */
  lemma ShapedNoCaps(g: Grid, d: char, x: int, y: int, t: string, h: int, cap: bool)
    requires IsGrid(g) && DropsShape(g, d, NextX(x, d), NextY(y, d), t, h, cap)
    ensures forall j :: 0 <= j < |t| ==> OnBoard(Path(x, y, d, |t|)[j]) && !CapTop(Cell(g, Path(x, y, d, |t|)[j]))
  {
    ShapedPath(g, d, x, y, t, h, cap);
  }

  lemma ShapedSlideOk(p: Position, white: bool, d: char, x: int, y: int, h: int, t: string)
    requires WellFormed(p) && InBounds(x, y) && IsDir(d) && 1 <= h <= N && h <= |p.cells[x][y]|
    requires OwnStack(p.cells[x][y], white) || OwnCap(p.cells[x][y], white)
    requires DropsShape(p.cells, d, NextX(x, d), NextY(y, d), t, h, OwnCap(p.cells[x][y], white))
    ensures SlideOk(p, x, y, d, h, DigitValues(t), white)
  {
    ShapedDropsHold(p, white, d, x, y, h, t);
    ShapedLandingsOk(p, white, d, x, y, h, DigitValues(t));
  }

  /** A shaped slide off a stack of at least h stones: defined, using up h stones, landing where drops may land. */
  predicate ShapedDrops(p: Position, white: bool, d: char, x: int, y: int, h: int, ds: seq<int>) {
    && WellFormed(p) && 1 <= h && SlideDefined(p, x, y, d, h, ds)
    && |ds| > 0 && Sum(ds) == h
    && forall j :: 0 <= j < |ds| ==>
      LandingOk(p.cells, Path(x, y, d, |ds|)[j], OwnCap(p.cells[x][y], white), j == |ds| - 1, ds[j])
  }

  lemma ShapedDropsHold(p: Position, white: bool, d: char, x: int, y: int, h: int, t: string)
    requires WellFormed(p) && InBounds(x, y) && IsDir(d) && 1 <= h <= N && h <= |p.cells[x][y]|
    requires DropsShape(p.cells, d, NextX(x, d), NextY(y, d), t, h, OwnCap(p.cells[x][y], white))
    ensures ShapedDrops(p, white, d, x, y, h, DigitValues(t))
  {
    ShapedPath(p.cells, d, x, y, t, h, OwnCap(p.cells[x][y], white));
  }

  /** The landing asserts of `perform_motion` hold for a slide whose drops land where drops may land. */
  lemma ShapedLandingsOk(p: Position, white: bool, d: char, x: int, y: int, h: int, ds: seq<int>)
    requires ShapedDrops(p, white, d, x, y, h, ds)
    ensures LandingsOk(Lifted(p, x, y, h), Path(x, y, d, |ds|), Carried(p.cells[x][y], h), ds, |ds|)
  {
    var s := p.cells[x][y];
    ShapedCapsOnWalls(p, white, d, x, y, h, ds);
    CarriedShape(s, h);
    PathDistinct(x, y, d, |ds|);
    LandingsOkClosed(Lifted(p, x, y, h), Path(x, y, d, |ds|), Carried(s, h), ds, |ds|);
  }

  /** What the generator promises of each slide it offers: legal, at most N stones, off an own stack or capstone. */
  predicate SlideOffered(p: Position, m: Move, white: bool) {
    && !IsPlacement(m) && Legal(p, m, white) && Count(m) <= N
    && InBounds(Square(m).0, Square(m).1)
    && (OwnStack(p.cells[Square(m).0][Square(m).1], white) || OwnCap(p.cells[Square(m).0][Square(m).1], white))
  }

  lemma PickupSlidesSound(p: Position, white: bool, d: char, x: int, y: int, h: int, m: Move)
    requires WellFormed(p) && InBounds(x, y) && IsDir(d) && 1 <= h <= N && h <= |p.cells[x][y]|
    requires m in PickupSlides(p.cells, white, d, x, y, h)
    ensures SlideOffered(p, m, white)
  {
    var s := p.cells[x][y];
    var prefix := SlidePrefix(h, x, y, d);
    SlidesShape(p.cells, d, NextX(x, d), NextY(y, d), prefix, h, OwnCap(s, white), m);
    var t := m[|prefix|..];
    assert m == prefix + t;
    ShapedSlideLegal(p, white, d, x, y, h, t);
    SlidePrefixParts(h, x, y, d, t);
  }

  lemma InEither<T>(a: seq<T>, b: seq<T>, m: T)
    requires m in a + b
    ensures m in a || m in b
  {
  }

  lemma PrefixSplit<T>(m: seq<T>, pre: seq<T>)
    requires |pre| <= |m| && m[..|pre|] == pre
    ensures m == pre + m[|pre|..]
  {
    assert m == m[..|pre|] + m[|pre|..];
  }

  /** The pickup a slide from (x, y) was generated for. */
  lemma {:induction false} InPickups(g: Grid, white: bool, d: char, x: int, y: int, n: int, m: Move) returns (h: int)
    requires IsGrid(g) && InBounds(x, y) && 0 <= n <= N && m in Pickups(g, white, d, x, y, n)
    ensures 1 <= h <= n && m in PickupSlides(g, white, d, x, y, h)
  {
    if m in Pickups(g, white, d, x, y, n - 1) {
      h := InPickups(g, white, d, x, y, n - 1, m);
    } else {
      h := n;
    }
  }

  /** The origin and pickup a slide of column x was generated for. */
  lemma {:induction false} InColumnSlides(g: Grid, white: bool, d: char, x: int, n: int, m: Move) returns (y: int, h: int)
    requires IsGrid(g) && 0 <= x < N && 0 <= n <= N && m in ColumnSlides(g, white, d, x, n)
    ensures 0 <= y < n && 1 <= h <= CarryLimit(g[x][y]) && m in PickupSlides(g, white, d, x, y, h)
  {
    if m in ColumnSlides(g, white, d, x, n - 1) {
      y, h := InColumnSlides(g, white, d, x, n - 1, m);
    } else {
      y := n - 1;
      h := InPickups(g, white, d, x, y, CarryLimit(g[x][y]), m);
    }
  }

  /** The origin and pickup a slide towards d was generated for. */
  lemma {:induction false} InDirSlides(g: Grid, white: bool, d: char, k: int, m: Move) returns (x: int, y: int, h: int)
    requires IsGrid(g) && 0 <= k <= N && m in DirSlides(g, white, d, k)
    ensures 0 <= x < k && 0 <= y < N && 1 <= h <= CarryLimit(g[x][y]) && m in PickupSlides(g, white, d, x, y, h)
  {
    if m in DirSlides(g, white, d, k - 1) {
      x, y, h := InDirSlides(g, white, d, k - 1, m);
    } else {
      x := k - 1;
      y, h := InColumnSlides(g, white, d, x, N, m);
    }
  }

  /** The direction, origin and pickup a slide was generated for. */
  lemma {:induction false} InSlidesUpTo(g: Grid, white: bool, i: int, m: Move) returns (j: int, x: int, y: int, h: int)
    requires IsGrid(g) && 0 <= i <= |Dirs| && m in SlidesUpTo(g, white, i)
    ensures 0 <= j < i && InBounds(x, y) && 1 <= h <= CarryLimit(g[x][y])
    ensures m in PickupSlides(g, white, Dirs[j], x, y, h)
  {
    var d := Dirs[i - 1];
    InEither(SlidesUpTo(g, white, i - 1), DirSlides(g, white, d, N), m);
    if m in SlidesUpTo(g, white, i - 1) {
      j, x, y, h := InSlidesUpTo(g, white, i - 1, m);
    } else {
      j := i - 1;
      x, y, h := InDirSlides(g, white, d, N, m);
    }
  }

  /**
   * Every slide `generate_motion_moves` offers is legal, picks up at most N
   * stones and starts from a stack topped by the mover's flat, wall or
   * capstone.
   */
  lemma SlideMovesSound(p: Position, white: bool, m: Move)
    requires WellFormed(p) && m in SlideMoves(p.cells, white)
    ensures SlideOffered(p, m, white)
  {
    var j, x, y, h := InSlidesUpTo(p.cells, white, |Dirs|, m);
    PickupSlidesSound(p, white, Dirs[j], x, y, h, m);
  }

  /** Every move `generate_moves` offers is legal, so `perform_move` accepts it. */
  lemma AllMovesLegal(p: Position, white: bool, m: Move)
    requires WellFormed(p) && m in AllMoves(p, white)
    ensures Legal(p, m, white)
  {
    if m in PlacementMoves(p, white) {
      PlacementMovesExact(p, white, m);
    } else {
      SlideMovesSound(p, white, m);
    }
  }

  lemma {:induction false} NoPickups(g: Grid, white: bool, d: char, x: int, y: int, n: int)
    requires IsGrid(g) && InBounds(x, y) && 0 <= n <= N
    requires !OwnStack(g[x][y], white) && !OwnCap(g[x][y], white)
    ensures Pickups(g, white, d, x, y, n) == []
  {
    if n > 0 {
      NoPickups(g, white, d, x, y, n - 1);
    }
  }

  /** A cell not topped by the mover's flat, wall or capstone, a crushed wall among them, starts no slide. */
  lemma NoSlidesFromOthers(g: Grid, white: bool, d: char, x: int, y: int)
    requires IsGrid(g) && InBounds(x, y)
    requires !OwnStack(g[x][y], white) && !OwnCap(g[x][y], white)
    ensures OriginSlides(g, white, d, x, y) == []
  {
    NoPickups(g, white, d, x, y, CarryLimit(g[x][y]));
  }

  // ---------------------------------------------------------------- the generators

  /** The body of the cell loop of `generate_placement_moves`. */
  method AddPlacements(b: Board, x: int, y: int, flats: int, caps: int, moves: seq<Move>) returns (moves': seq<Move>)
    requires b.Valid() && InBounds(x, y)
    ensures moves' == moves + CellPlacements(b.cells[x][y], x, y, flats, caps)
  {
    moves' := moves;
    if |b.grid[x, y]| == 0 {
      var s := MakeSqr(x, y);
      if flats > 0 {
        moves' := moves' + ["S" + s];
        moves' := moves' + ["F" + s];
      }
      if caps > 0 {
        moves' := moves' + ["C" + s];
      }
    }
  }

  /** The y loop of `generate_placement_moves`: the placements on column x. */
  method PlaceColumn(b: Board, x: int, flats: int, caps: int, moves: seq<Move>, ghost white: bool)
    returns (moves': seq<Move>)
    requires b.Valid() && 0 <= x < N && flats == FlatsLeft(b.Pos(), white) && caps == CapsLeft(b.Pos(), white)
    ensures moves' == moves + ColumnPlacements(b.Pos(), white, x, N)
  {
    moves' := moves;
    for y := 0 to N
      invariant moves' == moves + ColumnPlacements(b.Pos(), white, x, y)
    {
      Append3(moves, ColumnPlacements(b.Pos(), white, x, y), CellPlacements(b.cells[x][y], x, y, flats, caps));
      moves' := AddPlacements(b, x, y, flats, caps, moves');
    }
  }

  /** `generate_placement_moves`. */
  method GeneratePlacementMoves(b: Board, moves: seq<Move>, white: bool) returns (moves': seq<Move>)
    requires b.Valid()
    ensures moves' == moves + PlacementMoves(b.Pos(), white)
  {
    var flats := if white then b.whiteFlats else b.blackFlats;
    var caps := if white then b.whiteCaps else b.blackCaps;
    moves' := moves;
    for x := 0 to N
      invariant moves' == moves + PlacementsUpTo(b.Pos(), white, x)
    {
      Append3(moves, PlacementsUpTo(b.Pos(), white, x), ColumnPlacements(b.Pos(), white, x, N));
      moves' := PlaceColumn(b, x, flats, caps, moves', white);
    }
  }

  /** An occupiable origin yields the whole-stack drop, then the branches. */
  lemma SlidesOpen(g: Grid, d: char, x: int, y: int, prefix: string, ht: int, cap: bool, moves: seq<Move>)
    requires IsGrid(g) && 1 <= ht <= 9 && InBounds(x, y) && !CapTop(g[x][y])
    requires !(WallTop(g[x][y]) && (!cap || ht > 1))
    ensures moves + Slides(g, d, x, y, prefix, ht, cap)
      == (moves + [prefix + [Digit(ht)]]) + Branches(g, d, x, y, prefix, ht, cap, ht)
  {
    Append3(moves, [prefix + [Digit(ht)]], Branches(g, d, x, y, prefix, ht, cap, ht));
  }

  /** One more recursive call of `motion`/`cap_motion`. */
  lemma BranchesNext(g: Grid, d: char, x: int, y: int, prefix: string, ht: int, cap: bool, h: int, first: seq<Move>)
    requires IsGrid(g) && 1 <= h < ht <= 9
    ensures first + Branches(g, d, x, y, prefix, ht, cap, h + 1)
      == (first + Branches(g, d, x, y, prefix, ht, cap, h))
         + Slides(g, d, NextX(x, d), NextY(y, d), prefix + [Digit(h)], ht - h, cap)
  {
    Append3(first, Branches(g, d, x, y, prefix, ht, cap, h),
      Slides(g, d, NextX(x, d), NextY(y, d), prefix + [Digit(h)], ht - h, cap));
  }

  /** `motion`. */
  method Motion(b: Board, d: char, x: int, y: int, prefix: string, moves: seq<Move>, ht: int) returns (moves': seq<Move>)
    requires b.Valid() && 1 <= ht <= 9
    ensures moves' == moves + Slides(b.cells, d, x, y, prefix, ht, false)
    decreases ht
  {
    if !InBounds(x, y) {
      return moves;
    }
    var s := b.grid[x, y];
    assert s == b.cells[x][y];
    if |s| > 0 && IsCap(s[|s| - 1]) {
      return moves;
    }
    if |s| > 0 && IsWall(s[|s| - 1]) {
      return moves;
    }
    SlidesOpen(b.cells, d, x, y, prefix, ht, false, moves);
    moves' := moves + [prefix + [Digit(ht)]];
    var xx, yy := NextX(x, d), NextY(y, d);
    ghost var first := moves';
    for h := 1 to ht
      invariant moves' == first + Branches(b.cells, d, x, y, prefix, ht, false, h)
    {
      BranchesNext(b.cells, d, x, y, prefix, ht, false, h, first);
      moves' := Motion(b, d, xx, yy, prefix + [Digit(h)], moves', ht - h);
    }
  }

  /** `cap_motion`: as `motion`, but a single stone may land on a wall. */
  method CapMotion(b: Board, d: char, x: int, y: int, prefix: string, moves: seq<Move>, ht: int) returns (moves': seq<Move>)
    requires b.Valid() && 1 <= ht <= 9
    ensures moves' == moves + Slides(b.cells, d, x, y, prefix, ht, true)
    decreases ht
  {
    if !InBounds(x, y) {
      return moves;
    }
    var s := b.grid[x, y];
    assert s == b.cells[x][y];
    if |s| > 0 && IsCap(s[|s| - 1]) {
      return moves;
    }
    if |s| > 0 && IsWall(s[|s| - 1]) && ht > 1 {
      return moves;
    }
    SlidesOpen(b.cells, d, x, y, prefix, ht, true, moves);
    moves' := moves + [prefix + [Digit(ht)]];
    var xx, yy := NextX(x, d), NextY(y, d);
    ghost var first := moves';
    for h := 1 to ht
      invariant moves' == first + Branches(b.cells, d, x, y, prefix, ht, true, h)
    {
      BranchesNext(b.cells, d, x, y, prefix, ht, true, h, first);
      moves' := CapMotion(b, d, xx, yy, prefix + [Digit(h)], moves', ht - h);
    }
  }

  /** The body of the cell loop of `generate_motion_moves`. */
  method AddOriginSlides(b: Board, white: bool, d: char, x: int, y: int, moves: seq<Move>) returns (moves': seq<Move>)
    requires b.Valid() && InBounds(x, y)
    ensures moves' == moves + OriginSlides(b.cells, white, d, x, y)
  {
    var s := b.grid[x, y];
    if |s| == 0 {
      return moves;
    }
    var xx, yy := NextX(x, d), NextY(y, d);
    var t := s[|s| - 1];
    var ownCap := IsCap(t) && IsWhiteStone(t) == white;
    var ownStack := (IsFlat(t) || IsWall(t)) && IsWhiteStone(t) == white;
    var n := if |s| < N then |s| else N;
    assert s == b.cells[x][y] && n == CarryLimit(s);
    assert OwnStack(s, white) == ownStack && OwnCap(s, white) == ownCap;
    moves' := moves;
    for h := 1 to n + 1
      invariant moves' == moves + Pickups(b.cells, white, d, x, y, h - 1)
    {
      var prefix := [Digit(h)] + MakeSqr(x, y) + [d];
      assert prefix == SlidePrefix(h, x, y, d);
      Append3(moves, Pickups(b.cells, white, d, x, y, h - 1), PickupSlides(b.cells, white, d, x, y, h));
      if ownStack {
        moves' := Motion(b, d, xx, yy, prefix, moves', h);
      } else if ownCap {
        moves' := CapMotion(b, d, xx, yy, prefix, moves', h);
      }
    }
  }

  /** The y loop of `generate_motion_moves`: the slides from column x. */
  method ScanColumn(b: Board, white: bool, d: char, x: int, moves: seq<Move>) returns (moves': seq<Move>)
    requires b.Valid() && 0 <= x < N
    ensures moves' == moves + ColumnSlides(b.cells, white, d, x, N)
  {
    moves' := moves;
    for y := 0 to N
      invariant moves' == moves + ColumnSlides(b.cells, white, d, x, y)
    {
      Append3(moves, ColumnSlides(b.cells, white, d, x, y), OriginSlides(b.cells, white, d, x, y));
      moves' := AddOriginSlides(b, white, d, x, y, moves');
    }
  }

  /** The x and y loops of `generate_motion_moves` for one direction. */
  method AddDirSlides(b: Board, white: bool, d: char, moves: seq<Move>) returns (moves': seq<Move>)
    requires b.Valid()
    ensures moves' == moves + DirSlides(b.cells, white, d, N)
  {
    moves' := moves;
    for x := 0 to N
      invariant moves' == moves + DirSlides(b.cells, white, d, x)
    {
      Append3(moves, DirSlides(b.cells, white, d, x), ColumnSlides(b.cells, white, d, x, N));
      moves' := ScanColumn(b, white, d, x, moves');
    }
  }

  /** `generate_motion_moves`. */
  method GenerateMotionMoves(b: Board, moves: seq<Move>, white: bool) returns (moves': seq<Move>)
    requires b.Valid()
    ensures moves' == moves + SlideMoves(b.cells, white)
  {
    var dirs := "+-<>";
    moves' := moves;
    for i := 0 to 4
      invariant moves' == moves + SlidesUpTo(b.cells, white, i)
    {
      Append3(moves, SlidesUpTo(b.cells, white, i), DirSlides(b.cells, white, Dirs[i], N));
      moves' := AddDirSlides(b, white, dirs[i], moves');
    }
  }

  /** `generate_moves`. */
  method GenerateMoves(b: Board, moves: seq<Move>, white: bool) returns (moves': seq<Move>)
    requires b.Valid()
    ensures moves' == moves + AllMoves(b.Pos(), white)
  {
    Append3(moves, PlacementMoves(b.Pos(), white), SlideMoves(b.cells, white));
    moves' := GeneratePlacementMoves(b, moves, white);
    moves' := GenerateMotionMoves(b, moves', white);
  }
}
