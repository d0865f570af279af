/**
 * Piece conservation: a slide moves stones without creating or destroying
 * any, and a placement moves one stone from a reserve onto the board. A
 * crushed wall is counted as the wall it was.
 */
module Conservation {
  import opened Stones
  import opened Notation
  import opened Rules

  /** The piece a stone counts as: a crushed marker is still its wall. */
  function Norm(t: Stone): (r: Stone)
    ensures !IsCrush(r) && IsWhiteStone(r) == IsWhiteStone(t)
  {
    if t == WhiteCrush then WhiteWall else if t == BlackCrush then BlackWall else t
  }

  /** How many stones of the stack count as piece t. */
  function StackCount(s: seq<Stone>, t: Stone): (r: nat)
    ensures r <= |s|
  {
    if s == [] then 0 else StackCount(s[..|s| - 1], t) + (if Norm(s[|s| - 1]) == t then 1 else 0)
  }

  lemma {:induction false} StackCountAppend(s: seq<Stone>, u: seq<Stone>, t: Stone)
    ensures StackCount(s + u, t) == StackCount(s, t) + StackCount(u, t)
    decreases |u|
  {
    if u == [] {
      assert s + u == s;
    } else {
      assert (s + u)[..|s + u| - 1] == s + u[..|u| - 1];
      StackCountAppend(s, u[..|u| - 1], t);
    }
  }

  /** How many stones on cells (x, 0) .. (x, y - 1) count as piece t. */
  function ColumnCount(g: Grid, x: int, y: int, t: Stone): int
    requires IsGrid(g) && 0 <= x < N && 0 <= y <= N
  {
    if y == 0 then 0 else ColumnCount(g, x, y - 1, t) + StackCount(g[x][y - 1], t)
  }

  /** How many stones on columns 0 .. x - 1 count as piece t. */
  function ColumnsCount(g: Grid, x: int, t: Stone): int
    requires IsGrid(g) && 0 <= x <= N
  {
    if x == 0 then 0 else ColumnsCount(g, x - 1, t) + ColumnCount(g, x - 1, N, t)
  }

  /** How many stones on the board count as piece t. */
  function BoardCount(g: Grid, t: Stone): int
    requires IsGrid(g)
  {
    ColumnsCount(g, N, t)
  }

  lemma {:induction false} ColumnCountSet(g: Grid, x: int, y: int, s: Stack, a: int, b: int, t: Stone)
    requires IsGrid(g) && InBounds(x, y) && 0 <= a < N && 0 <= b <= N
    ensures ColumnCount(SetCell(g, x, y, s), a, b, t) ==
      ColumnCount(g, a, b, t) + (if a == x && y < b then StackCount(s, t) - StackCount(g[x][y], t) else 0)
    decreases b
  {
    if b > 0 {
      ColumnCountSet(g, x, y, s, a, b - 1, t);
    }
  }

  lemma {:induction false} ColumnsCountSet(g: Grid, x: int, y: int, s: Stack, a: int, t: Stone)
    requires IsGrid(g) && InBounds(x, y) && 0 <= a <= N
    ensures ColumnsCount(SetCell(g, x, y, s), a, t) ==
      ColumnsCount(g, a, t) + (if x < a then StackCount(s, t) - StackCount(g[x][y], t) else 0)
    decreases a
  {
    if a > 0 {
      ColumnsCountSet(g, x, y, s, a - 1, t);
      ColumnCountSet(g, x, y, s, a - 1, N, t);
    }
  }

  /** Replacing one stack changes the board's count by exactly the difference of the two stacks. */
  lemma BoardCountSet(g: Grid, x: int, y: int, s: Stack, t: Stone)
    requires IsGrid(g) && InBounds(x, y)
    ensures BoardCount(SetCell(g, x, y, s), t) == BoardCount(g, t) + StackCount(s, t) - StackCount(g[x][y], t)
  {
    ColumnsCountSet(g, x, y, s, N, t);
  }

  /** A crushed wall still counts as its wall. */
  lemma CrushCount(s: Stack, t: Stone)
    requires WallTop(s)
    ensures StackCount(s[..|s| - 1] + [Crushed(Top(s))], t) == StackCount(s, t)
  {
    var low := s[..|s| - 1];
    assert (low + [Crushed(Top(s))])[..|s| - 1] == low;
    assert s[..|s| - 1] == low;
  }

  /** One landing stone, crush or not, adds exactly itself to the stack's count. */
  lemma DropStoneCount(s: Stack, u: Stone, t: Stone)
    ensures StackCount(DropStone(s, u).0, t) == StackCount(s, t) + StackCount([u], t)
  {
    if WallTop(s) {
      var s' := s[..|s| - 1] + [Crushed(Top(s))];
      CrushCount(s, t);
      StackCountAppend(s', [u], t);
    } else {
      StackCountAppend(s, [u], t);
    }
  }

  /** Landing stones, crush or not, adds exactly those stones to the stack's count. */
  lemma {:induction false} DropGroupCount(s: Stack, grp: seq<Stone>, t: Stone)
    ensures StackCount(DropGroup(s, grp).0, t) == StackCount(s, t) + StackCount(grp, t)
    decreases |grp|
  {
    if grp != [] {
      var front := grp[..|grp| - 1];
      var u := grp[|grp| - 1];
      DropGroupCount(s, front, t);
      DropStoneCount(DropGroup(s, front).0, u, t);
      assert front + [u] == grp;
      StackCountAppend(front, [u], t);
    }
  }

  /** The first i drops add exactly the first carried stones to the board. */
  lemma {:induction false} SlideDropsCount(g: Grid, path: seq<(int, int)>, c: seq<Stone>, ds: seq<int>, i: int, t: Stone)
    requires DropsDefined(g, path, c, ds) && 0 <= i <= |ds|
    ensures 0 <= Sum(ds[..i]) <= |c|
    ensures BoardCount(SlideDrops(g, path, c, ds, i).0, t) == BoardCount(g, t) + StackCount(c[..Sum(ds[..i])], t)
    decreases i
  {
    SumPrefix(ds, i, i);
    if i == 0 {
      assert ds[..0] == [] && c[..0] == [];
    } else {
      SlideDropsCount(g, path, c, ds, i - 1, t);
      var g1 := SlideDrops(g, path, c, ds, i - 1).0;
      var v := path[i - 1];
      var grp := Group(c, ds, i - 1);
      BoardCountSet(g1, v.0, v.1, DropGroup(Cell(g1, v), grp).0, t);
      DropGroupCount(Cell(g1, v), grp, t);
      SumStep(ds, i - 1);
      SumPrefix(ds, i - 1, i);
      assert c[..Sum(ds[..i - 1])] + grp == c[..Sum(ds[..i])];
      StackCountAppend(c[..Sum(ds[..i - 1])], grp, t);
    }
  }

  /**
   * A slide whose drops use up the carried stones leaves the count of every
   * piece on the board, and the reserves, exactly as they were.
   */
  lemma SlideConserves(p: Position, x0: int, y0: int, d: char, h: int, ds: seq<int>, t: Stone)
    requires SlideDefined(p, x0, y0, d, h, ds) && Sum(ds) == h
    ensures var q := PerformSlide(p, x0, y0, d, h, ds).0;
      BoardCount(q.cells, t) == BoardCount(p.cells, t) && q.whiteFlats == p.whiteFlats && q.whiteCaps == p.whiteCaps
      && q.blackFlats == p.blackFlats && q.blackCaps == p.blackCaps
  {
    var s := p.cells[x0][y0];
    var c := Carried(s, h);
    SlideDropsCount(Lifted(p, x0, y0, h), Path(x0, y0, d, |ds|), c, ds, |ds|, t);
    assert ds[..|ds|] == ds && c[..h] == c;
    BoardCountSet(p.cells, x0, y0, s[..|s| - h], t);
    assert s[..|s| - h] + c == s;
    StackCountAppend(s[..|s| - h], c, t);
  }

  /** A placement adds exactly the placed stone to the board. */
  lemma PlaceCount(p: Position, k: char, x: int, y: int, white: bool, t: Stone)
    requires ValidPos(p) && InBounds(x, y) && IsKind(k)
    ensures BoardCount(Place(p, k, x, y, white).cells, t) ==
      BoardCount(p.cells, t) + (if PlacedStone(k, white) == t then 1 else 0)
  {
    var s := p.cells[x][y];
    BoardCountSet(p.cells, x, y, s + [PlacedStone(k, white)], t);
    StackCountAppend(s, [PlacedStone(k, white)], t);
    assert [PlacedStone(k, white)][..0] == [];
  }

  /** White's flats and walls, on the board and in reserve. */
  function WhiteFlatPieces(p: Position): int requires ValidPos(p) {
    BoardCount(p.cells, WhiteFlat) + BoardCount(p.cells, WhiteWall) + p.whiteFlats
  }

  function WhiteCapPieces(p: Position): int requires ValidPos(p) {
    BoardCount(p.cells, WhiteCap) + p.whiteCaps
  }

  function BlackFlatPieces(p: Position): int requires ValidPos(p) {
    BoardCount(p.cells, BlackFlat) + BoardCount(p.cells, BlackWall) + p.blackFlats
  }

  function BlackCapPieces(p: Position): int requires ValidPos(p) {
    BoardCount(p.cells, BlackCap) + p.blackCaps
  }

  /** The four piece counts of a position. */
  predicate SamePieces(p: Position, q: Position)
    requires ValidPos(p) && ValidPos(q)
  {
    && WhiteFlatPieces(q) == WhiteFlatPieces(p) && WhiteCapPieces(q) == WhiteCapPieces(p)
    && BlackFlatPieces(q) == BlackFlatPieces(p) && BlackCapPieces(q) == BlackCapPieces(p)
  }

  /**
   * Piece conservation: for each colour, the flats and walls on the board
   * plus the flat reserve, and the capstones on the board plus the cap
   * reserve, are the same before and after any move whose drops use up the
   * stones carried.
   */
  lemma MoveConserves(p: Position, m: Move, white: bool)
    requires PerformOk(p, m, white) && (!IsPlacement(m) ==> Sum(Drops(m)) == Count(m))
    ensures SamePieces(p, PerformMove(p, m, white).0)
  {
    SquareInBounds(m[1], m[2]);
    var x, y := Square(m).0, Square(m).1;
    if IsPlacement(m) {
      PlaceCount(p, m[0], x, y, white, WhiteFlat);
      PlaceCount(p, m[0], x, y, white, WhiteWall);
      PlaceCount(p, m[0], x, y, white, WhiteCap);
      PlaceCount(p, m[0], x, y, white, BlackFlat);
      PlaceCount(p, m[0], x, y, white, BlackWall);
      PlaceCount(p, m[0], x, y, white, BlackCap);
    } else {
      SlideConserves(p, x, y, m[3], Count(m), Drops(m), WhiteFlat);
      SlideConserves(p, x, y, m[3], Count(m), Drops(m), WhiteWall);
      SlideConserves(p, x, y, m[3], Count(m), Drops(m), WhiteCap);
      SlideConserves(p, x, y, m[3], Count(m), Drops(m), BlackFlat);
      SlideConserves(p, x, y, m[3], Count(m), Drops(m), BlackWall);
      SlideConserves(p, x, y, m[3], Count(m), Drops(m), BlackCap);
    }
  }
}
