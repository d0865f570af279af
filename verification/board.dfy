/**
 * The board object: a fixed N x N buffer of stacks and the four reserve
 * counters, changed in place by the move methods. The ghost `cells` is the
 * value the buffer holds; every method is proved against the functions of
 * `Rules` on `Pos()`.
 */
module Boards {
  import opened Stones
  import opened Notation
  import opened Rules
  import opened SlideLaws

  /** `drops`: the loop that reads one digit per drop, from index 4 on. */
  method ReadDrops(m: Move) returns (drops: seq<int>)
    requires |m| >= 4
    ensures drops == Drops(m)
  {
    drops := [];
    var i := 4;
    while i < |m|
      invariant 4 <= i <= |m|
      invariant drops == DigitValues(m[4..i])
    {
      assert m[4..i + 1][..i - 4] == m[4..i];
      drops := drops + [m[i] as int - '0' as int];
      i := i + 1;
    }
    assert m[4..i] == m[4..];
  }

  /** The last stone of a group landed one after the other is the group's last. */
  lemma DropGroupTop(s: Stack, g: seq<Stone>)
    requires |g| > 0
    ensures |DropGroup(s, g).0| == |s| + |g| && Top(DropGroup(s, g).0) == g[|g| - 1]
  {
    DropGroupClosed(s, g[..0]);
  }

  /** The landing asserts of a group say that its stone j is a capstone whenever it lands on a wall. */
  lemma LandingCap(start: Stack, grp: seq<Stone>, j: int)
    requires GroupOk(start, grp) && 0 <= j < |grp|
    ensures WallTop(DropGroup(start, grp[..j]).0) ==> IsCap(grp[j])
  {
    if j == 0 {
      assert grp[..0] == [];
    } else {
      DropGroupTop(start, grp[..j]);
    }
  }

  /**
   * The stones of `perform_motion`'s `pickup`, top first: once the first i
   * drops are done, its last `ds[i]` stones, the last one first, are the
   * group of drop i.
   */
  lemma PickupHoldsGroup(full: seq<Stone>, c: seq<Stone>, ds: seq<int>, i: int, pickup: seq<Stone>)
    requires |full| == |c| && forall k :: 0 <= k < |c| ==> full[k] == c[|c| - 1 - k]
    requires NonNeg(ds) && 0 <= i < |ds| && Sum(ds) <= |c|
    requires 0 <= Sum(ds[..i]) <= |c| && pickup == full[..|c| - Sum(ds[..i])]
    ensures ds[i] <= |pickup|
    ensures forall k :: 0 <= k < ds[i] ==> Group(c, ds, i)[k] == pickup[|pickup| - 1 - k]
    ensures 0 <= Sum(ds[..i + 1]) <= |c| && pickup[..|pickup| - ds[i]] == full[..|c| - Sum(ds[..i + 1])]
  {
    GroupBounds(c, ds, i);
    ReversedSlice(full, c, Sum(ds[..i]), ds[i], pickup, Group(c, ds, i));
  }

  lemma GroupBounds(c: seq<Stone>, ds: seq<int>, i: int)
    requires NonNeg(ds) && 0 <= i < |ds| && Sum(ds) <= |c|
    ensures 0 <= Sum(ds[..i]) && Sum(ds[..i + 1]) == Sum(ds[..i]) + ds[i] <= |c|
    ensures Group(c, ds, i) == c[Sum(ds[..i])..Sum(ds[..i]) + ds[i]]
  {
    SumStep(ds, i);
    SumPrefix(ds, i, i + 1);
    SumPrefix(ds, i + 1, |ds|);
  }

  /** The last `n` stones of a buffer that holds `c` top first, once the first `b` were taken. */
  lemma ReversedSlice(full: seq<Stone>, c: seq<Stone>, b: int, n: int, pickup: seq<Stone>, g: seq<Stone>)
    requires |full| == |c| && forall k :: 0 <= k < |c| ==> full[k] == c[|c| - 1 - k]
    requires 0 <= b && 0 <= n && b + n <= |c| && pickup == full[..|c| - b] && g == c[b..b + n]
    ensures n <= |pickup| && pickup[..|pickup| - n] == full[..|c| - (b + n)]
    ensures forall k :: 0 <= k < n ==> g[k] == pickup[|pickup| - 1 - k]
  {
  }

  /** What the step loop of `undo_motion` needs of the position it starts from. */
  ghost predicate UndoReady(g: Grid, x0: int, y0: int, dir: char, drops: seq<int>, path: seq<(int, int)>) {
    && IsGrid(g) && InBounds(x0, y0) && IsDir(dir) && path == Path(x0, y0, dir, |drops|)
    && OnBoardAll(path) && PopsFit(g, path, drops, |drops|)
  }

  /**
   * Before round i of the step loop of `undo_motion`: the next cell is the
   * i-th of the path, distinct from the origin and untouched so far, and
   * holds at least drop i's stones.
   */
  lemma UndoStepFacts(g0: Grid, x0: int, y0: int, dir: char, drops: seq<int>, path: seq<(int, int)>,
                      i: int, x: int, y: int, g: Grid)
    requires UndoReady(g0, x0, y0, dir, drops, path) && 0 <= i < |drops|
    requires (x, y) == At(x0, y0, dir, i) && PopsFit(g0, path, drops, i)
    requires g == UndoSteps(g0, x0, y0, path, drops, i)
    ensures (NextX(x, dir), NextY(y, dir)) == path[i] == At(x0, y0, dir, i + 1)
    ensures InBounds(NextX(x, dir), NextY(y, dir)) && (NextX(x, dir), NextY(y, dir)) != (x0, y0)
    ensures PopsFit(g0, path, drops, i + 1) && 0 <= drops[i] <= |g0[NextX(x, dir)][NextY(y, dir)]|
    ensures g[NextX(x, dir)][NextY(y, dir)] == g0[NextX(x, dir)][NextY(y, dir)]
  {
    AtStep(x0, y0, dir, i);
    PathFresh(x0, y0, dir, |drops|, i);
    PopsFitAt(g0, path, drops, |drops|, i);
    UndoStepsMiss(g0, x0, y0, path, drops, i, NextX(x, dir), NextY(y, dir));
  }

  class Board {
    /** `board[x][y]`: the stack on column x, row y. */
    const grid: array2<Stack>
    var whiteFlats: int
    var whiteCaps: int
    var blackFlats: int
    var blackCaps: int

    /** The stacks the buffer holds. */
    ghost var cells: Grid

    ghost predicate Valid()
      reads this, grid
    {
      && grid.Length0 == N && grid.Length1 == N && IsGrid(cells)
      && forall x, y :: 0 <= x < N && 0 <= y < N ==> grid[x, y] == cells[x][y]
    }

    /** The position the board holds. */
    ghost function Pos(): Position
      reads this
    {
      Position(cells, whiteFlats, whiteCaps, blackFlats, blackCaps)
    }

    /**
     * An empty board with the given reserves. The engine's own constructor
     * is in `board.h`, which is not part of this model.
     */
    constructor (wf: int, wc: int, bf: int, bc: int)
      ensures Valid()
      ensures Pos() == Position(seq(N, x => seq(N, y => [])), wf, wc, bf, bc)
    {
      grid := new Stack[N, N]((x, y) => []);
      cells := seq(N, x => seq(N, y => []));
      whiteFlats, whiteCaps, blackFlats, blackCaps := wf, wc, bf, bc;
    }

    /** `board[x][y].push_back(t)`. */
    method Push(x: int, y: int, t: Stone)
      requires Valid() && InBounds(x, y)
      modifies this, grid
      ensures Valid()
      ensures Pos() == old(Pos()).(cells := SetCell(old(cells), x, y, old(cells)[x][y] + [t]))
    {
      grid[x, y] := grid[x, y] + [t];
      cells := SetCell(cells, x, y, grid[x, y]);
    }

    /** `board[x][y].back()` followed by `board[x][y].pop_back()`. */
    method Pop(x: int, y: int) returns (t: Stone)
      requires Valid() && InBounds(x, y) && |cells[x][y]| > 0
      modifies this, grid
      ensures Valid()
      ensures t == Top(old(cells)[x][y])
      ensures Pos() == old(Pos()).(cells := SetCell(old(cells), x, y, old(cells)[x][y][..|old(cells)[x][y]| - 1]))
    {
      var s := grid[x, y];
      t := s[|s| - 1];
      grid[x, y] := s[..|s| - 1];
      cells := SetCell(cells, x, y, grid[x, y]);
    }

    /** `board[x][y].back() = t`. */
    method SetTop(x: int, y: int, t: Stone)
      requires Valid() && InBounds(x, y) && |cells[x][y]| > 0
      modifies this, grid
      ensures Valid()
      ensures Pos() == old(Pos()).(cells := SetCell(old(cells), x, y, old(cells)[x][y][..|old(cells)[x][y]| - 1] + [t]))
    {
      var s := grid[x, y];
      grid[x, y] := s[..|s| - 1] + [t];
      cells := SetCell(cells, x, y, grid[x, y]);
    }

    /** `perform_placement`: push the stone the move names and take it from its reserve. */
    method PerformPlacement(m: Move, white: bool) returns (crush: bool)
      requires Valid() && PlacementText(m)
      modifies this, grid
      ensures Valid() && !crush
      ensures Pos() == Place(old(Pos()), m[0], Square(m).0, Square(m).1, white)
    {
      SquareInBounds(m[1], m[2]);
      var x, y := MakeXY(m[1], m[2]).0, MakeXY(m[1], m[2]).1;
      if white {
        if m[0] == 'F' {
          Push(x, y, WhiteFlat); whiteFlats := whiteFlats - 1;
        } else if m[0] == 'S' {
          Push(x, y, WhiteWall); whiteFlats := whiteFlats - 1;
        } else {
          Push(x, y, WhiteCap); whiteCaps := whiteCaps - 1;
        }
      } else {
        if m[0] == 'F' {
          Push(x, y, BlackFlat); blackFlats := blackFlats - 1;
        } else if m[0] == 'S' {
          Push(x, y, BlackWall); blackFlats := blackFlats - 1;
        } else {
          Push(x, y, BlackCap); blackCaps := blackCaps - 1;
        }
      }
      crush := false;
    }

    /**
     * Pop the top h stones off (x, y) one by one into a buffer, so that the
     * buffer holds them top first: the `pickup` loop of `perform_motion` and
     * the first `temp` loop of `undo_motion`.
     */
    method Lift(x: int, y: int, h: int) returns (pickup: seq<Stone>)
      requires Valid() && InBounds(x, y) && 0 <= h <= |cells[x][y]|
      modifies this, grid
      ensures Valid()
      ensures Pos() == old(Pos()).(cells := SetCell(old(cells), x, y, old(cells)[x][y][..|old(cells)[x][y]| - h]))
      ensures |pickup| == h
      ensures forall k :: 0 <= k < h ==> pickup[k] == Carried(old(cells)[x][y], h)[h - 1 - k]
    {
      ghost var p0 := Pos();
      ghost var s := cells[x][y];
      pickup := [];
      SetCellSame(cells, x, y);
      assert s[..|s| - 0] == s;
      var i := 0;
      while i < h
        invariant 0 <= i <= h
        invariant Valid() && Pos() == p0.(cells := SetCell(p0.cells, x, y, s[..|s| - i]))
        invariant |pickup| == i && forall k :: 0 <= k < i ==> pickup[k] == s[|s| - 1 - k]
      {
        var t := Pop(x, y);
        SetCellTwice(p0.cells, x, y, s[..|s| - i], s[..|s| - i - 1]);
        assert s[..|s| - i][..|s| - i - 1] == s[..|s| - i - 1];
        pickup := pickup + [t];
        i := i + 1;
      }
    }

    /**
     * The second `temp` loop of `undo_motion`: pop the buffer, which holds
     * the stones `u` top first, onto (x, y), so that they keep their order.
     */
    method PushBack(x: int, y: int, temp: seq<Stone>, ghost u: seq<Stone>)
      requires Valid() && InBounds(x, y)
      requires |temp| == |u| && forall k :: 0 <= k < |u| ==> temp[k] == u[|u| - 1 - k]
      modifies this, grid
      ensures Valid()
      ensures Pos() == old(Pos()).(cells := SetCell(old(cells), x, y, old(cells)[x][y] + u))
    {
      ghost var p0 := Pos();
      ghost var o := cells[x][y];
      var rest := temp;
      SetCellSame(cells, x, y);
      assert o + u[..0] == o;
      var j := 0;
      while j < |temp|
        invariant 0 <= j <= |u|
        invariant Valid() && Pos() == p0.(cells := SetCell(p0.cells, x, y, o + u[..j]))
        invariant rest == temp[..|u| - j]
      {
        var t := rest[|rest| - 1];
        rest := rest[..|rest| - 1];
        Push(x, y, t);
        SetCellTwice(p0.cells, x, y, o + u[..j], o + u[..j] + [t]);
        assert o + u[..j] + [t] == o + u[..j + 1];
        j := j + 1;
      }
      assert u[..|u|] == u;
    }

    /**
     * One stone of `perform_motion` lands on (x, y): a wall on top is turned
     * into the crushed marker of its colour and the flag is set. The stone
     * must then be a capstone.
     */
    method DropOne(x: int, y: int, stone: Stone, crush: bool) returns (crush': bool)
      requires Valid() && InBounds(x, y)
      requires WallTop(cells[x][y]) ==> IsCap(stone)
      modifies this, grid
      ensures Valid()
      ensures Pos() == old(Pos()).(cells := SetCell(old(cells), x, y, DropStone(old(cells)[x][y], stone).0))
      ensures crush' == (crush || DropStone(old(cells)[x][y], stone).1)
    {
      ghost var p0 := Pos();
      ghost var before := cells[x][y];
      crush' := crush;
      if |grid[x, y]| > 0 {
        var top := grid[x, y][|grid[x, y]| - 1];
        if top == WhiteWall || top == BlackWall {
          crush' := true;
          assert IsCap(stone);
          SetTop(x, y, if top == WhiteWall then WhiteCrush else BlackCrush);
        }
      }
      ghost var mid := cells[x][y];
      SetCellSame(p0.cells, x, y);
      assert cells == SetCell(p0.cells, x, y, mid);
      Push(x, y, stone);
      SetCellTwice(p0.cells, x, y, mid, mid + [stone]);
    }

    /**
     * One drop of `perform_motion`: the last n stones of `pickup`, the last
     * one first, land on (x, y) one after the other.
     */
    method DropOnto(x: int, y: int, pickup: seq<Stone>, n: int, crush: bool, ghost grp: seq<Stone>)
      returns (rest: seq<Stone>, crush': bool)
      requires Valid() && InBounds(x, y) && 0 <= n <= |pickup| && |grp| == n
      requires forall k :: 0 <= k < n ==> grp[k] == pickup[|pickup| - 1 - k]
      requires GroupOk(cells[x][y], grp)
      modifies this, grid
      ensures Valid()
      ensures Pos() == old(Pos()).(cells := SetCell(old(cells), x, y, DropGroup(old(cells)[x][y], grp).0))
      ensures crush' == (crush || DropGroup(old(cells)[x][y], grp).1)
      ensures rest == pickup[..|pickup| - n]
    {
      ghost var p0 := Pos();
      ghost var start := cells[x][y];
      rest, crush' := pickup, crush;
      SetCellSame(cells, x, y);
      assert grp[..0] == [];
      var j := 0;
      while j < n
        invariant 0 <= j <= n
        invariant Valid() && Pos() == p0.(cells := SetCell(p0.cells, x, y, DropGroup(start, grp[..j]).0))
        invariant crush' == (crush || DropGroup(start, grp[..j]).1)
        invariant rest == pickup[..|pickup| - j]
      {
        var stone := rest[|rest| - 1];
        rest := rest[..|rest| - 1];
        ghost var mid := cells[x][y];
        LandingCap(start, grp, j);
        assert grp[..j + 1][..j] == grp[..j];
        crush' := DropOne(x, y, stone, crush');
        SetCellTwice(p0.cells, x, y, mid, DropStone(mid, stone).0);
        j := j + 1;
      }
      assert grp[..n] == grp;
    }

    /**
     * One round of the drop loop of `perform_motion`: step from the i-th
     * cell of the path to the next one and let drop i land there.
     */
    method DropStep(x0: int, y0: int, dir: char, drops: seq<int>, pickup: seq<Stone>, ghost c: seq<Stone>,
                    ghost g0: Grid, i: int, x: int, y: int, rest: seq<Stone>, crush: bool)
      returns (x': int, y': int, rest': seq<Stone>, crush': bool)
      requires Valid() && DropsDefined(g0, Path(x0, y0, dir, |drops|), c, drops)
      requires |pickup| == |c| && forall k :: 0 <= k < |c| ==> pickup[k] == c[|c| - 1 - k]
      requires LandingsOk(g0, Path(x0, y0, dir, |drops|), c, drops, |drops|)
      requires 0 <= i < |drops| && (x, y) == At(x0, y0, dir, i)
      requires cells == SlideDrops(g0, Path(x0, y0, dir, |drops|), c, drops, i).0
      requires crush == SlideDrops(g0, Path(x0, y0, dir, |drops|), c, drops, i).1
      requires 0 <= Sum(drops[..i]) <= |c| && rest == pickup[..|c| - Sum(drops[..i])]
      modifies this, grid
      ensures Valid() && (x', y') == At(x0, y0, dir, i + 1)
      ensures Pos() == old(Pos()).(cells := SlideDrops(g0, Path(x0, y0, dir, |drops|), c, drops, i + 1).0)
      ensures crush' == SlideDrops(g0, Path(x0, y0, dir, |drops|), c, drops, i + 1).1
      ensures 0 <= Sum(drops[..i + 1]) <= |c| && rest' == pickup[..|c| - Sum(drops[..i + 1])]
    {
      ghost var path := Path(x0, y0, dir, |drops|);
      AtStep(x0, y0, dir, i);
      x', y' := NextX(x, dir), NextY(y, dir);
      assert (x', y') == path[i];
      PickupHoldsGroup(pickup, c, drops, i, rest);
      LandingsOkAt(g0, path, c, drops, |drops|, i);
      rest', crush' := DropOnto(x', y', rest, drops[i], crush, Group(c, drops, i));
    }

    /**
     * The drop loop of `perform_motion`: with the carried stones `c` in
     * `pickup`, top first, step along the direction once per drop and let
     * that drop's stones land.
     */
    method DropAll(x0: int, y0: int, dir: char, drops: seq<int>, pickup: seq<Stone>, ghost c: seq<Stone>)
      returns (crush: bool)
      requires Valid() && DropsDefined(cells, Path(x0, y0, dir, |drops|), c, drops)
      requires |pickup| == |c| && forall k :: 0 <= k < |c| ==> pickup[k] == c[|c| - 1 - k]
      requires LandingsOk(cells, Path(x0, y0, dir, |drops|), c, drops, |drops|)
      modifies this, grid
      ensures Valid()
      ensures Pos() == old(Pos()).(cells := SlideDrops(old(cells), Path(x0, y0, dir, |drops|), c, drops, |drops|).0)
      ensures crush == SlideDrops(old(cells), Path(x0, y0, dir, |drops|), c, drops, |drops|).1
    {
      ghost var p0 := Pos();
      var x, y := x0, y0;
      var rest := pickup;
      crush := false;
      SumPrefix(drops, 0, 0);
      assert drops[..0] == [];
      var i := 0;
      while i < |drops|
        invariant 0 <= i <= |drops| && (x, y) == At(x0, y0, dir, i)
        invariant Valid() && Pos() == p0.(cells := SlideDrops(p0.cells, Path(x0, y0, dir, |drops|), c, drops, i).0)
        invariant crush == SlideDrops(p0.cells, Path(x0, y0, dir, |drops|), c, drops, i).1
        invariant 0 <= Sum(drops[..i]) <= |c| && rest == pickup[..|c| - Sum(drops[..i])]
      {
        x, y, rest, crush := DropStep(x0, y0, dir, drops, pickup, c, p0.cells, i, x, y, rest, crush);
        i := i + 1;
      }
    }

    /**
     * `perform_motion`: lift the top h stones off the origin, then step
     * along the direction once per drop and let the next stones land. The
     * result is the position `PerformSlide` gives and its crush flag.
     */
    method PerformMotion(m: Move, white: bool) returns (crush: bool)
      requires Valid() && SlideText(m)
      requires SlideOk(Pos(), Square(m).0, Square(m).1, m[3], Count(m), Drops(m), white)
      modifies this, grid
      ensures Valid()
      ensures (Pos(), crush) == PerformSlide(old(Pos()), Square(m).0, Square(m).1, m[3], Count(m), Drops(m))
    {
      var h := m[0] as int - '0' as int;
      SquareInBounds(m[1], m[2]);
      var x, y := MakeXY(m[1], m[2]).0, MakeXY(m[1], m[2]).1;
      ghost var p0 := Pos();
      var dir := m[3];
      var drops := ReadDrops(m);
      var pickup := Lift(x, y, h);
      assert cells == Lifted(p0, x, y, h);
      crush := DropAll(x, y, dir, drops, pickup, Carried(p0.cells[x][y], h));
    }

    /** `undo_placement`: give the single stone back to its reserve and empty the cell. */
    method UndoPlacement(m: Move, white: bool)
      requires Valid() && PlacementText(m)
      requires UndoPlaceOk(Pos(), Square(m).0, Square(m).1, white)
      modifies this, grid
      ensures Valid()
      ensures Pos() == UndoPlace(old(Pos()), Square(m).0, Square(m).1)
    {
      SquareInBounds(m[1], m[2]);
      var x, y := MakeXY(m[1], m[2]).0, MakeXY(m[1], m[2]).1;
      var t := grid[x, y][0];
      if t == WhiteFlat || t == WhiteWall {
        whiteFlats := whiteFlats + 1;
      } else if t == WhiteCap {
        whiteCaps := whiteCaps + 1;
      } else if t == BlackFlat || t == BlackWall {
        blackFlats := blackFlats + 1;
      } else {
        blackCaps := blackCaps + 1;
      }
      var _ := Pop(x, y);
    }

    /**
     * One step of `undo_motion`: pop the top k stones of (x, y) into `temp`,
     * then pop `temp` onto the origin, so that they keep their order.
     */
    method TakeBack(x: int, y: int, x0: int, y0: int, k: int)
      requires Valid() && InBounds(x, y) && InBounds(x0, y0) && (x, y) != (x0, y0)
      requires 0 <= k <= |cells[x][y]|
      modifies this, grid
      ensures Valid()
      ensures var s := old(cells)[x][y];
        var g := SetCell(old(cells), x, y, s[..|s| - k]);
        Pos() == old(Pos()).(cells := SetCell(g, x0, y0, g[x0][y0] + s[|s| - k..]))
    {
      ghost var s := cells[x][y];
      var temp := Lift(x, y, k);
      PushBack(x0, y0, temp, Carried(s, k));
    }

    /**
     * The board after the first i rounds of the step loop of `undo_motion`
     * started on p0 at (x0, y0): the loop stands on the i-th cell of the
     * path and only the cells have changed.
     */
    ghost predicate Undone(p0: Position, x0: int, y0: int, dir: char, drops: seq<int>, path: seq<(int, int)>,
                           i: int, x: int, y: int)
      reads this, grid
    {
      && UndoReady(p0.cells, x0, y0, dir, drops, path) && 0 <= i <= |drops|
      && (x, y) == At(x0, y0, dir, i) && PopsFit(p0.cells, path, drops, i)
      && Valid() && Pos() == p0.(cells := UndoSteps(p0.cells, x0, y0, path, drops, i))
    }

    /**
     * One round of the step loop of `undo_motion`: step from the i-th cell
     * of the path to the next one and move drop i back onto the origin.
     */
    method UndoStep(ghost p0: Position, x0: int, y0: int, dir: char, drops: seq<int>, ghost path: seq<(int, int)>,
                    i: int, x: int, y: int)
      returns (x': int, y': int)
      requires Undone(p0, x0, y0, dir, drops, path, i, x, y) && i < |drops|
      modifies this, grid
      ensures Undone(p0, x0, y0, dir, drops, path, i + 1, x', y')
    {
      x', y' := NextX(x, dir), NextY(y, dir);
      UndoStepFacts(p0.cells, x0, y0, dir, drops, path, i, x, y, cells);
      ghost var g1 := cells;
      TakeBack(x', y', x0, y0, drops[i]);
      UndoStepsNext(p0.cells, x0, y0, path, drops, i, x', y', g1, cells);
    }

    /**
     * The step loop of `undo_motion`: for each drop, step along the
     * direction and move that drop's stones back onto the origin. Returns
     * the last cell visited.
     */
    method TakeAllBack(x0: int, y0: int, dir: char, drops: seq<int>) returns (x: int, y: int)
      requires Valid() && UndoReady(cells, x0, y0, dir, drops, Path(x0, y0, dir, |drops|))
      modifies this, grid
      ensures Undone(old(Pos()), x0, y0, dir, drops, Path(x0, y0, dir, |drops|), |drops|, x, y)
    {
      ghost var p0 := Pos();
      ghost var path := Path(x0, y0, dir, |drops|);
      x, y := x0, y0;
      var i := 0;
      while i < |drops|
        invariant 0 <= i <= |drops| && Undone(p0, x0, y0, dir, drops, path, i, x, y)
      {
        x, y := UndoStep(p0, x0, y0, dir, drops, path, i, x, y);
        i := i + 1;
      }
    }

    /**
     * The last step of `undo_motion` when the slide had crushed a wall:
     * the crushed marker on (x, y) becomes a wall of its colour again.
     */
    method Uncrush(x: int, y: int)
      requires Valid() && InBounds(x, y) && |cells[x][y]| > 0 && IsCrush(Top(cells[x][y]))
      modifies this, grid
      ensures Valid()
      ensures var s := old(cells)[x][y];
        Pos() == old(Pos()).(cells := SetCell(old(cells), x, y, s[..|s| - 1] + [Uncrushed(Top(s))]))
    {
      var top := grid[x, y][|grid[x, y]| - 1];
      SetTop(x, y, if top == BlackCrush then BlackWall else WhiteWall);
    }

    /**
     * `undo_motion`: move every drop's stones back onto the origin; with
     * `uncrush`, turn the crushed marker on the last cell back into a wall.
     */
    method UndoMotion(m: Move, white: bool, uncrush: bool)
      requires Valid() && SlideText(m)
      requires UndoSlideOk(Pos(), Square(m).0, Square(m).1, m[3], Drops(m), uncrush, white)
      modifies this, grid
      ensures Valid()
      ensures Pos() == UndoSlide(old(Pos()), Square(m).0, Square(m).1, m[3], Drops(m), uncrush)
    {
      var dir := m[3];
      SquareInBounds(m[1], m[2]);
      var x0, y0 := MakeXY(m[1], m[2]).0, MakeXY(m[1], m[2]).1;
      var drops := ReadDrops(m);
      var x, y := TakeAllBack(x0, y0, dir, drops);
      if uncrush {
        Uncrush(x, y);
      }
    }

    /** `perform_move`: a move starting with F, S or C is a placement, anything else a slide. */
    method PerformMove(m: Move, white: bool) returns (crush: bool)
      requires Valid() && PerformOk(Pos(), m, white)
      modifies this, grid
      ensures Valid()
      ensures (Pos(), crush) == Rules.PerformMove(old(Pos()), m, white)
    {
      if m[0] == 'F' || m[0] == 'S' || m[0] == 'C' {
        crush := PerformPlacement(m, white);
      } else {
        crush := PerformMotion(m, white);
      }
    }

    /** `undo_move`. */
    method UndoMove(m: Move, white: bool, uncrush: bool)
      requires Valid() && UndoOk(Pos(), m, white, uncrush)
      modifies this, grid
      ensures Valid()
      ensures Pos() == Rules.UndoMove(old(Pos()), m, white, uncrush)
    {
      if m[0] == 'F' || m[0] == 'S' || m[0] == 'C' {
        UndoPlacement(m, white);
      } else {
        UndoMotion(m, white, uncrush);
      }
    }
  }
}
