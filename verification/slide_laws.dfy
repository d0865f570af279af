/**
 * What a slide does, in closed form: which stones end up where, when a
 * wall is crushed, and that undoing the slide gives back the position.
 * Drops are numbered from 0: drop j lands on `path[j]`, the (j+1)-th cell
 * from the origin.
 */
module SlideLaws {
  import opened Stones
  import opened Rules

  // ---------------------------------------------------------------- one group

  /** A whole group landing at once on a stack: a wall on top is crushed first. */
  function Land(s: Stack, g: seq<Stone>): (r: Stack)
    ensures |r| == |s| + |g| && r[|s|..] == g
  {
    if |g| > 0 && WallTop(s) then s[..|s| - 1] + [Crushed(Top(s))] + g else s + g
  }

  /** Carried stones below the top one are never walls. */
  predicate NoInnerWall(c: seq<Stone>) {
    forall k :: 0 <= k < |c| - 1 ==> !IsWall(c[k])
  }

  /** Stone by stone equals all at once, when no stone of the group but the last is a wall. */
  lemma {:induction false} DropGroupClosed(s: Stack, g: seq<Stone>)
    requires NoInnerWall(g)
    ensures DropGroup(s, g) == (Land(s, g), |g| > 0 && WallTop(s))
    decreases |g|
  {
    if g == [] {
      assert s + g == s;
    } else {
      var g', t := g[..|g| - 1], g[|g| - 1];
      assert g' + [t] == g;
      DropGroupClosed(s, g');
      var s1 := Land(s, g');
      assert DropGroup(s, g) == (DropStone(s1, t).0, (|g'| > 0 && WallTop(s)) || DropStone(s1, t).1);
      if g' != [] {
        assert Top(s1) == g'[|g'| - 1] == g[|g| - 2];
        assert s1 + [t] == Land(s, g);
        assert DropStone(s1, t) == (s1 + [t], false);
      } else {
        assert s1 == s && g == [t];
        assert DropStone(s, t) == (Land(s, g), WallTop(s));
      }
    }
  }

  /** Taking a landed group off again leaves the stack, with its wall crushed if one was hit. */
  lemma LandThenLift(s: Stack, g: seq<Stone>)
    ensures Land(s, g)[..|s|] == if |g| > 0 && WallTop(s) then s[..|s| - 1] + [Crushed(Top(s))] else s
  {
  }

  lemma GroupShape(c: seq<Stone>, ds: seq<int>, i: int)
    requires NonNeg(ds) && 0 <= i < |ds| && Sum(ds) <= |c| && NoInnerWall(c)
    ensures NoInnerWall(Group(c, ds, i))
  {
    SumStep(ds, i);
    SumPrefix(ds, i, i + 1);
  }

  // ---------------------------------------------------------------- drops in closed form

  /** A cell no drop among the first i lands on is unchanged. */
  lemma {:induction false} SlideDropsMiss(g: Grid, path: seq<(int, int)>, c: seq<Stone>, ds: seq<int>, i: int, a: int, b: int)
    requires DropsDefined(g, path, c, ds) && 0 <= i <= |ds| && InBounds(a, b) && (a, b) !in path[..i]
    ensures SlideDrops(g, path, c, ds, i).0[a][b] == g[a][b]
    decreases i
  {
    if i > 0 {
      assert path[..i - 1] == path[..i][..i - 1];
      SlideDropsMiss(g, path, c, ds, i - 1, a, b);
      assert path[i - 1] in path[..i];
    }
  }

  /** The cell of drop j, once the first i > j drops are done: the j-th group has landed on it. */
  lemma {:induction false} SlideDropsHit(g: Grid, path: seq<(int, int)>, c: seq<Stone>, ds: seq<int>, i: int, j: int)
    requires DropsDefined(g, path, c, ds) && Distinct(path) && NoInnerWall(c) && 0 <= j < i <= |ds|
    ensures Cell(SlideDrops(g, path, c, ds, i).0, path[j]) == Land(Cell(g, path[j]), Group(c, ds, j))
    decreases i
  {
    var t := path[i - 1];
    var g1 := SlideDrops(g, path, c, ds, i - 1).0;
    if j == i - 1 {
      assert t !in path[..i - 1];
      SlideDropsMiss(g, path, c, ds, i - 1, t.0, t.1);
      GroupShape(c, ds, j);
      DropGroupClosed(Cell(g1, t), Group(c, ds, j));
    } else {
      SlideDropsHit(g, path, c, ds, i - 1, j);
      assert path[j] != t;
    }
  }

  /** Some drop among the first i lands at least one stone on a cell topped by a wall. */
  predicate AnyWall(g: Grid, path: seq<(int, int)>, ds: seq<int>, i: int)
    requires IsGrid(g) && |path| == |ds| && OnBoardAll(path) && 0 <= i <= |ds|
  {
    i > 0 && (AnyWall(g, path, ds, i - 1) || (ds[i - 1] > 0 && WallTop(Cell(g, path[i - 1]))))
  }

  /** The crush flag of the first i drops. */
  lemma {:induction false} SlideDropsFlag(g: Grid, path: seq<(int, int)>, c: seq<Stone>, ds: seq<int>, i: int)
    requires DropsDefined(g, path, c, ds) && Distinct(path) && NoInnerWall(c) && 0 <= i <= |ds|
    ensures SlideDrops(g, path, c, ds, i).1 == AnyWall(g, path, ds, i)
    decreases i
  {
    if i > 0 {
      SlideDropsFlag(g, path, c, ds, i - 1);
      var t := path[i - 1];
      assert t !in path[..i - 1];
      SlideDropsMiss(g, path, c, ds, i - 1, t.0, t.1);
      GroupShape(c, ds, i - 1);
      DropGroupClosed(Cell(g, t), Group(c, ds, i - 1));
    }
  }

  /** A group that lands on a wall starts with a capstone. */
  predicate CapOnWall(s: Stack, grp: seq<Stone>) {
    |grp| > 0 && WallTop(s) ==> IsCap(grp[0])
  }

  /** `CapOnWall` for each of the first i drops, against the cells as they were before the slide. */
  predicate CapsOnWalls(g: Grid, path: seq<(int, int)>, c: seq<Stone>, ds: seq<int>, i: int)
    requires DropsDefined(g, path, c, ds) && 0 <= i <= |ds|
    decreases i
  {
    i == 0 || (CapsOnWalls(g, path, c, ds, i - 1) && CapOnWall(Cell(g, path[i - 1]), Group(c, ds, i - 1)))
  }

  /**
   * When the carried stones hold no wall below the top, the landing asserts
   * of a slide only ask that a group landing on a wall starts with a
   * capstone, checked against the cells before the slide.
   */
  lemma {:induction false} LandingsOkClosed(g: Grid, path: seq<(int, int)>, c: seq<Stone>, ds: seq<int>, i: int)
    requires DropsDefined(g, path, c, ds) && Distinct(path) && NoInnerWall(c) && 0 <= i <= |ds|
    ensures LandingsOk(g, path, c, ds, i) == CapsOnWalls(g, path, c, ds, i)
    decreases i
  {
    if i > 0 {
      LandingsOkClosed(g, path, c, ds, i - 1);
      var t := path[i - 1];
      assert t !in path[..i - 1];
      SlideDropsMiss(g, path, c, ds, i - 1, t.0, t.1);
      GroupShape(c, ds, i - 1);
      assert GroupOk(Cell(g, t), Group(c, ds, i - 1)) == CapOnWall(Cell(g, t), Group(c, ds, i - 1));
    }
  }

  /** The landing asserts of all the drops give those of drop j. */
  lemma {:induction false} LandingsOkAt(g: Grid, path: seq<(int, int)>, c: seq<Stone>, ds: seq<int>, i: int, j: int)
    requires DropsDefined(g, path, c, ds) && 0 <= j < i <= |ds| && LandingsOk(g, path, c, ds, i)
    ensures GroupOk(Cell(SlideDrops(g, path, c, ds, j).0, path[j]), Group(c, ds, j))
    decreases i
  {
    if j < i - 1 {
      LandingsOkAt(g, path, c, ds, i - 1, j);
    }
  }

  lemma {:induction false} CapsOnWallsAt(g: Grid, path: seq<(int, int)>, c: seq<Stone>, ds: seq<int>, i: int, j: int)
    requires DropsDefined(g, path, c, ds) && 0 <= j < i <= |ds| && CapsOnWalls(g, path, c, ds, i)
    ensures CapOnWall(Cell(g, path[j]), Group(c, ds, j))
    decreases i
  {
    if j < i - 1 {
      CapsOnWallsAt(g, path, c, ds, i - 1, j);
    }
  }

  // ---------------------------------------------------------------- legal slides

  predicate Positive(ds: seq<int>) { forall i :: 0 <= i < |ds| ==> ds[i] >= 1 }

  /**
   * When the drops are positive and use up the carried stones, and only the
   * top carried stone can be a capstone, a group that starts with a
   * capstone is the last one and is that capstone alone.
   */
  lemma CapGroupIsLast(c: seq<Stone>, ds: seq<int>, j: int)
    requires forall k :: 0 <= k < |c| - 1 ==> !IsCap(c[k])
    requires NonNeg(ds) && Positive(ds) && Sum(ds) == |c| && 0 <= j < |ds|
    requires IsCap(Group(c, ds, j)[0])
    ensures j == |ds| - 1 && ds[j] == 1 && |c| > 0 && Group(c, ds, j) == [c[|c| - 1]]
  {
    var k := Sum(ds[..j]);
    SumStep(ds, j);
    SumPrefix(ds, j, j + 1);
    assert Group(c, ds, j) == c[k..k + ds[j]];
    assert IsCap(c[k]);
    assert k == |c| - 1;
    if j < |ds| - 1 {
      SumStep(ds, j + 1);
      SumPrefix(ds, j + 2, |ds|);
      assert false;
    }
  }

  /** The carried stones of a well-stacked cell: only the top one may be a wall or a capstone. */
  lemma CarriedShape(s: Stack, h: int)
    requires WellStacked(s) && 0 <= h <= |s|
    ensures NoInnerWall(Carried(s, h))
    ensures forall k :: 0 <= k < h - 1 ==> !IsCap(Carried(s, h)[k])
    ensures h > 0 ==> Carried(s, h)[h - 1] == Top(s)
  {
  }

  /** Lifting the carried stones off the origin leaves every cell of the path as it was. */
  lemma LiftedPath(p: Position, x0: int, y0: int, d: char, h: int, ds: seq<int>, j: int)
    requires SlideDefined(p, x0, y0, d, h, ds) && 0 <= j < |ds|
    ensures Cell(Lifted(p, x0, y0, h), Path(x0, y0, d, |ds|)[j]) == Cell(p.cells, Path(x0, y0, d, |ds|)[j])
  {
    PathDistinct(x0, y0, d, |ds|);
    assert Path(x0, y0, d, |ds|)[j] in Path(x0, y0, d, |ds|);
  }

  /** The facts every lemma about a legal slide starts from. */
  predicate LegalSlide(p: Position, x0: int, y0: int, d: char, h: int, ds: seq<int>, white: bool) {
    && SlideOk(p, x0, y0, d, h, ds, white) && WellStacked(p.cells[x0][y0])
    && |ds| > 0 && Positive(ds) && Sum(ds) == h
  }

  /** In a slide meeting the landing asserts, a group that lands on a wall starts with a capstone. */
  lemma LandsOnWallWithCap(p: Position, x0: int, y0: int, d: char, h: int, ds: seq<int>, white: bool, j: int)
    requires LegalSlide(p, x0, y0, d, h, ds, white) && 0 <= j < |ds|
    requires WallTop(Cell(p.cells, Path(x0, y0, d, |ds|)[j]))
    ensures IsCap(Group(Carried(p.cells[x0][y0], h), ds, j)[0])
  {
    var c := Carried(p.cells[x0][y0], h);
    var g0 := Lifted(p, x0, y0, h);
    var path := Path(x0, y0, d, |ds|);
    PathDistinct(x0, y0, d, |ds|);
    CarriedShape(p.cells[x0][y0], h);
    LandingsOkClosed(g0, path, c, ds, |ds|);
    CapsOnWallsAt(g0, path, c, ds, |ds|, j);
    LiftedPath(p, x0, y0, d, h, ds, j);
  }

  /**
   * In a slide whose drops are positive and use up the carried stones, from
   * a well-stacked cell, only the last cell can be topped by a wall; then
   * the last drop is a single stone and that stone is the capstone on top of
   * the origin.
   */
  lemma WallOnlyAtEnd(p: Position, x0: int, y0: int, d: char, h: int, ds: seq<int>, white: bool, j: int)
    requires LegalSlide(p, x0, y0, d, h, ds, white) && 0 <= j < |ds|
    requires WallTop(Cell(p.cells, Path(x0, y0, d, |ds|)[j]))
    ensures j == |ds| - 1 && ds[j] == 1 && CapTop(p.cells[x0][y0])
    ensures Group(Carried(p.cells[x0][y0], h), ds, j) == [Top(p.cells[x0][y0])]
  {
    LandsOnWallWithCap(p, x0, y0, d, h, ds, white, j);
    CarriedShape(p.cells[x0][y0], h);
    CapGroupIsLast(Carried(p.cells[x0][y0], h), ds, j);
  }

  /** A legal slide leaves the origin with all but its top h stones. */
  lemma SlideOrigin(p: Position, x0: int, y0: int, d: char, h: int, ds: seq<int>, white: bool)
    requires LegalSlide(p, x0, y0, d, h, ds, white)
    ensures var s := p.cells[x0][y0];
      PerformSlide(p, x0, y0, d, h, ds).0.cells[x0][y0] == s[..|s| - h]
  {
    PathDistinct(x0, y0, d, |ds|);
    SlideDropsMiss(Lifted(p, x0, y0, h), Path(x0, y0, d, |ds|), Carried(p.cells[x0][y0], h), ds, |ds|, x0, y0);
  }

  /** A legal slide leaves every cell off its path unchanged. */
  lemma SlideOff(p: Position, x0: int, y0: int, d: char, h: int, ds: seq<int>, white: bool, a: int, b: int)
    requires LegalSlide(p, x0, y0, d, h, ds, white)
    requires InBounds(a, b) && (a, b) != (x0, y0) && (a, b) !in Path(x0, y0, d, |ds|)
    ensures PerformSlide(p, x0, y0, d, h, ds).0.cells[a][b] == p.cells[a][b]
  {
    var path := Path(x0, y0, d, |ds|);
    assert path[..|ds|] == path;
    SlideDropsMiss(Lifted(p, x0, y0, h), path, Carried(p.cells[x0][y0], h), ds, |ds|, a, b);
  }

  /** A legal slide's drop j: the j-th group lands on its cell, which can hold a wall only for the last drop. */
  lemma SlideDest(p: Position, x0: int, y0: int, d: char, h: int, ds: seq<int>, white: bool, j: int)
    requires LegalSlide(p, x0, y0, d, h, ds, white) && 0 <= j < |ds|
    ensures var path := Path(x0, y0, d, |ds|);
      Cell(PerformSlide(p, x0, y0, d, h, ds).0.cells, path[j]) ==
        Land(Cell(p.cells, path[j]), Group(Carried(p.cells[x0][y0], h), ds, j))
    ensures j < |ds| - 1 ==> !WallTop(Cell(p.cells, Path(x0, y0, d, |ds|)[j]))
  {
    PathDistinct(x0, y0, d, |ds|);
    CarriedShape(p.cells[x0][y0], h);
    SlideDropsHit(Lifted(p, x0, y0, h), Path(x0, y0, d, |ds|), Carried(p.cells[x0][y0], h), ds, |ds|, j);
    LiftedPath(p, x0, y0, d, h, ds, j);
    if WallTop(Cell(p.cells, Path(x0, y0, d, |ds|)[j])) {
      WallOnlyAtEnd(p, x0, y0, d, h, ds, white, j);
    }
  }

  lemma {:induction false} AnyWallOnlyLast(g: Grid, path: seq<(int, int)>, ds: seq<int>, i: int)
    requires IsGrid(g) && |path| == |ds| && OnBoardAll(path) && 0 <= i <= |ds|
    requires forall j :: 0 <= j < i - 1 ==> !WallTop(Cell(g, path[j]))
    ensures AnyWall(g, path, ds, i) == (i > 0 && ds[i - 1] > 0 && WallTop(Cell(g, path[i - 1])))
    decreases i
  {
    if i > 1 {
      AnyWallNone(g, path, ds, i - 1);
    }
  }

  lemma {:induction false} AnyWallNone(g: Grid, path: seq<(int, int)>, ds: seq<int>, i: int)
    requires IsGrid(g) && |path| == |ds| && OnBoardAll(path) && 0 <= i <= |ds|
    requires forall j :: 0 <= j < i ==> !WallTop(Cell(g, path[j]))
    ensures !AnyWall(g, path, ds, i)
    decreases i
  {
    if i > 0 {
      AnyWallNone(g, path, ds, i - 1);
    }
  }

  /** A legal slide reports a crush exactly when its last cell holds a wall. */
  lemma SlideFlag(p: Position, x0: int, y0: int, d: char, h: int, ds: seq<int>, white: bool)
    requires LegalSlide(p, x0, y0, d, h, ds, white)
    ensures PerformSlide(p, x0, y0, d, h, ds).1 == WallTop(Cell(p.cells, Path(x0, y0, d, |ds|)[|ds| - 1]))
  {
    var path := Path(x0, y0, d, |ds|);
    var g0 := Lifted(p, x0, y0, h);
    PathDistinct(x0, y0, d, |ds|);
    CarriedShape(p.cells[x0][y0], h);
    SlideDropsFlag(g0, path, Carried(p.cells[x0][y0], h), ds, |ds|);
    forall j | 0 <= j < |ds| ensures Cell(g0, path[j]) == Cell(p.cells, path[j]) && (j < |ds| - 1 ==> !WallTop(Cell(g0, path[j]))) {
      LiftedPath(p, x0, y0, d, h, ds, j);
      SlideDest(p, x0, y0, d, h, ds, white, j);
    }
    AnyWallOnlyLast(g0, path, ds, |ds|);
  }

  /**
   * A slide whose drops are positive and use up the carried stones, from a
   * well-stacked cell: the origin loses exactly its top h stones; the j-th
   * cell of the path gains exactly the j-th group of carried stones on top,
   * in their original order; only the last cell can be topped by a wall,
   * and then a lone capstone lands on it and crushes it; the flag is set
   * exactly in that case; no other cell and no reserve changes.
   */
  lemma SlideEffect(p: Position, x0: int, y0: int, d: char, h: int, ds: seq<int>, white: bool)
    requires LegalSlide(p, x0, y0, d, h, ds, white)
    ensures var r := PerformSlide(p, x0, y0, d, h, ds);
      var q, f := r.0, r.1;
      var s := p.cells[x0][y0];
      var c := Carried(s, h);
      var path := Path(x0, y0, d, |ds|);
      && ValidPos(q)
      && q.whiteFlats == p.whiteFlats && q.whiteCaps == p.whiteCaps
      && q.blackFlats == p.blackFlats && q.blackCaps == p.blackCaps
      && q.cells[x0][y0] == s[..|s| - h]
      && (forall a, b {:trigger q.cells[a][b]} :: InBounds(a, b) && (a, b) != (x0, y0) && (a, b) !in path ==> q.cells[a][b] == p.cells[a][b])
      && (forall j :: 0 <= j < |ds| ==> Cell(q.cells, path[j]) == Land(Cell(p.cells, path[j]), Group(c, ds, j)))
      && (forall j :: 0 <= j < |ds| - 1 ==> !WallTop(Cell(p.cells, path[j])))
      && (f == WallTop(Cell(p.cells, path[|ds| - 1])))
      && (f ==> ds[|ds| - 1] == 1 && CapTop(s) && Group(c, ds, |ds| - 1) == [Top(s)])
  {
    var path := Path(x0, y0, d, |ds|);
    var q := PerformSlide(p, x0, y0, d, h, ds).0;
    SlideOrigin(p, x0, y0, d, h, ds, white);
    forall a, b {:trigger q.cells[a][b]} | InBounds(a, b) && (a, b) != (x0, y0) && (a, b) !in path
      ensures q.cells[a][b] == p.cells[a][b]
    {
      SlideOff(p, x0, y0, d, h, ds, white, a, b);
    }
    forall j | 0 <= j < |ds|
      ensures Cell(q.cells, path[j]) == Land(Cell(p.cells, path[j]), Group(Carried(p.cells[x0][y0], h), ds, j))
      ensures j < |ds| - 1 ==> !WallTop(Cell(p.cells, path[j]))
    {
      SlideDest(p, x0, y0, d, h, ds, white, j);
    }
    SlideFlag(p, x0, y0, d, h, ds, white);
    if WallTop(Cell(p.cells, path[|ds| - 1])) {
      WallOnlyAtEnd(p, x0, y0, d, h, ds, white, |ds| - 1);
    }
  }

  // ---------------------------------------------------------------- undoing a slide

  /** The stones the first i undo steps move back onto the origin, bottom first. */
  function Taken(g: Grid, path: seq<(int, int)>, ds: seq<int>, i: int): (r: seq<Stone>)
    requires IsGrid(g) && |path| == |ds| && OnBoardAll(path) && 0 <= i <= |ds|
    requires PopsFit(g, path, ds, i)
    decreases i
  {
    if i == 0 then []
    else
      var s := Cell(g, path[i - 1]);
      Taken(g, path, ds, i - 1) + s[|s| - ds[i - 1]..]
  }

  /** What the undo needs of all the cells gives what it needs of cell i. */
  lemma {:induction false} PopsFitAt(g: Grid, path: seq<(int, int)>, ds: seq<int>, n: int, i: int)
    requires IsGrid(g) && |path| == |ds| && OnBoardAll(path) && 0 <= i < n <= |ds| && PopsFit(g, path, ds, n)
    ensures 0 <= ds[i] <= |Cell(g, path[i])| && PopsFit(g, path, ds, i + 1)
    decreases n
  {
    if i < n - 1 {
      PopsFitAt(g, path, ds, n - 1, i);
    }
  }

  /** One more undo step, applied to the grid the first i steps give, with (x, y) the cell of step i. */
  lemma UndoStepsNext(g: Grid, x0: int, y0: int, path: seq<(int, int)>, ds: seq<int>, i: int, x: int, y: int, g1: Grid, g2: Grid)
    requires IsGrid(g) && InBounds(x0, y0) && |path| == |ds| && OnBoardAll(path) && 0 <= i < |ds|
    requires PopsFit(g, path, ds, i + 1) && path[i] == (x, y)
    requires g1 == UndoSteps(g, x0, y0, path, ds, i) && g1[x][y] == g[x][y]
    requires var s := g1[x][y]; var k := ds[i];
      var g3 := SetCell(g1, x, y, s[..|s| - k]);
      g2 == SetCell(g3, x0, y0, g3[x0][y0] + s[|s| - k..])
    ensures g2 == UndoSteps(g, x0, y0, path, ds, i + 1)
  {
  }

  /** A cell neither the origin nor among the first i of the path is left alone by the first i undo steps. */
  lemma {:induction false} UndoStepsMiss(g: Grid, x0: int, y0: int, path: seq<(int, int)>, ds: seq<int>, i: int, a: int, b: int)
    requires IsGrid(g) && InBounds(x0, y0) && |path| == |ds| && OnBoardAll(path) && 0 <= i <= |ds|
    requires PopsFit(g, path, ds, i)
    requires InBounds(a, b) && (a, b) != (x0, y0) && (a, b) !in path[..i]
    ensures UndoSteps(g, x0, y0, path, ds, i)[a][b] == g[a][b]
    decreases i
  {
    if i > 0 {
      assert path[..i - 1] == path[..i][..i - 1];
      assert path[i - 1] in path[..i];
      UndoStepsMiss(g, x0, y0, path, ds, i - 1, a, b);
    }
  }

  /** Once the j-th undo step is done, the j-th cell of the path has lost its top `ds[j]` stones. */
  lemma {:induction false} UndoStepsHit(g: Grid, x0: int, y0: int, path: seq<(int, int)>, ds: seq<int>, i: int, j: int)
    requires IsGrid(g) && InBounds(x0, y0) && |path| == |ds| && OnBoardAll(path) && 0 <= j < i <= |ds|
    requires PopsFit(g, path, ds, i) && Distinct(path) && (x0, y0) !in path
    ensures var s := Cell(g, path[j]);
      0 <= ds[j] <= |s| && Cell(UndoSteps(g, x0, y0, path, ds, i), path[j]) == s[..|s| - ds[j]]
    decreases i
  {
    assert path[i - 1] in path;
    if j < i - 1 {
      UndoStepsHit(g, x0, y0, path, ds, i - 1, j);
      assert path[j] != path[i - 1];
    }
  }

  /** The first i undo steps put the stones they take, in order, on top of the origin. */
  lemma {:induction false} UndoStepsOrigin(g: Grid, x0: int, y0: int, path: seq<(int, int)>, ds: seq<int>, i: int)
    requires IsGrid(g) && InBounds(x0, y0) && |path| == |ds| && OnBoardAll(path) && 0 <= i <= |ds|
    requires PopsFit(g, path, ds, i) && (x0, y0) !in path
    ensures UndoSteps(g, x0, y0, path, ds, i)[x0][y0] == g[x0][y0] + Taken(g, path, ds, i)
    decreases i
  {
    if i > 0 {
      UndoStepsOrigin(g, x0, y0, path, ds, i - 1);
      var top := UndoStepOrigin(g, x0, y0, path, ds, i);
      Append3(g[x0][y0], Taken(g, path, ds, i - 1), top);
    }
  }

  /** The i-th undo step puts the top stones of the i-th cell of the path on the origin. */
  lemma UndoStepOrigin(g: Grid, x0: int, y0: int, path: seq<(int, int)>, ds: seq<int>, i: int) returns (top: seq<Stone>)
    requires IsGrid(g) && InBounds(x0, y0) && |path| == |ds| && OnBoardAll(path) && 0 < i <= |ds|
    requires PopsFit(g, path, ds, i) && (x0, y0) !in path
    ensures UndoSteps(g, x0, y0, path, ds, i)[x0][y0] == UndoSteps(g, x0, y0, path, ds, i - 1)[x0][y0] + top
    ensures Taken(g, path, ds, i) == Taken(g, path, ds, i - 1) + top
  {
    assert path[i - 1] in path;
    var t := path[i - 1];
    var s := Cell(g, t);
    top := s[|s| - ds[i - 1]..];
    var g1 := UndoSteps(g, x0, y0, path, ds, i - 1);
    var g2 := SetCell(g1, t.0, t.1, s[..|s| - ds[i - 1]]);
    assert g2[x0][y0] == g1[x0][y0];
  }

  predicate EndsWith(s: Stack, t: seq<Stone>) {
    |t| <= |s| && s[|s| - |t|..] == t
  }

  /** Every cell of the path carries its group of stones on top, as after the drops of a slide. */
  predicate GroupsOnTop(g: Grid, path: seq<(int, int)>, c: seq<Stone>, ds: seq<int>) {
    DropsDefined(g, path, c, ds) && forall j :: 0 <= j < |ds| ==> EndsWith(Cell(g, path[j]), Group(c, ds, j))
  }

  lemma {:induction false} GroupsOnTopPops(g: Grid, path: seq<(int, int)>, c: seq<Stone>, ds: seq<int>, i: int)
    requires GroupsOnTop(g, path, c, ds) && 0 <= i <= |ds|
    ensures PopsFit(g, path, ds, i)
    decreases i
  {
    if i > 0 {
      GroupsOnTopPops(g, path, c, ds, i - 1);
      assert EndsWith(Cell(g, path[i - 1]), Group(c, ds, i - 1));
    }
  }

  /** Taking back the groups of the first i drops gives the first stones carried, in order. */
  lemma {:induction false} TakenIsCarried(g: Grid, path: seq<(int, int)>, c: seq<Stone>, ds: seq<int>, i: int)
    requires GroupsOnTop(g, path, c, ds) && 0 <= i <= |ds| && PopsFit(g, path, ds, i)
    ensures 0 <= Sum(ds[..i]) <= |c| && Taken(g, path, ds, i) == c[..Sum(ds[..i])]
    decreases i
  {
    SumPrefix(ds, i, i);
    if i == 0 {
      assert ds[..0] == [];
    } else {
      TakenIsCarried(g, path, c, ds, i - 1);
      TakenStep(g, path, c, ds, i);
      SumStep(ds, i - 1);
      SumPrefix(ds, i - 1, i);
      SliceJoin(c, Sum(ds[..i - 1]), Sum(ds[..i]));
    }
  }

  /** The stones popped from cell i - 1 are its group. */
  lemma TakenStep(g: Grid, path: seq<(int, int)>, c: seq<Stone>, ds: seq<int>, i: int)
    requires GroupsOnTop(g, path, c, ds) && 0 < i <= |ds| && PopsFit(g, path, ds, i)
    ensures PopsFit(g, path, ds, i - 1)
    ensures Taken(g, path, ds, i) == Taken(g, path, ds, i - 1) + Group(c, ds, i - 1)
  {
    assert EndsWith(Cell(g, path[i - 1]), Group(c, ds, i - 1));
  }

  lemma SliceJoin<T>(c: seq<T>, a: int, b: int)
    requires 0 <= a <= b <= |c|
    ensures c[..a] + c[a..b] == c[..b]
  {
  }

  /** After a legal slide, every cell of the path carries its group on top. */
  lemma SlideGroupsOnTop(p: Position, x0: int, y0: int, d: char, h: int, ds: seq<int>, white: bool)
    requires LegalSlide(p, x0, y0, d, h, ds, white)
    ensures var q := PerformSlide(p, x0, y0, d, h, ds).0;
      && GroupsOnTop(q.cells, Path(x0, y0, d, |ds|), Carried(p.cells[x0][y0], h), ds)
      && PopsFit(q.cells, Path(x0, y0, d, |ds|), ds, |ds|)
      && Taken(q.cells, Path(x0, y0, d, |ds|), ds, |ds|) == Carried(p.cells[x0][y0], h)
  {
    SlideLandsGroups(p, x0, y0, d, h, ds, white);
    GroupsTakenBack(PerformSlide(p, x0, y0, d, h, ds).0.cells, Path(x0, y0, d, |ds|), Carried(p.cells[x0][y0], h), ds);
  }

  lemma SlideLandsGroups(p: Position, x0: int, y0: int, d: char, h: int, ds: seq<int>, white: bool)
    requires LegalSlide(p, x0, y0, d, h, ds, white)
    ensures |Carried(p.cells[x0][y0], h)| == Sum(ds)
    ensures GroupsOnTop(PerformSlide(p, x0, y0, d, h, ds).0.cells, Path(x0, y0, d, |ds|), Carried(p.cells[x0][y0], h), ds)
  {
    var q := PerformSlide(p, x0, y0, d, h, ds).0;
    var path := Path(x0, y0, d, |ds|);
    var c := Carried(p.cells[x0][y0], h);
    forall j | 0 <= j < |ds| ensures EndsWith(Cell(q.cells, path[j]), Group(c, ds, j)) {
      SlideDest(p, x0, y0, d, h, ds, white, j);
    }
  }

  /** When the groups are on top of their cells, taking them all back gives the stones carried. */
  lemma GroupsTakenBack(g: Grid, path: seq<(int, int)>, c: seq<Stone>, ds: seq<int>)
    requires GroupsOnTop(g, path, c, ds) && Sum(ds) == |c|
    ensures PopsFit(g, path, ds, |ds|) && Taken(g, path, ds, |ds|) == c
  {
    GroupsOnTopPops(g, path, c, ds, |ds|);
    TakenIsCarried(g, path, c, ds, |ds|);
    assert ds[..|ds|] == ds;
  }

  /** Undoing the drops of a legal slide gives back the origin stack. */
  lemma UndoOriginAfterSlide(p: Position, x0: int, y0: int, d: char, h: int, ds: seq<int>, white: bool)
    requires LegalSlide(p, x0, y0, d, h, ds, white)
    ensures var q := PerformSlide(p, x0, y0, d, h, ds).0;
      && PopsFit(q.cells, Path(x0, y0, d, |ds|), ds, |ds|)
      && UndoSteps(q.cells, x0, y0, Path(x0, y0, d, |ds|), ds, |ds|)[x0][y0] == p.cells[x0][y0]
  {
    var q := PerformSlide(p, x0, y0, d, h, ds).0;
    var s := p.cells[x0][y0];
    SlideGroupsOnTop(p, x0, y0, d, h, ds, white);
    PathDistinct(x0, y0, d, |ds|);
    UndoStepsOrigin(q.cells, x0, y0, Path(x0, y0, d, |ds|), ds, |ds|);
    SlideOrigin(p, x0, y0, d, h, ds, white);
    assert s[..|s| - h] + s[|s| - h..] == s;
  }

  /**
   * Undoing the drops of a legal slide gives back every cell of the path,
   * except that a wall the slide crushed is still crushed.
   */
  lemma UndoPathAfterSlide(p: Position, x0: int, y0: int, d: char, h: int, ds: seq<int>, white: bool, j: int)
    requires LegalSlide(p, x0, y0, d, h, ds, white) && 0 <= j < |ds|
    ensures var q := PerformSlide(p, x0, y0, d, h, ds).0;
      var path := Path(x0, y0, d, |ds|);
      var s := Cell(p.cells, path[j]);
      && PopsFit(q.cells, path, ds, |ds|)
      && Cell(UndoSteps(q.cells, x0, y0, path, ds, |ds|), path[j]) ==
           if WallTop(s) then s[..|s| - 1] + [Crushed(Top(s))] else s
  {
    var q := PerformSlide(p, x0, y0, d, h, ds).0;
    var path := Path(x0, y0, d, |ds|);
    var c := Carried(p.cells[x0][y0], h);
    SlideGroupsOnTop(p, x0, y0, d, h, ds, white);
    PathDistinct(x0, y0, d, |ds|);
    UndoStepsHit(q.cells, x0, y0, path, ds, |ds|, j);
    SlideDest(p, x0, y0, d, h, ds, white, j);
    LandThenLift(Cell(p.cells, path[j]), Group(c, ds, j));
  }

  /** Undoing the drops of a legal slide leaves every cell off the path and the origin as it was before the slide. */
  lemma UndoOffAfterSlide(p: Position, x0: int, y0: int, d: char, h: int, ds: seq<int>, white: bool, a: int, b: int)
    requires LegalSlide(p, x0, y0, d, h, ds, white)
    requires InBounds(a, b) && (a, b) != (x0, y0) && (a, b) !in Path(x0, y0, d, |ds|)
    ensures var q := PerformSlide(p, x0, y0, d, h, ds).0;
      && PopsFit(q.cells, Path(x0, y0, d, |ds|), ds, |ds|)
      && UndoSteps(q.cells, x0, y0, Path(x0, y0, d, |ds|), ds, |ds|)[a][b] == p.cells[a][b]
  {
    var q := PerformSlide(p, x0, y0, d, h, ds).0;
    var path := Path(x0, y0, d, |ds|);
    SlideGroupsOnTop(p, x0, y0, d, h, ds, white);
    assert path[..|ds|] == path;
    UndoStepsMiss(q.cells, x0, y0, path, ds, |ds|, a, b);
    SlideOff(p, x0, y0, d, h, ds, white, a, b);
  }

  lemma UncrushCrushed(t: Stone)
    requires IsWall(t)
    ensures Uncrushed(Crushed(t)) == t
  {
  }

  /** A legal slide, undone with the crush flag it returned, meets what the undo steps need. */
  lemma UndoDefinedAfterSlide(p: Position, x0: int, y0: int, d: char, h: int, ds: seq<int>, white: bool)
    requires LegalSlide(p, x0, y0, d, h, ds, white)
    ensures var r := PerformSlide(p, x0, y0, d, h, ds);
      UndoSlideDefined(r.0, x0, y0, d, ds, r.1)
  {
    var r := PerformSlide(p, x0, y0, d, h, ds);
    var path := Path(x0, y0, d, |ds|);
    var t := path[|ds| - 1];
    SlideGroupsOnTop(p, x0, y0, d, h, ds, white);
    SlideFlag(p, x0, y0, d, h, ds, white);
    if r.1 {
      var u := UndoSteps(r.0.cells, x0, y0, path, ds, |ds|);
      UndoOriginAfterSlide(p, x0, y0, d, h, ds, white);
      UndoPathAfterSlide(p, x0, y0, d, h, ds, white, |ds| - 1);
      WallOnlyAtEnd(p, x0, y0, d, h, ds, white, |ds| - 1);
      assert CrushTop(Cell(u, t)) && CapTop(u[x0][y0]);
    }
  }

  /** Undoing a crushed wall's marker gives back the wall. */
  lemma Uncrush(s: Stack)
    requires WallTop(s)
    ensures var s' := s[..|s| - 1] + [Crushed(Top(s))];
      s'[..|s'| - 1] + [Uncrushed(Top(s'))] == s
  {
    var s' := s[..|s| - 1] + [Crushed(Top(s))];
    UncrushCrushed(Top(s));
    assert s'[..|s'| - 1] == s[..|s| - 1];
  }

  /** A legal slide, undone with the crush flag it returned, gives back each cell. */
  lemma UndoSlideCell(p: Position, x0: int, y0: int, d: char, h: int, ds: seq<int>, white: bool, a: int, b: int)
    requires LegalSlide(p, x0, y0, d, h, ds, white) && InBounds(a, b)
    ensures var r := PerformSlide(p, x0, y0, d, h, ds);
      UndoSlideDefined(r.0, x0, y0, d, ds, r.1) && UndoSlide(r.0, x0, y0, d, ds, r.1).cells[a][b] == p.cells[a][b]
  {
    var path := Path(x0, y0, d, |ds|);
    UndoDefinedAfterSlide(p, x0, y0, d, h, ds, white);
    SlideFlag(p, x0, y0, d, h, ds, white);
    PathDistinct(x0, y0, d, |ds|);
    if (a, b) == (x0, y0) {
      UndoOriginAfterSlide(p, x0, y0, d, h, ds, white);
    } else if (a, b) in path {
      var j :| 0 <= j < |ds| && path[j] == (a, b);
      UndoPathAfterSlide(p, x0, y0, d, h, ds, white, j);
      if WallTop(p.cells[a][b]) {
        WallOnlyAtEnd(p, x0, y0, d, h, ds, white, j);
        Uncrush(p.cells[a][b]);
      }
    } else {
      UndoOffAfterSlide(p, x0, y0, d, h, ds, white, a, b);
    }
  }

  /**
   * The slide round trip: a legal slide, undone with the crush flag it
   * returned, passes every assert of the undo and gives back the exact
   * position, every stack stone for stone and every reserve.
   */
  lemma SlideRoundTrip(p: Position, x0: int, y0: int, d: char, h: int, ds: seq<int>, white: bool)
    requires LegalSlide(p, x0, y0, d, h, ds, white)
    ensures var r := PerformSlide(p, x0, y0, d, h, ds);
      UndoSlideOk(r.0, x0, y0, d, ds, r.1, white) && UndoSlide(r.0, x0, y0, d, ds, r.1) == p
  {
    var r := PerformSlide(p, x0, y0, d, h, ds);
    UndoDefinedAfterSlide(p, x0, y0, d, h, ds, white);
    var v := UndoSlide(r.0, x0, y0, d, ds, r.1);
    forall a, b | InBounds(a, b) ensures v.cells[a][b] == p.cells[a][b] {
      UndoSlideCell(p, x0, y0, d, h, ds, white, a, b);
    }
    GridExt(v.cells, p.cells);
  }
}
