/**
 * What placing, sliding and undoing do to a position, stated on values.
 * The board class performs the same operations in place and is proved to
 * agree with these functions.
 */
module Rules {
  import opened Stones
  import opened Notation

  /** The stacks of the board and the four reserve counters. */
  datatype Position = Position(
    cells: Grid,
    whiteFlats: int,
    whiteCaps: int,
    blackFlats: int,
    blackCaps: int)

  predicate ValidPos(p: Position) { IsGrid(p.cells) }

  /** Every stack has walls and capstones only on top, as in every position of a game. */
  predicate WellFormed(p: Position) {
    && ValidPos(p)
    && (forall x, y :: 0 <= x < N && 0 <= y < N ==> WellStacked(p.cells[x][y]))
    && p.whiteFlats >= 0 && p.whiteCaps >= 0 && p.blackFlats >= 0 && p.blackCaps >= 0
  }

  /** `white_flats_rem` or `black_flats_rem`. */
  function FlatsLeft(p: Position, white: bool): int {
    if white then p.whiteFlats else p.blackFlats
  }

  /** `white_caps_rem` or `black_caps_rem`. */
  function CapsLeft(p: Position, white: bool): int {
    if white then p.whiteCaps else p.blackCaps
  }

  // ---------------------------------------------------------------- placement

  predicate IsKind(k: char) { k == 'F' || k == 'S' || k == 'C' }

  /** The stone a placement of kind F, S or C pushes for the given colour. */
  function PlacedStone(k: char, white: bool): (t: Stone)
    requires IsKind(k)
    ensures IsWhiteStone(t) == white
    ensures IsFlat(t) == (k == 'F') && IsWall(t) == (k == 'S') && IsCap(t) == (k == 'C')
  {
    if white then (if k == 'F' then WhiteFlat else if k == 'S' then WhiteWall else WhiteCap)
    else (if k == 'F' then BlackFlat else if k == 'S' then BlackWall else BlackCap)
  }

  /** `perform_placement`: push one stone, take it from the matching reserve. */
  function Place(p: Position, k: char, x: int, y: int, white: bool): Position
    requires ValidPos(p) && InBounds(x, y) && IsKind(k)
  {
    var q := p.(cells := SetCell(p.cells, x, y, p.cells[x][y] + [PlacedStone(k, white)]));
    if k == 'C' then
      (if white then q.(whiteCaps := p.whiteCaps - 1) else q.(blackCaps := p.blackCaps - 1))
    else
      (if white then q.(whiteFlats := p.whiteFlats - 1) else q.(blackFlats := p.blackFlats - 1))
  }

  /** The asserts of `undo_placement`: a single stone of the mover's colour, not a crushed wall. */
  predicate UndoPlaceOk(p: Position, x: int, y: int, white: bool) {
    && ValidPos(p) && InBounds(x, y)
    && |p.cells[x][y]| == 1
    && White(p.cells[x][y]) == white
    && !IsCrush(p.cells[x][y][0])
  }

  /** `undo_placement`: give the stone back to its reserve and empty the cell. */
  function UndoPlace(p: Position, x: int, y: int): Position
    requires ValidPos(p) && InBounds(x, y)
    requires |p.cells[x][y]| == 1 && !IsCrush(p.cells[x][y][0])
  {
    var t := p.cells[x][y][0];
    var q := p.(cells := SetCell(p.cells, x, y, []));
    if t == WhiteFlat || t == WhiteWall then q.(whiteFlats := p.whiteFlats + 1)
    else if t == WhiteCap then q.(whiteCaps := p.whiteCaps + 1)
    else if t == BlackFlat || t == BlackWall then q.(blackFlats := p.blackFlats + 1)
    else q.(blackCaps := p.blackCaps + 1)
  }

  // ---------------------------------------------------------------- slides

  function Sum(ds: seq<int>): int {
    if ds == [] then 0 else Sum(ds[..|ds| - 1]) + ds[|ds| - 1]
  }

  predicate NonNeg(ds: seq<int>) { forall i :: 0 <= i < |ds| ==> ds[i] >= 0 }

  lemma {:induction false} SumPrefix(ds: seq<int>, i: int, j: int)
    requires NonNeg(ds) && 0 <= i <= j <= |ds|
    ensures 0 <= Sum(ds[..i]) <= Sum(ds[..j]) <= Sum(ds)
    decreases |ds|
  {
    if ds != [] {
      var ds' := ds[..|ds| - 1];
      if j < |ds| {
        assert ds'[..i] == ds[..i] && ds'[..j] == ds[..j];
        SumPrefix(ds', i, j);
      } else {
        assert ds[..j] == ds;
        var i' := if i < j then i else |ds'|;
        assert ds'[..i'] == ds[..i'] && ds'[..|ds'|] == ds';
        SumPrefix(ds', i', |ds'|);
      }
    }
  }

  lemma SumStep(ds: seq<int>, i: int)
    requires 0 <= i < |ds|
    ensures Sum(ds[..i + 1]) == Sum(ds[..i]) + ds[i]
  {
    assert ds[..i + 1][..i] == ds[..i];
  }

  /**
   * One stone lands on a stack. If the stack is topped by a wall, the wall
   * becomes a crushed marker of its own colour and the landing is reported.
   */
  function DropStone(s: Stack, t: Stone): (Stack, bool) {
    if WallTop(s) then (s[..|s| - 1] + [Crushed(Top(s))] + [t], true)
    else (s + [t], false)
  }

  /** The stones of `g` land one after the other, `g[0]` first. */
  function DropGroup(s: Stack, g: seq<Stone>): (Stack, bool)
    decreases |g|
  {
    if g == [] then (s, false)
    else
      var r1 := DropGroup(s, g[..|g| - 1]);
      var r2 := DropStone(r1.0, g[|g| - 1]);
      (r2.0, r1.1 || r2.1)
  }

  /** The assert of `perform_motion`: every stone that lands on a wall is a capstone. */
  predicate GroupOk(s: Stack, g: seq<Stone>) {
    && (|g| > 0 && WallTop(s) ==> IsCap(g[0]))
    && (forall k :: 0 < k < |g| && IsWall(g[k - 1]) ==> IsCap(g[k]))
  }

  /** Every cell of the path is on the board. */
  predicate OnBoardAll(path: seq<(int, int)>) {
    forall i :: 0 <= i < |path| ==> OnBoard(path[i])
  }

  /** The stones carried by a slide of h: the top h of the origin, bottom first. */
  function Carried(s: Stack, h: int): seq<Stone>
    requires 0 <= h <= |s|
  {
    s[|s| - h..]
  }

  /** The stones of drop i: the next `ds[i]` carried stones, taken from the bottom. */
  function Group(c: seq<Stone>, ds: seq<int>, i: int): (r: seq<Stone>)
    requires NonNeg(ds) && 0 <= i < |ds| && Sum(ds) <= |c|
    ensures |r| == ds[i]
  {
    SumPrefix(ds, i, i + 1);
    SumStep(ds, i);
    c[Sum(ds[..i])..Sum(ds[..i + 1])]
  }

  /** What the drops of a slide need: one cell per drop, all on the board, and enough carried stones. */
  predicate DropsDefined(g: Grid, path: seq<(int, int)>, c: seq<Stone>, ds: seq<int>) {
    IsGrid(g) && NonNeg(ds) && Sum(ds) <= |c| && |path| == |ds| && OnBoardAll(path)
  }

  /** The first i drops of a slide carrying `c` along `path`, and whether any stone landed on a wall. */
  function SlideDrops(g: Grid, path: seq<(int, int)>, c: seq<Stone>, ds: seq<int>, i: int): (r: (Grid, bool))
    requires DropsDefined(g, path, c, ds) && 0 <= i <= |ds|
    ensures IsGrid(r.0)
    decreases i
  {
    if i == 0 then (g, false)
    else
      var r1 := SlideDrops(g, path, c, ds, i - 1);
      var t := path[i - 1];
      var r2 := DropGroup(Cell(r1.0, t), Group(c, ds, i - 1));
      (SetCell(r1.0, t.0, t.1, r2.0), r1.1 || r2.1)
  }

  /** The landing asserts hold for each of the first i drops, in the state that drop meets. */
  predicate LandingsOk(g: Grid, path: seq<(int, int)>, c: seq<Stone>, ds: seq<int>, i: int)
    requires DropsDefined(g, path, c, ds) && 0 <= i <= |ds|
    decreases i
  {
    i == 0 ||
    (&& LandingsOk(g, path, c, ds, i - 1)
     && GroupOk(Cell(SlideDrops(g, path, c, ds, i - 1).0, path[i - 1]), Group(c, ds, i - 1)))
  }

  /** What `perform_motion` needs for every step to be defined. */
  predicate SlideDefined(p: Position, x0: int, y0: int, d: char, h: int, ds: seq<int>) {
    && ValidPos(p) && InBounds(x0, y0) && IsDir(d)
    && 0 <= h <= |p.cells[x0][y0]|
    && NonNeg(ds) && Sum(ds) <= h
    && OnBoardAll(Path(x0, y0, d, |ds|))
  }

  /** The origin once the h carried stones are lifted off. */
  function Lifted(p: Position, x0: int, y0: int, h: int): (g: Grid)
    requires ValidPos(p) && InBounds(x0, y0) && 0 <= h <= |p.cells[x0][y0]|
    ensures IsGrid(g)
  {
    var s := p.cells[x0][y0];
    SetCell(p.cells, x0, y0, s[..|s| - h])
  }

  /**
   * `perform_motion`: lift the top h stones off (x0, y0), then for each drop
   * step once in direction d and let the next `ds[i]` stones land there.
   * The flag says whether any stone landed on a wall.
   */
  function PerformSlide(p: Position, x0: int, y0: int, d: char, h: int, ds: seq<int>): (Position, bool)
    requires SlideDefined(p, x0, y0, d, h, ds)
  {
    var r := SlideDrops(Lifted(p, x0, y0, h), Path(x0, y0, d, |ds|), Carried(p.cells[x0][y0], h), ds, |ds|);
    (p.(cells := r.0), r.1)
  }

  /** The asserts of `perform_motion`. */
  predicate SlideOk(p: Position, x0: int, y0: int, d: char, h: int, ds: seq<int>, white: bool) {
    && SlideDefined(p, x0, y0, d, h, ds)
    && |p.cells[x0][y0]| > 0
    && White(p.cells[x0][y0]) == white
    && LandingsOk(Lifted(p, x0, y0, h), Path(x0, y0, d, |ds|), Carried(p.cells[x0][y0], h), ds, |ds|)
  }

  /**
   * What `undo_motion` needs of the first i cells along the path: each
   * holds at least the stones its drop takes back.
   */
  predicate PopsFit(g: Grid, path: seq<(int, int)>, ds: seq<int>, i: int)
    requires IsGrid(g) && |path| == |ds| && OnBoardAll(path) && 0 <= i <= |ds|
    decreases i
  {
    i == 0 || (PopsFit(g, path, ds, i - 1) && 0 <= ds[i - 1] <= |Cell(g, path[i - 1])|)
  }

  /**
   * The first i steps of `undo_motion`: the top `ds[j]` stones of the j-th
   * cell of the path go back onto the origin, keeping their order. No step
   * touches a cell of the path twice, so each cell is read as it was before
   * the undo.
   */
  function UndoSteps(g: Grid, x0: int, y0: int, path: seq<(int, int)>, ds: seq<int>, i: int): (r: Grid)
    requires IsGrid(g) && InBounds(x0, y0) && |path| == |ds| && OnBoardAll(path) && 0 <= i <= |ds|
    requires PopsFit(g, path, ds, i)
    ensures IsGrid(r)
    decreases i
  {
    if i == 0 then g
    else
      var g1 := UndoSteps(g, x0, y0, path, ds, i - 1);
      var t := path[i - 1];
      var s := Cell(g, t);
      var k := ds[i - 1];
      var g2 := SetCell(g1, t.0, t.1, s[..|s| - k]);
      SetCell(g2, x0, y0, g2[x0][y0] + s[|s| - k..])
  }

  /** What `undo_motion` needs for every step to be defined. */
  predicate UndoSlideDefined(p: Position, x0: int, y0: int, d: char, ds: seq<int>, uncrush: bool) {
    && ValidPos(p) && InBounds(x0, y0) && IsDir(d)
    && OnBoardAll(Path(x0, y0, d, |ds|))
    && PopsFit(p.cells, Path(x0, y0, d, |ds|), ds, |ds|)
    && (uncrush ==>
         var g := UndoSteps(p.cells, x0, y0, Path(x0, y0, d, |ds|), ds, |ds|);
         CrushTop(Cell(g, At(x0, y0, d, |ds|))) && CapTop(g[x0][y0]))
  }

  /**
   * `undo_motion`: move the dropped stones back onto the origin in their
   * original order; with `uncrush`, the crushed marker on the last cell
   * visited becomes a wall again.
   */
  function UndoSlide(p: Position, x0: int, y0: int, d: char, ds: seq<int>, uncrush: bool): (q: Position)
    requires UndoSlideDefined(p, x0, y0, d, ds, uncrush)
    ensures ValidPos(q)
  {
    var g := UndoSteps(p.cells, x0, y0, Path(x0, y0, d, |ds|), ds, |ds|);
    if uncrush then
      var t := At(x0, y0, d, |ds|);
      var s := Cell(g, t);
      p.(cells := SetCell(g, t.0, t.1, s[..|s| - 1] + [Uncrushed(Top(s))]))
    else p.(cells := g)
  }

  /** The asserts of `undo_motion`, the last one on the restored origin. */
  predicate UndoSlideOk(p: Position, x0: int, y0: int, d: char, ds: seq<int>, uncrush: bool, white: bool) {
    && UndoSlideDefined(p, x0, y0, d, ds, uncrush)
    && White(UndoSlide(p, x0, y0, d, ds, uncrush).cells[x0][y0]) == white
  }

  // ---------------------------------------------------------------- moves

  /** What `perform_move` requires of a move text on a position. */
  predicate PerformOk(p: Position, m: Move, white: bool) {
    && ValidPos(p)
    && if IsPlacement(m) then PlacementText(m)
       else SlideText(m) && SlideOk(p, Square(m).0, Square(m).1, m[3], Count(m), Drops(m), white)
  }

  /** `perform_move`: the position after the move and the crush flag. */
  function PerformMove(p: Position, m: Move, white: bool): (r: (Position, bool))
    requires PerformOk(p, m, white)
    ensures ValidPos(r.0)
  {
    SquareInBounds(m[1], m[2]);
    var x, y := Square(m).0, Square(m).1;
    if IsPlacement(m) then (Place(p, m[0], x, y, white), false)
    else PerformSlide(p, x, y, m[3], Count(m), Drops(m))
  }

  /** What `undo_move` requires of a move text, a position and a crush flag. */
  predicate UndoOk(p: Position, m: Move, white: bool, uncrush: bool) {
    && ValidPos(p)
    && if IsPlacement(m) then
         PlacementText(m) && !uncrush && UndoPlaceOk(p, Square(m).0, Square(m).1, white)
       else
         SlideText(m) && UndoSlideOk(p, Square(m).0, Square(m).1, m[3], Drops(m), uncrush, white)
  }

  /** `undo_move`. */
  function UndoMove(p: Position, m: Move, white: bool, uncrush: bool): (q: Position)
    requires UndoOk(p, m, white, uncrush)
    ensures ValidPos(q)
  {
    var x, y := Square(m).0, Square(m).1;
    if IsPlacement(m) then UndoPlace(p, x, y)
    else UndoSlide(p, x, y, m[3], Drops(m), uncrush)
  }

  /**
   * The moves the generator offers: a placement on an empty cell from a
   * reserve that is not used up, or a slide whose drops are all positive,
   * add up to the stones carried and land on no capstone.
   */
  predicate Legal(p: Position, m: Move, white: bool) {
    && PerformOk(p, m, white)
    && if IsPlacement(m) then
         && Empty(p.cells[Square(m).0][Square(m).1])
         && (if m[0] == 'C' then CapsLeft(p, white) > 0 else FlatsLeft(p, white) > 0)
       else
         && |Drops(m)| > 0
         && (forall i :: 0 <= i < |Drops(m)| ==> Drops(m)[i] >= 1)
         && Sum(Drops(m)) == Count(m)
         && forall j :: 0 <= j < |Drops(m)| ==> !CapTop(Cell(p.cells, Path(Square(m).0, Square(m).1, m[3], |Drops(m)|)[j]))
  }
}
