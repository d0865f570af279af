/**
 * Properties of whole moves: a legal move undone with the flag it returned
 * gives back the position, and a legal move keeps every stack well formed.
 */
module MoveLaws {
  import opened Stones
  import opened Notation
  import opened Rules
  import opened SlideLaws

  /**
   * The placement round trip: placing a stone on an empty cell pushes
   * exactly that one stone of the mover's colour and takes it from the
   * matching reserve; undoing it passes the undo's asserts and gives back
   * the exact position.
   */
  lemma PlacementRoundTrip(p: Position, k: char, x: int, y: int, white: bool)
    requires ValidPos(p) && InBounds(x, y) && IsKind(k) && Empty(p.cells[x][y])
    ensures var q := Place(p, k, x, y, white);
      && q.cells[x][y] == [PlacedStone(k, white)]
      && (forall a, b {:trigger q.cells[a][b]} :: InBounds(a, b) && (a, b) != (x, y) ==> q.cells[a][b] == p.cells[a][b])
      && FlatsLeft(q, white) == FlatsLeft(p, white) - (if k == 'C' then 0 else 1)
      && CapsLeft(q, white) == CapsLeft(p, white) - (if k == 'C' then 1 else 0)
      && FlatsLeft(q, !white) == FlatsLeft(p, !white) && CapsLeft(q, !white) == CapsLeft(p, !white)
      && UndoPlaceOk(q, x, y, white) && UndoPlace(q, x, y) == p
  {
    var q := Place(p, k, x, y, white);
    assert p.cells[x][y] + [PlacedStone(k, white)] == [PlacedStone(k, white)];
    var u := UndoPlace(q, x, y);
    assert SetCell(q.cells, x, y, []) == p.cells by {
      GridExt(SetCell(q.cells, x, y, []), p.cells);
    }
  }

  /** A legal slide carries everything `SlideLaws` needs. */
  lemma LegalIsLegalSlide(p: Position, m: Move, white: bool)
    requires WellFormed(p) && Legal(p, m, white) && !IsPlacement(m)
    ensures LegalSlide(p, Square(m).0, Square(m).1, m[3], Count(m), Drops(m), white)
  {
  }

  /**
   * The move round trip: a legal move, undone with the crush flag it
   * returned, passes every assert of `undo_move` and gives back the exact
   * position.
   */
  lemma MoveRoundTrip(p: Position, m: Move, white: bool)
    requires WellFormed(p) && Legal(p, m, white)
    ensures var r := PerformMove(p, m, white);
      UndoOk(r.0, m, white, r.1) && UndoMove(r.0, m, white, r.1) == p
  {
    SquareInBounds(m[1], m[2]);
    if IsPlacement(m) {
      PlacementRoundTrip(p, m[0], Square(m).0, Square(m).1, white);
    } else {
      LegalIsLegalSlide(p, m, white);
      SlideRoundTrip(p, Square(m).0, Square(m).1, m[3], Count(m), Drops(m), white);
    }
  }

  // ---------------------------------------------------------------- well-formed stacks

  /** Every stone of the sequence is a flat or a crushed wall. */
  predicate Buried(g: seq<Stone>) {
    forall k :: 0 <= k < |g| ==> IsFlat(g[k]) || IsCrush(g[k])
  }

  /** A group lands on a well-stacked cell that has no capstone on top: the result is well stacked. */
  lemma LandWellStacked(s: Stack, g: seq<Stone>)
    requires WellStacked(s) && WellStacked(g)
    requires |g| > 0 ==> !CapTop(s)
    ensures WellStacked(Land(s, g))
  {
    if |g| > 0 && |s| > 0 {
      var b := if WallTop(s) then s[..|s| - 1] + [Crushed(Top(s))] else s;
      assert Buried(b);
      assert Land(s, g) == b + g;
    } else if |g| == 0 {
      assert Land(s, g) == s;
    } else {
      assert Land(s, g) == g;
    }
  }

  /** Each group of stones carried off a well-stacked cell is itself well stacked. */
  lemma GroupWellStacked(s: Stack, h: int, ds: seq<int>, j: int)
    requires WellStacked(s) && 0 <= h <= |s| && NonNeg(ds) && Sum(ds) <= h && 0 <= j < |ds|
    ensures WellStacked(Group(Carried(s, h), ds, j))
  {
    SumStep(ds, j);
    SumPrefix(ds, j, j + 1);
  }

  /** A legal slide from a well-formed position leaves every stack well stacked. */
  lemma SlideWellStacked(p: Position, m: Move, white: bool, a: int, b: int)
    requires WellFormed(p) && Legal(p, m, white) && !IsPlacement(m) && InBounds(a, b)
    ensures WellStacked(PerformMove(p, m, white).0.cells[a][b])
  {
    SquareInBounds(m[1], m[2]);
    var x0, y0, d, h, ds := Square(m).0, Square(m).1, m[3], Count(m), Drops(m);
    var path := Path(x0, y0, d, |ds|);
    var s := p.cells[x0][y0];
    LegalIsLegalSlide(p, m, white);
    if (a, b) == (x0, y0) {
      SlideOrigin(p, x0, y0, d, h, ds, white);
    } else if (a, b) in path {
      var j :| 0 <= j < |ds| && path[j] == (a, b);
      SlideDest(p, x0, y0, d, h, ds, white, j);
      GroupWellStacked(s, h, ds, j);
      LandWellStacked(Cell(p.cells, path[j]), Group(Carried(s, h), ds, j));
    } else {
      SlideOff(p, x0, y0, d, h, ds, white, a, b);
    }
  }

  /** A legal move keeps a well-formed position well formed: walls and capstones stay on top, no reserve goes negative. */
  lemma LegalPreservesWellFormed(p: Position, m: Move, white: bool)
    requires WellFormed(p) && Legal(p, m, white)
    ensures WellFormed(PerformMove(p, m, white).0)
  {
    var q := PerformMove(p, m, white).0;
    SquareInBounds(m[1], m[2]);
    if IsPlacement(m) {
      PlacementRoundTrip(p, m[0], Square(m).0, Square(m).1, white);
    } else {
      LegalIsLegalSlide(p, m, white);
      SlideEffect(p, Square(m).0, Square(m).1, m[3], Count(m), Drops(m), white);
    }
    forall a, b | 0 <= a < N && 0 <= b < N ensures WellStacked(q.cells[a][b]) {
      if !IsPlacement(m) {
        SlideWellStacked(p, m, white, a, b);
      }
    }
  }
}
