/**
 * The static evaluation of a position: `evaluate_captives`,
 * `evaluate_tops`, `evaluate_central_control`, `evaluate_helper` and
 * `evaluate`. `evaluate_components` is in module Components.
 */
module Evaluation {
  import opened Stones
  import opened Boards
  import opened Components

  /** The per-cell terms the evaluation adds up over the board. */
  datatype Term = CaptivesTerm | TopsTerm | KindTerm | RingTerm

  /** The value of term t on cell (x, y) for colour c. */
  function CellTerm(t: Term, g: Grid, c: bool, x: int, y: int): int
    requires IsGrid(g) && InBounds(x, y)
  {
    match t
    case CaptivesTerm => CellCaptives(g[x][y], c)
    case TopsTerm => TopValue(g[x][y], c)
    case KindTerm => KindValue(g[x][y])
    case RingTerm => RingWeight(x, y) * Held(g, c, x, y)
  }

  /** The sum of term t over the cells (x, 0) .. (x, n - 1). */
  function ColumnSum(t: Term, g: Grid, c: bool, x: int, n: int): int
    requires IsGrid(g) && 0 <= x < N && 0 <= n <= N
  {
    if n == 0 then 0 else ColumnSum(t, g, c, x, n - 1) + CellTerm(t, g, c, x, n - 1)
  }

  /** The sum of term t over the columns 0 .. m - 1, in the order of the two nested loops. */
  function GridSum(t: Term, g: Grid, c: bool, m: int): int
    requires IsGrid(g) && 0 <= m <= N
  {
    if m == 0 then 0 else GridSum(t, g, c, m - 1) + ColumnSum(t, g, c, m - 1, N)
  }

  /** A column sum written out cell by cell. */
  lemma ColumnSumCells(t: Term, g: Grid, c: bool, x: int)
    requires IsGrid(g) && 0 <= x < N
    ensures ColumnSum(t, g, c, x, N) == CellTerm(t, g, c, x, 0) + CellTerm(t, g, c, x, 1)
      + CellTerm(t, g, c, x, 2) + CellTerm(t, g, c, x, 3) + CellTerm(t, g, c, x, 4)
  {
    assert ColumnSum(t, g, c, x, 1) == CellTerm(t, g, c, x, 0);
    assert ColumnSum(t, g, c, x, 2) == ColumnSum(t, g, c, x, 1) + CellTerm(t, g, c, x, 1);
    assert ColumnSum(t, g, c, x, 3) == ColumnSum(t, g, c, x, 2) + CellTerm(t, g, c, x, 2);
    assert ColumnSum(t, g, c, x, 4) == ColumnSum(t, g, c, x, 3) + CellTerm(t, g, c, x, 3);
  }

  /** A board sum written out column by column. */
  lemma GridSumColumns(t: Term, g: Grid, c: bool)
    requires IsGrid(g)
    ensures GridSum(t, g, c, N) == ColumnSum(t, g, c, 0, N) + ColumnSum(t, g, c, 1, N)
      + ColumnSum(t, g, c, 2, N) + ColumnSum(t, g, c, 3, N) + ColumnSum(t, g, c, 4, N)
  {
    assert GridSum(t, g, c, 1) == ColumnSum(t, g, c, 0, N);
    assert GridSum(t, g, c, 2) == GridSum(t, g, c, 1) + ColumnSum(t, g, c, 1, N);
    assert GridSum(t, g, c, 3) == GridSum(t, g, c, 2) + ColumnSum(t, g, c, 2, N);
    assert GridSum(t, g, c, 4) == GridSum(t, g, c, 3) + ColumnSum(t, g, c, 3, N);
  }

  lemma {:induction false} ColumnSumZero(t: Term, g: Grid, c: bool, x: int, n: int)
    requires IsGrid(g) && 0 <= x < N && 0 <= n <= N
    requires forall y :: 0 <= y < n ==> CellTerm(t, g, c, x, y) == 0
    ensures ColumnSum(t, g, c, x, n) == 0
  {
    if n > 0 {
      ColumnSumZero(t, g, c, x, n - 1);
    }
  }

  /** A term that is 0 on every cell sums to 0 over the board. */
  lemma {:induction false} GridSumZero(t: Term, g: Grid, c: bool, m: int)
    requires IsGrid(g) && 0 <= m <= N
    requires forall x, y :: InBounds(x, y) ==> CellTerm(t, g, c, x, y) == 0
    ensures GridSum(t, g, c, m) == 0
  {
    if m > 0 {
      GridSumZero(t, g, c, m - 1);
      ColumnSumZero(t, g, c, m - 1, N);
    }
  }

  // ---------------------------------------------------------------------
  // Captives

  /**
   * `FLAT_CAPTIVES`, `WALL_CAPTIVES`, `CAPS_CAPTIVES`: what a stone buried
   * under the top scores, by the kind of the top and by whether the top is
   * of the stone's own colour.
   */
  function CaptiveValue(s: Stack, same: bool): int
    requires |s| > 0
  {
    if CapTop(s) then (if same then 250 else -150)
    else if WallTop(s) then (if same then 300 else -150)
    else (if same then 200 else -200)
  }

  /** What the h-th stone of s scores for colour c: nothing unless it is of colour c. */
  function LevelCaptive(s: Stack, c: bool, h: int): int
    requires 0 <= h < |s|
  {
    if IsWhiteStone(s[h]) != c then 0 else CaptiveValue(s, White(s) == c)
  }

  /** The levels 0 .. n - 1 of s. */
  function Levels(s: Stack, c: bool, n: int): int
    requires 0 <= n <= |s|
  {
    if n == 0 then 0 else Levels(s, c, n - 1) + LevelCaptive(s, c, n - 1)
  }

  /** The captive score of one stack: nothing for a stack of height at most 1, else the levels under the top. */
  function CellCaptives(s: Stack, c: bool): int {
    if |s| <= 1 then 0 else Levels(s, c, |s| - 1)
  }

  /** The stones of colour c among the first n of s. */
  function Buried(s: Stack, c: bool, n: int): (r: int)
    requires 0 <= n <= |s|
    ensures 0 <= r <= n
  {
    if n == 0 then 0 else Buried(s, c, n - 1) + (if IsWhiteStone(s[n - 1]) == c then 1 else 0)
  }

  lemma {:induction false} LevelsCount(s: Stack, c: bool, n: int)
    requires 0 < |s| && 0 <= n <= |s|
    ensures Levels(s, c, n) == Buried(s, c, n) * CaptiveValue(s, White(s) == c)
  {
    if n > 0 {
      LevelsCount(s, c, n - 1);
    }
  }

  /**
   * A stack scores, for colour c, one fixed value per stone of colour c
   * under its top: positive when c holds the top, negative otherwise.
   */
  lemma CaptivesPerStone(s: Stack, c: bool)
    requires |s| > 1
    ensures CellCaptives(s, c) == Buried(s, c, |s| - 1) * CaptiveValue(s, White(s) == c)
    ensures White(s) == c ==> CellCaptives(s, c) >= 0
    ensures White(s) != c ==> CellCaptives(s, c) <= 0
  {
    LevelsCount(s, c, |s| - 1);
  }

  /** `evaluate_captives`. */
  function Captives(g: Grid, c: bool): int
    requires IsGrid(g)
  {
    GridSum(CaptivesTerm, g, c, N)
  }

  /** The loop over the levels under the top of one stack. */
  method StackCaptives(b: Board, c: bool, x: int, y: int) returns (v: int)
    requires b.Valid() && InBounds(x, y)
    ensures v == CellCaptives(b.cells[x][y], c)
  {
    var s := b.grid[x, y];
    v := 0;
    if |s| <= 1 {
      return;
    }
    var topColour := White(s);
    for h := 0 to |s| - 1
      invariant v == Levels(s, c, h)
    {
      var stoneColour := IsWhiteStone(s[h]);
      if stoneColour != c {
        continue;
      }
      var same := topColour == stoneColour;
      if CapTop(s) {
        v := v + (if same then 250 else -150);
      } else if WallTop(s) {
        v := v + (if same then 300 else -150);
      } else if FlatTop(s) {
        v := v + (if same then 200 else -200);
      } else {
        assert CrushTop(s);
        v := v + (if same then 200 else -200);
      }
    }
  }

  /** `evaluate_captives`: every cell, column by column. */
  method EvaluateCaptives(b: Board, c: bool) returns (score: int)
    requires b.Valid()
    ensures score == Captives(b.cells, c)
  {
    score := 0;
    for x := 0 to N
      invariant score == GridSum(CaptivesTerm, b.cells, c, x)
    {
      score := CaptivesColumn(b, c, x, score);
    }
  }

  /** The inner loop of `evaluate_captives`, over the cells of column x. */
  method CaptivesColumn(b: Board, c: bool, x: int, score: int) returns (score': int)
    requires b.Valid() && 0 <= x < N
    ensures score' == score + ColumnSum(CaptivesTerm, b.cells, c, x, N)
  {
    score' := score;
    for y := 0 to N
      invariant score' == score + ColumnSum(CaptivesTerm, b.cells, c, x, y)
    {
      var v := StackCaptives(b, c, x, y);
      score' := score' + v;
    }
  }

  // ---------------------------------------------------------------------
  // Tops

  /** What the top of a stack scores by its kind: capstone 300, flat 400, wall 200, crushed wall 400. */
  function KindValue(s: Stack): int {
    if CapTop(s) then 300
    else if FlatTop(s) then 400
    else if WallTop(s) then 200
    else if CrushTop(s) then 400
    else 0
  }

  /**
   * The tops term of one stack for colour c: the kind value when `white`
   * of the cell equals c. For black this includes the empty cells, which
   * score nothing.
   */
  function TopValue(s: Stack, c: bool): int {
    if White(s) == c then KindValue(s) else 0
  }

  /** `evaluate_tops`. */
  function TopsScore(g: Grid, c: bool): int
    requires IsGrid(g)
  {
    GridSum(TopsTerm, g, c, N)
  }

  lemma {:induction false} TopsShareColumn(g: Grid, x: int, n: int)
    requires IsGrid(g) && 0 <= x < N && 0 <= n <= N
    ensures ColumnSum(TopsTerm, g, true, x, n) + ColumnSum(TopsTerm, g, false, x, n) == ColumnSum(KindTerm, g, true, x, n)
  {
    if n > 0 {
      TopsShareColumn(g, x, n - 1);
    }
  }

  lemma {:induction false} TopsShareUpTo(g: Grid, m: int)
    requires IsGrid(g) && 0 <= m <= N
    ensures GridSum(TopsTerm, g, true, m) + GridSum(TopsTerm, g, false, m) == GridSum(KindTerm, g, true, m)
  {
    if m > 0 {
      TopsShareUpTo(g, m - 1);
      TopsShareColumn(g, m - 1, N);
    }
  }

  /**
   * Each occupied cell is scored for exactly one colour: the tops terms of
   * the two colours add up to the kind values of all the tops on the board.
   */
  lemma TopsShare(g: Grid)
    requires IsGrid(g)
    ensures TopsScore(g, true) + TopsScore(g, false) == GridSum(KindTerm, g, true, N)
  {
    TopsShareUpTo(g, N);
  }

  /** The body of the loops of `evaluate_tops` on cell (x, y). */
  method TopScore(b: Board, c: bool, x: int, y: int) returns (v: int)
    requires b.Valid() && InBounds(x, y)
    ensures v == TopValue(b.cells[x][y], c)
  {
    var s := b.grid[x, y];
    v := 0;
    if White(s) == c {
      if TopIs(s, WhiteCap) || TopIs(s, BlackCap) {
        v := 300;
      } else if TopIs(s, WhiteFlat) || TopIs(s, BlackFlat) {
        v := 400;
      } else if TopIs(s, WhiteWall) || TopIs(s, BlackWall) {
        v := 200;
      } else if TopIs(s, WhiteCrush) || TopIs(s, BlackCrush) {
        v := 400;
      } else {
        assert Empty(s);
      }
    }
  }

  /** `evaluate_tops`: every cell, column by column. */
  method EvaluateTops(b: Board, c: bool) returns (score: int)
    requires b.Valid()
    ensures score == TopsScore(b.cells, c)
  {
    score := 0;
    for x := 0 to N
      invariant score == GridSum(TopsTerm, b.cells, c, x)
    {
      score := TopsColumn(b, c, x, score);
    }
  }

  /** The inner loop of `evaluate_tops`, over the cells of column x. */
  method TopsColumn(b: Board, c: bool, x: int, score: int) returns (score': int)
    requires b.Valid() && 0 <= x < N
    ensures score' == score + ColumnSum(TopsTerm, b.cells, c, x, N)
  {
    score' := score;
    for y := 0 to N
      invariant score' == score + ColumnSum(TopsTerm, b.cells, c, x, y)
    {
      var v := TopScore(b, c, x, y);
      score' := score' + v;
    }
  }

  // ---------------------------------------------------------------------
  // Central control

  /** `(int)(white(x, y) && player_color)`. */
  function Held(g: Grid, c: bool, x: int, y: int): int
    requires IsGrid(g) && InBounds(x, y)
  {
    if White(g[x][y]) && c then 1 else 0
  }

  /**
   * `evaluate_central_control`: the cells held, counted ring by ring
   * (n0 .. n4) and weighted by `CENTRE_WEIGHTS` {40, 35, 24, 12, 5}. A
   * cell counts only when it is white and the colour asked for is white.
   */
  function CentralControl(g: Grid, c: bool): int
    requires IsGrid(g)
  {
    var n0 := Held(g, c, 2, 2);
    var n1 := Held(g, c, 2, 1) + Held(g, c, 1, 2) + Held(g, c, 2, 3) + Held(g, c, 3, 2);
    var n2 := Held(g, c, 2, 0) + Held(g, c, 1, 1) + Held(g, c, 0, 2) + Held(g, c, 1, 3)
            + Held(g, c, 2, 4) + Held(g, c, 3, 3) + Held(g, c, 4, 2) + Held(g, c, 3, 1);
    var n3 := Held(g, c, 1, 0) + Held(g, c, 0, 1) + Held(g, c, 0, 3) + Held(g, c, 3, 0)
            + Held(g, c, 3, 4) + Held(g, c, 4, 3) + Held(g, c, 1, 4) + Held(g, c, 4, 1);
    var n4 := Held(g, c, 0, 0) + Held(g, c, 0, 4) + Held(g, c, 4, 0) + Held(g, c, 4, 4);
    40 * n0 + 35 * n1 + 24 * n2 + 12 * n3 + 5 * n4
  }

  function Abs(a: int): int {
    if a < 0 then -a else a
  }

  /** `CENTRE_WEIGHTS` indexed by the distance |x - 2| + |y - 2| from the centre. */
  function RingWeight(x: int, y: int): int
    requires InBounds(x, y)
  {
    var d := Abs(x - 2) + Abs(y - 2);
    if d == 0 then 40 else if d == 1 then 35 else if d == 2 then 24 else if d == 3 then 12 else 5
  }

  /**
   * The cells listed ring by ring are exactly the cells at each distance
   * from the centre: central control is the sum over the board of the
   * weight of each held cell's distance to the centre.
   */
  lemma CentralRings(g: Grid, c: bool)
    requires IsGrid(g)
    ensures CentralControl(g, c) == GridSum(RingTerm, g, c, N)
  {
    GridSumColumns(RingTerm, g, c);
    assert ColumnSum(RingTerm, g, c, 0, N) == 5 * Held(g, c, 0, 0) + 12 * Held(g, c, 0, 1) + 24 * Held(g, c, 0, 2) + 12 * Held(g, c, 0, 3) + 5 * Held(g, c, 0, 4) by {
      ColumnSumCells(RingTerm, g, c, 0);
    }
    assert ColumnSum(RingTerm, g, c, 1, N) == 12 * Held(g, c, 1, 0) + 24 * Held(g, c, 1, 1) + 35 * Held(g, c, 1, 2) + 24 * Held(g, c, 1, 3) + 12 * Held(g, c, 1, 4) by {
      ColumnSumCells(RingTerm, g, c, 1);
    }
    assert ColumnSum(RingTerm, g, c, 2, N) == 24 * Held(g, c, 2, 0) + 35 * Held(g, c, 2, 1) + 40 * Held(g, c, 2, 2) + 35 * Held(g, c, 2, 3) + 24 * Held(g, c, 2, 4) by {
      ColumnSumCells(RingTerm, g, c, 2);
    }
    assert ColumnSum(RingTerm, g, c, 3, N) == 12 * Held(g, c, 3, 0) + 24 * Held(g, c, 3, 1) + 35 * Held(g, c, 3, 2) + 24 * Held(g, c, 3, 3) + 12 * Held(g, c, 3, 4) by {
      ColumnSumCells(RingTerm, g, c, 3);
    }
    assert ColumnSum(RingTerm, g, c, 4, N) == 5 * Held(g, c, 4, 0) + 12 * Held(g, c, 4, 1) + 24 * Held(g, c, 4, 2) + 12 * Held(g, c, 4, 3) + 5 * Held(g, c, 4, 4) by {
      ColumnSumCells(RingTerm, g, c, 4);
    }
  }

  /** `(int)(white(x, y) && player_color)`, read from the board. */
  function HeldOn(b: Board, c: bool, x: int, y: int): (h: int)
    reads b, b.grid
    requires b.Valid() && InBounds(x, y)
    ensures h == Held(b.cells, c, x, y)
  {
    if White(b.grid[x, y]) && c then 1 else 0
  }

  /** `evaluate_central_control`: count each ring, then weigh the counts. */
  method EvaluateCentralControl(b: Board, c: bool) returns (v: int)
    requires b.Valid()
    ensures v == CentralControl(b.cells, c)
  {
    var n0 := HeldOn(b, c, 2, 2);
    var n1 := HeldOn(b, c, 2, 1) + HeldOn(b, c, 1, 2) + HeldOn(b, c, 2, 3) + HeldOn(b, c, 3, 2);
    var n2 := HeldOn(b, c, 2, 0) + HeldOn(b, c, 1, 1) + HeldOn(b, c, 0, 2) + HeldOn(b, c, 1, 3)
            + HeldOn(b, c, 2, 4) + HeldOn(b, c, 3, 3) + HeldOn(b, c, 4, 2) + HeldOn(b, c, 3, 1);
    var n3 := HeldOn(b, c, 1, 0) + HeldOn(b, c, 0, 1) + HeldOn(b, c, 0, 3) + HeldOn(b, c, 3, 0)
            + HeldOn(b, c, 3, 4) + HeldOn(b, c, 4, 3) + HeldOn(b, c, 1, 4) + HeldOn(b, c, 4, 1);
    var n4 := HeldOn(b, c, 0, 0) + HeldOn(b, c, 0, 4) + HeldOn(b, c, 4, 0) + HeldOn(b, c, 4, 4);
    v := 40 * n0 + 35 * n1 + 24 * n2 + 12 * n3 + 5 * n4;
  }

  /** Black never scores central control, and white scores between 0 and 488. */
  lemma CentralBounds(g: Grid, c: bool)
    requires IsGrid(g)
    ensures !c ==> CentralControl(g, c) == 0
    ensures 0 <= CentralControl(g, c) <= 488
  {
  }

  // ---------------------------------------------------------------------
  // The whole evaluation

  /** `evaluate_helper`: the four terms for one colour. */
  ghost function Helper(g: Grid, c: bool): int
    requires IsGrid(g)
  {
    Captives(g, c) + TopsScore(g, c) + ComponentsScore(g, c) + CentralControl(g, c)
  }

  /** `evaluate`: the terms of colour c minus those of the other colour. */
  ghost function Score(g: Grid, c: bool): int
    requires IsGrid(g)
  {
    Helper(g, c) - Helper(g, !c)
  }

  method EvaluateHelper(b: Board, c: bool) returns (v: int)
    requires b.Valid()
    ensures v == Helper(b.cells, c)
  {
    var captives := EvaluateCaptives(b, c);
    var tops := EvaluateTops(b, c);
    var components := EvaluateComponents(b, c);
    var central := EvaluateCentralControl(b, c);
    v := captives + tops + components + central;
  }

  method Evaluate(b: Board, c: bool) returns (v: int)
    requires b.Valid()
    ensures v == Score(b.cells, c)
  {
    var mine := EvaluateHelper(b, c);
    var theirs := EvaluateHelper(b, !c);
    v := mine - theirs;
  }

  /** The evaluation is zero-sum: what one colour gains the other loses. */
  lemma EvaluationAntisymmetric(g: Grid, c: bool)
    requires IsGrid(g)
    ensures Score(g, c) == -Score(g, !c)
  {
  }

  /** On an empty board every term of both colours is 0, and so is the evaluation. */
  lemma EmptyBoardEvaluation(g: Grid, c: bool)
    requires IsGrid(g) && forall x, y :: InBounds(x, y) ==> Empty(g[x][y])
    ensures Helper(g, true) == 0 && Helper(g, false) == 0
    ensures Score(g, c) == 0
  {
    forall d: bool
      ensures Helper(g, d) == 0
    {
      GridSumZero(CaptivesTerm, g, d, N);
      GridSumZero(TopsTerm, g, d, N);
      NoStacksNoScore(g, d, N);
    }
  }
}
