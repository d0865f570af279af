/**
 * Pieces, stacks, cells and directions of the 5x5 Tak board.
 *
 * The engine's header (the `Stones` enumeration, the top-of-stack
 * predicates, `next_x`/`next_y`, `out_of_bounds`) is not part of this
 * model; the definitions below are the assumptions made in its place.
 */
module Stones {

  /** Side length of the board. */
  const N: int := 5

  /** One piece. A crushed wall is a fourth kind per colour. */
  datatype Stone =
    | WhiteFlat | WhiteWall | WhiteCap | WhiteCrush
    | BlackFlat | BlackWall | BlackCap | BlackCrush

  predicate IsWhiteStone(s: Stone) {
    s.WhiteFlat? || s.WhiteWall? || s.WhiteCap? || s.WhiteCrush?
  }

  predicate IsFlat(s: Stone) { s.WhiteFlat? || s.BlackFlat? }
  predicate IsWall(s: Stone) { s.WhiteWall? || s.BlackWall? }
  predicate IsCap(s: Stone) { s.WhiteCap? || s.BlackCap? }
  predicate IsCrush(s: Stone) { s.WhiteCrush? || s.BlackCrush? }

  /** The marker a wall turns into when a capstone lands on it. */
  function Crushed(s: Stone): (r: Stone)
    requires IsWall(s)
    ensures IsCrush(r) && IsWhiteStone(r) == IsWhiteStone(s)
  {
    if s == WhiteWall then WhiteCrush else BlackCrush
  }

  /** The wall a crushed marker is turned back into when a slide is undone. */
  function Uncrushed(s: Stone): (r: Stone)
    requires IsCrush(s)
    ensures IsWall(r) && IsWhiteStone(r) == IsWhiteStone(s)
  {
    if s == BlackCrush then BlackWall else WhiteWall
  }

  /** A stack of stones, bottom first. */
  type Stack = seq<Stone>

  function Top(s: Stack): Stone
    requires |s| > 0
  {
    s[|s| - 1]
  }

  predicate Empty(s: Stack) { |s| == 0 }

  /** The cell is controlled by white (false on an empty cell). */
  predicate White(s: Stack) { |s| > 0 && IsWhiteStone(Top(s)) }

  /** The cell is controlled by black (false on an empty cell). */
  predicate Black(s: Stack) { |s| > 0 && !IsWhiteStone(Top(s)) }

  /** `white_cap(x, y)`, `black_wall(x, y)`, ...: the top stone is exactly `t`. */
  predicate TopIs(s: Stack, t: Stone) { |s| > 0 && Top(s) == t }

  /** `caps(x, y)`, `wall(x, y)`, `flat(x, y)`, `crush(x, y)`: the kind of the top stone. */
  predicate CapTop(s: Stack) { |s| > 0 && IsCap(Top(s)) }
  predicate WallTop(s: Stack) { |s| > 0 && IsWall(Top(s)) }
  predicate FlatTop(s: Stack) { |s| > 0 && IsFlat(Top(s)) }
  predicate CrushTop(s: Stack) { |s| > 0 && IsCrush(Top(s)) }

  /** A cell that can be part of a road: occupied, and not topped by a standing wall. */
  predicate RoadPiece(s: Stack) { |s| > 0 && !IsWall(Top(s)) }

  /**
   * The shape every reachable stack has: walls and capstones only ever
   * stand on top, everything underneath is a flat or a crushed wall.
   */
  predicate WellStacked(s: Stack) {
    forall i :: 0 <= i < |s| - 1 ==> IsFlat(s[i]) || IsCrush(s[i])
  }

  /** The board: `cells[x][y]` is the stack on column x, row y. */
  type Grid = seq<seq<Stack>>

  predicate IsGrid(g: Grid) {
    |g| == N && forall x :: 0 <= x < N ==> |g[x]| == N
  }

  /** The negation of `out_of_bounds`. */
  predicate InBounds(x: int, y: int) { 0 <= x < N && 0 <= y < N }

  predicate OnBoard(c: (int, int)) { InBounds(c.0, c.1) }

  function SetCell(g: Grid, x: int, y: int, s: Stack): (r: Grid)
    requires IsGrid(g) && InBounds(x, y)
    ensures IsGrid(r) && r[x][y] == s
    ensures forall a, b {:trigger r[a][b]} :: InBounds(a, b) && (a, b) != (x, y) ==> r[a][b] == g[a][b]
  {
    g[x := g[x][y := s]]
  }

  lemma SetCellSame(g: Grid, x: int, y: int)
    requires IsGrid(g) && InBounds(x, y)
    ensures SetCell(g, x, y, g[x][y]) == g
  {
    assert g[x][y := g[x][y]] == g[x];
  }

  lemma SetCellTwice(g: Grid, x: int, y: int, a: Stack, b: Stack)
    requires IsGrid(g) && InBounds(x, y)
    ensures SetCell(SetCell(g, x, y, a), x, y, b) == SetCell(g, x, y, b)
  {
    assert g[x][y := a][y := b] == g[x][y := b];
  }

  lemma Append3<T>(a: seq<T>, b: seq<T>, c: seq<T>)
    ensures (a + b) + c == a + (b + c)
  {
  }

  /** The four slide directions of the move notation. */
  predicate IsDir(d: char) { d == '+' || d == '-' || d == '<' || d == '>' }

  /** `next_x`: '>' steps to the next column, '<' to the previous one. */
  function NextX(x: int, d: char): int {
    if d == '>' then x + 1 else if d == '<' then x - 1 else x
  }

  /** `next_y`: '+' steps to the next row, '-' to the previous one. */
  function NextY(y: int, d: char): int {
    if d == '+' then y + 1 else if d == '-' then y - 1 else y
  }

  /** The cell reached from (x, y) by `i` steps in direction `d`. */
  function At(x: int, y: int, d: char, i: int): (int, int) {
    if d == '>' then (x + i, y)
    else if d == '<' then (x - i, y)
    else if d == '+' then (x, y + i)
    else if d == '-' then (x, y - i)
    else (x, y)
  }

  lemma AtNext(x: int, y: int, d: char, i: int)
    ensures At(NextX(x, d), NextY(y, d), d, i) == At(x, y, d, i + 1)
  {
  }

  /** One more step of `next_x`/`next_y`. */
  lemma AtStep(x: int, y: int, d: char, i: int)
    ensures At(x, y, d, i + 1) == (NextX(At(x, y, d, i).0, d), NextY(At(x, y, d, i).1, d))
  {
  }

  /**
   * The number of steps in direction `d` from (x, y) to (a, b), or 0 when
   * (a, b) is not strictly ahead of (x, y) on that line.
   */
  function StepsTo(x: int, y: int, d: char, a: int, b: int): (j: int)
    requires IsDir(d)
    ensures j >= 0
    ensures j > 0 ==> At(x, y, d, j) == (a, b)
  {
    if d == '>' then (if b == y && a > x then a - x else 0)
    else if d == '<' then (if b == y && a < x then x - a else 0)
    else if d == '+' then (if a == x && b > y then b - y else 0)
    else (if a == x && b < y then y - b else 0)
  }

  lemma StepsToAt(x: int, y: int, d: char, j: int)
    requires IsDir(d) && j > 0
    ensures var (a, b) := At(x, y, d, j); StepsTo(x, y, d, a, b) == j
  {
  }

  /** The stack on cell c. */
  function Cell(g: Grid, c: (int, int)): Stack
    requires IsGrid(g) && OnBoard(c)
  {
    g[c.0][c.1]
  }

  /** Two grids with the same stack on every cell are equal. */
  lemma GridExt(g1: Grid, g2: Grid)
    requires IsGrid(g1) && IsGrid(g2)
    requires forall a, b :: InBounds(a, b) ==> g1[a][b] == g2[a][b]
    ensures g1 == g2
  {
    forall x | 0 <= x < N ensures g1[x] == g2[x] {
      forall y | 0 <= y < N ensures g1[x][y] == g2[x][y] {
        assert InBounds(x, y);
      }
    }
  }

  /**
   * The cells a slide from (x, y) in direction d visits with n drops: one
   * step of `next_x`/`next_y` before each drop.
   */
  function Path(x: int, y: int, d: char, n: nat): (r: seq<(int, int)>)
    ensures |r| == n
    ensures forall i :: 0 <= i < n ==> r[i] == At(x, y, d, i + 1)
  {
    seq(n, i => At(x, y, d, i + 1))
  }

  predicate Distinct(path: seq<(int, int)>) {
    forall j, k :: 0 <= j < k < |path| ==> path[j] != path[k]
  }

  /** A slide never visits a cell twice, nor its own origin. */
  lemma PathDistinct(x: int, y: int, d: char, n: nat)
    requires IsDir(d)
    ensures Distinct(Path(x, y, d, n)) && (x, y) !in Path(x, y, d, n)
  {
  }

  /** The i-th cell of a slide is neither its origin nor any cell visited before it. */
  lemma PathFresh(x: int, y: int, d: char, n: nat, i: int)
    requires IsDir(d) && 0 <= i < n
    ensures Path(x, y, d, n)[i] != (x, y) && Path(x, y, d, n)[i] !in Path(x, y, d, n)[..i]
  {
    PathDistinct(x, y, d, n);
  }

  /** The k-th cell of the scan: x-major, then y. */
  function ScanCell(k: int): (c: (int, int))
    requires 0 <= k < N * N
    ensures OnBoard(c)
  {
    (k / N, k % N)
  }

  lemma ScanCellAt(x: int, y: int)
    requires InBounds(x, y)
    ensures 0 <= 5 * x + y < N * N && ScanCell(5 * x + y) == (x, y)
  {
  }
}
