/**
 * `board_to_string`, the key of the transposition tables: one letter per
 * stone, bottom to top, for the cells in x-major order, each cell closed
 * by 'p'. A crushed wall is written like a flat of its colour.
 */
module Encoding {
  import opened Stones
  import opened Notation
  import opened Rules
  import opened Boards
  import MoveLaws

  /** The letter of one stone. */
  function Symbol(t: Stone): (r: char)
    ensures r != 'p'
  {
    match t
    case WhiteFlat => 'a'
    case WhiteCrush => 'a'
    case WhiteCap => 'b'
    case WhiteWall => 'c'
    case BlackFlat => 'x'
    case BlackCrush => 'x'
    case BlackCap => 'y'
    case BlackWall => 'z'
  }

  /** Two stones share a letter exactly when they are equal or are the flat and the crushed wall of one colour. */
  lemma SymbolShared(a: Stone, b: Stone)
    ensures Symbol(a) == Symbol(b) <==>
      a == b || (IsWhiteStone(a) == IsWhiteStone(b) && (IsFlat(a) || IsCrush(a)) && (IsFlat(b) || IsCrush(b)))
  {
  }

  /** The letters of a stack, bottom first. */
  function StackText(s: Stack): (r: string)
    ensures |r| == |s| && forall h :: 0 <= h < |s| ==> r[h] == Symbol(s[h])
  {
    if s == [] then [] else StackText(s[..|s| - 1]) + [Symbol(s[|s| - 1])]
  }

  /** The stones on the first k cells of the scan. */
  function StonesUpTo(g: Grid, k: int): int
    requires IsGrid(g) && 0 <= k <= N * N
  {
    if k == 0 then 0 else StonesUpTo(g, k - 1) + |Cell(g, ScanCell(k - 1))|
  }

  /**
   * The text of the first k cells of the scan. It holds one letter per
   * stone and one 'p' per cell, and ends with a 'p' unless it is empty.
   */
  function KeyPrefix(g: Grid, k: int): (r: string)
    requires IsGrid(g) && 0 <= k <= N * N
    ensures |r| == StonesUpTo(g, k) + k
    ensures r == [] || r[|r| - 1] == 'p'
  {
    if k == 0 then [] else KeyPrefix(g, k - 1) + StackText(Cell(g, ScanCell(k - 1))) + "p"
  }

  /** `board_to_string`: depends on the stacks only, not on the reserves. */
  function Key(g: Grid): string
    requires IsGrid(g)
  {
    KeyPrefix(g, N * N)
  }

  /** All the stones of the board. */
  function TotalStones(g: Grid): int
    requires IsGrid(g)
  {
    StonesUpTo(g, N * N)
  }

  /** The key holds one letter per stone plus 25 cell ends. */
  lemma KeyLength(g: Grid)
    requires IsGrid(g)
    ensures |Key(g)| == TotalStones(g) + N * N
  {
  }

  /** The body of the cell loop of `board_to_string`: the letters of (x, y), then 'p'. */
  method AppendCell(b: Board, x: int, y: int, s: string) returns (s': string)
    requires b.Valid() && InBounds(x, y)
    ensures s' == s + StackText(b.cells[x][y]) + "p"
  {
    var st := b.grid[x, y];
    s' := s;
    for h := 0 to |st|
      invariant s' == s + StackText(st[..h])
    {
      assert st[..h + 1][..h] == st[..h];
      s' := s' + [Symbol(st[h])];
    }
    assert st[..|st|] == st;
    s' := s' + "p";
  }

  /** `board_to_string`: append each stone's letter, then 'p', cell by cell. */
  method BoardToString(b: Board) returns (s: string)
    requires b.Valid()
    ensures s == Key(b.cells)
  {
    s := "";
    ghost var k := 0;
    for x := 0 to N
      invariant k == 5 * x && s == KeyPrefix(b.cells, k)
    {
      for y := 0 to N
        invariant k == 5 * x + y && s == KeyPrefix(b.cells, k)
      {
        ScanCellAt(x, y);
        s := AppendCell(b, x, y, s);
        k := k + 1;
      }
    }
  }

  /** The index of the last 'p' among the first i letters of t, or -1 when there is none. */
  function LastSep(t: string, i: int): (r: int)
    requires 0 <= i <= |t|
    ensures -1 <= r < i
  {
    if i == 0 then -1 else if t[i - 1] == 'p' then i - 1 else LastSep(t, i - 1)
  }

  /**
   * In a + s + "p", where a is empty or ends with 'p' and s has no 'p', the
   * last 'p' before any position inside s is the end of a.
   */
  lemma {:induction false} LastSepIsEnd(a: string, s: string, i: int)
    requires a == [] || a[|a| - 1] == 'p'
    requires forall h :: 0 <= h < |s| ==> s[h] != 'p'
    requires |a| <= i <= |a| + |s|
    ensures LastSep(a + s + "p", i) == |a| - 1
    decreases i
  {
    var t := a + s + "p";
    if i > |a| {
      assert t[i - 1] == s[i - 1 - |a|];
      LastSepIsEnd(a, s, i - 1);
    }
  }

  /**
   * Reading a key back from its end: the last cell's letters are the 'p'-free
   * run before the final 'p', and what precedes them is the key of the cells
   * before.
   */
  lemma SplitLast(a1: string, s1: string, a2: string, s2: string)
    requires a1 == [] || a1[|a1| - 1] == 'p'
    requires a2 == [] || a2[|a2| - 1] == 'p'
    requires forall h :: 0 <= h < |s1| ==> s1[h] != 'p'
    requires forall h :: 0 <= h < |s2| ==> s2[h] != 'p'
    requires a1 + s1 + "p" == a2 + s2 + "p"
    ensures a1 == a2 && s1 == s2
  {
    var t := a1 + s1 + "p";
    LastSepIsEnd(a1, s1, |t| - 1);
    LastSepIsEnd(a2, s2, |t| - 1);
    assert a1 == t[..|a1|] == a2;
    assert s1 == t[|a1|..|t| - 1] == s2;
  }

  /** Equal prefixes of the key come from cells with equal letters, one by one. */
  lemma {:induction false} PrefixDetermines(g1: Grid, g2: Grid, k: int)
    requires IsGrid(g1) && IsGrid(g2) && 0 <= k <= N * N
    requires KeyPrefix(g1, k) == KeyPrefix(g2, k)
    ensures forall j :: 0 <= j < k ==> StackText(Cell(g1, ScanCell(j))) == StackText(Cell(g2, ScanCell(j)))
  {
    if k > 0 {
      SplitLast(KeyPrefix(g1, k - 1), StackText(Cell(g1, ScanCell(k - 1))),
                KeyPrefix(g2, k - 1), StackText(Cell(g2, ScanCell(k - 1))));
      PrefixDetermines(g1, g2, k - 1);
    }
  }

  lemma {:induction false} PrefixFromCells(g1: Grid, g2: Grid, k: int)
    requires IsGrid(g1) && IsGrid(g2) && 0 <= k <= N * N
    requires forall j :: 0 <= j < k ==> StackText(Cell(g1, ScanCell(j))) == StackText(Cell(g2, ScanCell(j)))
    ensures KeyPrefix(g1, k) == KeyPrefix(g2, k)
  {
    if k > 0 {
      PrefixFromCells(g1, g2, k - 1);
    }
  }

  /**
   * Two boards share a key exactly when every cell holds stacks of the same
   * height whose stones have the same letters, level by level.
   */
  lemma SameKey(g1: Grid, g2: Grid)
    requires IsGrid(g1) && IsGrid(g2)
    ensures Key(g1) == Key(g2) <==>
      forall x, y :: 0 <= x < N && 0 <= y < N ==> StackText(g1[x][y]) == StackText(g2[x][y])
  {
    if Key(g1) == Key(g2) {
      PrefixDetermines(g1, g2, N * N);
      forall x, y | 0 <= x < N && 0 <= y < N
        ensures StackText(g1[x][y]) == StackText(g2[x][y])
      {
        assert ScanCell(x * N + y) == (x, y);
      }
    }
    if forall x, y :: 0 <= x < N && 0 <= y < N ==> StackText(g1[x][y]) == StackText(g2[x][y]) {
      PrefixFromCells(g1, g2, N * N);
    }
  }

  /**
   * The key does not tell a crushed wall from a flat of its colour: turning
   * one into the other leaves the key unchanged.
   */
  lemma CrushSharesKey(g: Grid, x: int, y: int, h: int)
    requires IsGrid(g) && InBounds(x, y) && 0 <= h < |g[x][y]| && IsCrush(g[x][y][h])
    ensures var flat := if IsWhiteStone(g[x][y][h]) then WhiteFlat else BlackFlat;
      Key(SetCell(g, x, y, g[x][y][h := flat])) == Key(g)
  {
    var flat := if IsWhiteStone(g[x][y][h]) then WhiteFlat else BlackFlat;
    var g2 := SetCell(g, x, y, g[x][y][h := flat]);
    assert StackText(g2[x][y]) == StackText(g[x][y]);
    SameKey(g, g2);
  }

  /** A move performed and then undone with its crush flag leaves the key as it was. */
  lemma KeyRestored(p: Position, m: Move, white: bool)
    requires WellFormed(p) && Legal(p, m, white)
    ensures var r := PerformMove(p, m, white);
      UndoOk(r.0, m, white, r.1) && Key(UndoMove(r.0, m, white, r.1).cells) == Key(p.cells)
  {
    MoveLaws.MoveRoundTrip(p, m, white);
  }
}
