/**
 * The depth-limited alpha-beta search: `alpha_beta_search`, `max_value`
 * and `min_value`, with the transposition tables `max_table` and
 * `min_table` that map a board key to a result and the cutoff it was
 * searched to.
 */
module Search {
  import opened Stones
  import opened Notation
  import opened Rules
  import opened Boards
  import opened Wins
  import opened Encoding
  import opened MoveGen
  import opened Evaluation
  import MoveLaws

  /** `INT_MIN` and `INT_MAX` of a 32-bit `int`. */
  const IntMin: int := -0x8000_0000
  const IntMax: int := 0x7fff_ffff

  datatype Option<T> = None | Some(value: T)

  /** What a search returns: the move chosen ("" for none) and its value. */
  type Outcome = (Move, int)

  /** A table entry: the outcome and the cutoff it was searched to. */
  type Entry = (Outcome, int)

  type Table = map<string, Entry>

  /** A stored entry is reused only when it was searched at least as deep as asked. */
  predicate Hit(t: Table, key: string, cutoff: int) {
    key in t && t[key].1 >= cutoff
  }

  /** u keeps every entry of t as it was. */
  predicate Extends(t: Table, u: Table) {
    forall k :: k in t ==> k in u && u[k] == t[k]
  }

  /** Every entry u has and t has not was searched to at most `cutoff`. */
  predicate NewBelow(t: Table, u: Table, cutoff: int) {
    forall k :: k in u && k !in t ==> u[k].1 <= cutoff
  }

  /** `insert`: the entry is added only when the key is absent; an existing entry is never overwritten. */
  function Insert(t: Table, key: string, e: Entry): (u: Table)
    ensures Extends(t, u) && u.Keys == t.Keys + {key}
    ensures key !in t ==> u[key] == e
  {
    if key in t then t else t[key := e]
  }

  // ---------------------------------------------------------------- terminal nodes

  /**
   * The checks a node makes before it is expanded, in their order: the road
   * of colour `first`, the road of the other colour, a full board decided by
   * `player_flat_win` of the colour searched for and then of the other one,
   * and last the cutoff, where the node is valued by `evaluate`. None when
   * the node is to be expanded. `max_value` checks the opponent's road
   * first, `min_value` its own.
   */
  ghost function Terminal(p: Position, c: bool, first: bool, cutoff: int): Option<Outcome>
    requires ValidPos(p)
  {
    var g := p.cells;
    if RoadWin(g, first) then Some(("", if first == c then IntMax else IntMin))
    else if RoadWin(g, !first) then Some(("", if first == c then IntMin else IntMax))
    else if Full(g) && FlatWin(p, c) then Some(("", IntMax))
    else if Full(g) && FlatWin(p, !c) then Some(("", IntMin))
    else if cutoff == 0 then Some(("", Score(g, c)))
    else None
  }

  /**
   * A full board always ends the search, with a win or a loss for the
   * colour searched for, and so does a road; a node with no road and a
   * free cell is expanded exactly when the cutoff is not reached.
   */
  lemma TerminalCases(p: Position, c: bool, first: bool, cutoff: int)
    requires ValidPos(p)
    ensures Full(p.cells) ==> Terminal(p, c, first, cutoff) in {Some(("", IntMin)), Some(("", IntMax))}
    ensures (RoadWin(p.cells, c) || RoadWin(p.cells, !c)) ==>
      Terminal(p, c, first, cutoff) in {Some(("", IntMin)), Some(("", IntMax))}
    ensures !RoadWin(p.cells, c) && !RoadWin(p.cells, !c) && !Full(p.cells) ==>
      (Terminal(p, c, first, cutoff).None? <==> cutoff != 0)
  {
    FlatWinSomeone(p);
  }

  /**
   * When both colours have a road the order of the checks decides: a
   * `max_value` node reports a loss and a `min_value` node a win.
   */
  lemma BothRoads(p: Position, c: bool, cutoff: int)
    requires ValidPos(p) && RoadWin(p.cells, c) && RoadWin(p.cells, !c)
    ensures Terminal(p, c, !c, cutoff) == Some(("", IntMin))
    ensures Terminal(p, c, c, cutoff) == Some(("", IntMax))
  {
  }

  /** The terminal checks, run on the board. */
  method CheckTerminal(b: Board, c: bool, first: bool, cutoff: int) returns (t: Option<Outcome>)
    requires b.Valid()
    ensures t == Terminal(b.Pos(), c, first, cutoff)
  {
    var road := PlayerRoadWin(b, first);
    if road {
      return Some(("", if first == c then IntMax else IntMin));
    }
    road := PlayerRoadWin(b, !first);
    if road {
      return Some(("", if first == c then IntMin else IntMax));
    }
    var full := GameFlatWin(b);
    if full {
      var playerWin := PlayerFlatWin(b, c);
      var otherWin := PlayerFlatWin(b, !c);
      if playerWin {
        return Some(("", IntMax));
      }
      if otherWin {
        return Some(("", IntMin));
      }
    }
    if cutoff == 0 {
      var v := Evaluate(b, c);
      return Some(("", v));
    }
    return None;
  }

  // ---------------------------------------------------------------- the move loops

  /**
   * The loop of `max_value` over the children valued vs, without its prune
   * test: the value starts at `INT_MIN` and the move at "", and both change
   * only on a strictly larger child value.
   */
  function Best(ms: seq<Move>, vs: seq<int>): Outcome
    requires |vs| <= |ms|
  {
    if vs == [] then ("", IntMin)
    else
      var prev := Best(ms, vs[..|vs| - 1]);
      if prev.1 < vs[|vs| - 1] then (ms[|vs| - 1], vs[|vs| - 1]) else prev
  }

  /**
   * The loop of `min_value` over the children valued vs, without its prune
   * test: from `INT_MAX` and "", changed only on a strictly smaller value.
   */
  function Worst(ms: seq<Move>, vs: seq<int>): Outcome
    requires |vs| <= |ms|
  {
    if vs == [] then ("", IntMax)
    else
      var prev := Worst(ms, vs[..|vs| - 1]);
      if prev.1 > vs[|vs| - 1] then (ms[|vs| - 1], vs[|vs| - 1]) else prev
  }

  /** One more child for `Best`. */
  lemma BestStep(ms: seq<Move>, vs: seq<int>, v: int)
    requires |vs| < |ms|
    ensures var prev := Best(ms, vs);
      Best(ms, vs + [v]) == if prev.1 < v then (ms[|vs|], v) else prev
  {
    assert (vs + [v])[..|vs|] == vs;
  }

  /** One more child for `Worst`. */
  lemma WorstStep(ms: seq<Move>, vs: seq<int>, v: int)
    requires |vs| < |ms|
    ensures var prev := Worst(ms, vs);
      Worst(ms, vs + [v]) == if prev.1 > v then (ms[|vs|], v) else prev
  {
    assert (vs + [v])[..|vs|] == vs;
  }

  /**
   * `max_value` picks the largest child value (at least `INT_MIN`) and the
   * first move that reaches it; with no child above `INT_MIN` it keeps ""
   * and `INT_MIN`.
   */
  lemma {:induction false} BestIsMaximum(ms: seq<Move>, vs: seq<int>)
    requires |vs| <= |ms|
    ensures Best(ms, vs).1 >= IntMin
    ensures forall i :: 0 <= i < |vs| ==> vs[i] <= Best(ms, vs).1
    ensures Best(ms, vs) == ("", IntMin) ||
      exists i :: 0 <= i < |vs| && Best(ms, vs) == (ms[i], vs[i]) && forall j :: 0 <= j < i ==> vs[j] < vs[i]
  {
    if vs != [] {
      var k := |vs| - 1;
      BestIsMaximum(ms, vs[..k]);
      var prev := Best(ms, vs[..k]);
      assert forall i :: 0 <= i < k ==> vs[..k][i] == vs[i];
      if prev.1 < vs[k] {
        assert forall j :: 0 <= j < k ==> vs[j] < vs[k];
      } else if prev != ("", IntMin) {
        var i :| 0 <= i < k && prev == (ms[i], vs[..k][i]) && forall j :: 0 <= j < i ==> vs[..k][j] < vs[..k][i];
        assert Best(ms, vs) == (ms[i], vs[i]) && forall j :: 0 <= j < i ==> vs[j] < vs[i];
      }
    }
  }

  /**
   * `min_value` picks the smallest child value (at most `INT_MAX`) and the
   * first move that reaches it; with no child below `INT_MAX` it keeps ""
   * and `INT_MAX`.
   */
  lemma {:induction false} WorstIsMinimum(ms: seq<Move>, vs: seq<int>)
    requires |vs| <= |ms|
    ensures Worst(ms, vs).1 <= IntMax
    ensures forall i :: 0 <= i < |vs| ==> Worst(ms, vs).1 <= vs[i]
    ensures Worst(ms, vs) == ("", IntMax) ||
      exists i :: 0 <= i < |vs| && Worst(ms, vs) == (ms[i], vs[i]) && forall j :: 0 <= j < i ==> vs[j] > vs[i]
  {
    if vs != [] {
      var k := |vs| - 1;
      WorstIsMinimum(ms, vs[..k]);
      var prev := Worst(ms, vs[..k]);
      assert forall i :: 0 <= i < k ==> vs[..k][i] == vs[i];
      if prev.1 > vs[k] {
        assert forall j :: 0 <= j < k ==> vs[j] > vs[k];
      } else if prev != ("", IntMax) {
        var i :| 0 <= i < k && prev == (ms[i], vs[..k][i]) && forall j :: 0 <= j < i ==> vs[..k][j] > vs[..k][i];
        assert Worst(ms, vs) == (ms[i], vs[i]) && forall j :: 0 <= j < i ==> vs[j] > vs[i];
      }
    }
  }

  /** The loop of `max_value` stopped at its last child: the value reached beta. */
  predicate MaxPruned(ms: seq<Move>, vs: seq<int>, beta: int)
    requires |vs| <= |ms|
  {
    |vs| > 0 && Best(ms, vs).1 >= beta
  }

  /** The loop of `min_value` stopped at its last child: the value fell to alpha. */
  predicate MinPruned(ms: seq<Move>, vs: seq<int>, alpha: int)
    requires |vs| <= |ms|
  {
    |vs| > 0 && Worst(ms, vs).1 <= alpha
  }

  /**
   * How the loop of `max_value` over the moves ms ended after the children
   * valued vs: the value of every earlier child stayed below beta, and
   * either the last one reached beta, and the node returns that move with
   * the value, or every move was tried and the node returns the best one.
   */
  predicate MaxLoop(ms: seq<Move>, vs: seq<int>, beta: int, r: Outcome) {
    && |vs| <= |ms|
    && (|vs| > 1 ==> Best(ms, vs[..|vs| - 1]).1 < beta)
    && if MaxPruned(ms, vs, beta) then r == (ms[|vs| - 1], Best(ms, vs).1)
       else |vs| == |ms| && r == Best(ms, vs)
  }

  /** The same for `min_value`, which stops at a value at most alpha. */
  predicate MinLoop(ms: seq<Move>, vs: seq<int>, alpha: int, r: Outcome) {
    && |vs| <= |ms|
    && (|vs| > 1 ==> Worst(ms, vs[..|vs| - 1]).1 > alpha)
    && if MinPruned(ms, vs, alpha) then r == (ms[|vs| - 1], Worst(ms, vs).1)
       else |vs| == |ms| && r == Worst(ms, vs)
  }

  /** A loop of `max_value` that stops early returns a value of at least beta, one that does not the best child. */
  lemma MaxLoopValue(ms: seq<Move>, vs: seq<int>, beta: int, r: Outcome)
    requires MaxLoop(ms, vs, beta, r)
    ensures r.1 == Best(ms, vs).1 && r.1 >= IntMin
    ensures |vs| < |ms| ==> r.1 >= beta
    ensures r.1 < beta ==> |vs| == |ms| && forall i :: 0 <= i < |ms| ==> vs[i] <= r.1
  {
    BestIsMaximum(ms, vs);
  }

  /** A loop of `min_value` that stops early returns a value of at most alpha, one that does not the worst child. */
  lemma MinLoopValue(ms: seq<Move>, vs: seq<int>, alpha: int, r: Outcome)
    requires MinLoop(ms, vs, alpha, r)
    ensures r.1 == Worst(ms, vs).1 && r.1 <= IntMax
    ensures |vs| < |ms| ==> r.1 <= alpha
    ensures r.1 > alpha ==> |vs| == |ms| && forall i :: 0 <= i < |ms| ==> r.1 <= vs[i]
  {
    WorstIsMinimum(ms, vs);
  }

  // ---------------------------------------------------------------- the children's values

  /** The position a generated move of colour c leads to. */
  ghost function Child(p: Position, m: Move, c: bool): (q: Position)
    requires WellFormed(p) && m in AllMoves(p, c)
    ensures ValidPos(q)
  {
    AllMovesLegal(p, c, m);
    PerformMove(p, m, c).0
  }

  /**
   * v is what a search of q to `cutoff` returns when it starts with the
   * table t and does not expand q: the stored value on a hit, otherwise
   * the terminal value.
   */
  ghost predicate Known(t: Table, q: Position, c: bool, first: bool, cutoff: int, v: int)
    requires ValidPos(q)
  {
    && (Hit(t, Key(q.cells), cutoff) ==> v == t[Key(q.cells)].0.1)
    && (!Hit(t, Key(q.cells), cutoff) && Terminal(q, c, first, cutoff).Some? ==>
          v == Terminal(q, c, first, cutoff).value.1)
  }

  // ---------------------------------------------------------------- the search

  /** The two global transposition tables, with the search that reads and fills them. */
  class Engine {
    /** `max_table`. */
    var maxTable: Table
    /** `min_table`. */
    var minTable: Table

    constructor ()
      ensures maxTable == map[] && minTable == map[]
    {
      maxTable := map[];
      minTable := map[];
    }

    /** `alpha_beta_search`: a `max_value` search with the widest window. */
    method AlphaBetaSearch(b: Board, cutoff: int, c: bool) returns (r: Outcome, ghost vals: seq<int>)
      requires b.Valid() && WellFormed(b.Pos()) && cutoff >= 0
      modifies this, b, b.grid
      ensures b.Valid() && b.Pos() == old(b.Pos())
      ensures Extends(old(maxTable), maxTable) && Extends(old(minTable), minTable)
      ensures Hit(old(maxTable), Key(old(b.cells)), cutoff) ==> r == old(maxTable)[Key(old(b.cells))].0
      ensures !Hit(old(maxTable), Key(old(b.cells)), cutoff) && Terminal(old(b.Pos()), c, !c, cutoff).Some? ==>
        r == Terminal(old(b.Pos()), c, !c, cutoff).value
      ensures !Hit(old(maxTable), Key(old(b.cells)), cutoff) && Terminal(old(b.Pos()), c, !c, cutoff).None? ==>
        && MaxLoop(AllMoves(old(b.Pos()), c), vals, IntMax, r)
        && (!MaxPruned(AllMoves(old(b.Pos()), c), vals, IntMax) ==> Stored(maxTable, Key(old(b.cells)), r, cutoff))
        && (MaxPruned(AllMoves(old(b.Pos()), c), vals, IntMax) ==> NewBelow(old(maxTable), maxTable, cutoff - 1))
    {
      r, vals := MaxValue(b, IntMin, IntMax, cutoff, c);
    }

    /**
     * `max_value`: a stored result searched deep enough is returned as it
     * is; otherwise the terminal checks; otherwise every move of colour c is
     * performed, valued by `min_value` one level shallower and undone,
     * until a value reaches beta. A node whose moves were all tried is
     * stored, unless its key is stored already. The board is given back as
     * it was on every path.
     */
    method MaxValue(b: Board, alpha: int, beta: int, cutoff: int, c: bool) returns (r: Outcome, ghost vals: seq<int>)
      requires b.Valid() && WellFormed(b.Pos()) && cutoff >= 0
      modifies this, b, b.grid
      ensures b.Valid() && b.Pos() == old(b.Pos())
      ensures Extends(old(maxTable), maxTable) && Extends(old(minTable), minTable)
      ensures NewBelow(old(maxTable), maxTable, cutoff) && NewBelow(old(minTable), minTable, cutoff)
      ensures Hit(old(maxTable), Key(old(b.cells)), cutoff) ==>
        r == old(maxTable)[Key(old(b.cells))].0 && maxTable == old(maxTable) && minTable == old(minTable)
      ensures !Hit(old(maxTable), Key(old(b.cells)), cutoff) && Terminal(old(b.Pos()), c, !c, cutoff).Some? ==>
        r == Terminal(old(b.Pos()), c, !c, cutoff).value && maxTable == old(maxTable) && minTable == old(minTable)
      ensures !Hit(old(maxTable), Key(old(b.cells)), cutoff) && Terminal(old(b.Pos()), c, !c, cutoff).None? ==>
        && MaxLoop(AllMoves(old(b.Pos()), c), vals, beta, r)
        && (!MaxPruned(AllMoves(old(b.Pos()), c), vals, beta) ==> Stored(maxTable, Key(old(b.cells)), r, cutoff))
        && (MaxPruned(AllMoves(old(b.Pos()), c), vals, beta) ==> NewBelow(old(maxTable), maxTable, cutoff - 1))
      decreases cutoff, 2
    {
      var key := BoardToString(b);
      if key in maxTable {
        var memo := maxTable[key];
        if memo.1 >= cutoff {
          return memo.0, [];
        }
      }
      var t := CheckTerminal(b, c, !c, cutoff);
      if t.Some? {
        return t.value, [];
      }
      var pruned;
      r, vals, pruned := ExpandMax(b, alpha, beta, cutoff, c);
      if !pruned {
        maxTable := Insert(maxTable, key, (r, cutoff));
      }
    }

    /**
     * The move loop of `max_value`: every move of colour c is performed,
     * valued by `min_value` one level shallower and undone, until a value
     * reaches beta; `pruned` tells whether the loop stopped there.
     */
    method ExpandMax(b: Board, alpha: int, beta: int, cutoff: int, c: bool) returns (r: Outcome, ghost vals: seq<int>, pruned: bool)
      requires b.Valid() && WellFormed(b.Pos()) && cutoff > 0
      modifies this, b, b.grid
      ensures b.Valid() && b.Pos() == old(b.Pos())
      ensures Extends(old(maxTable), maxTable) && Extends(old(minTable), minTable)
      ensures NewBelow(old(maxTable), maxTable, cutoff - 1) && NewBelow(old(minTable), minTable, cutoff - 1)
      ensures MaxLoop(AllMoves(old(b.Pos()), c), vals, beta, r)
      ensures pruned == MaxPruned(AllMoves(old(b.Pos()), c), vals, beta)
      decreases cutoff, 1
    {
      ghost var p := b.Pos();
      ghost var max0, min0 := maxTable, minTable;
      var value := IntMin;
      var optimal: Move := "";
      var a := alpha;
      var moves := GenerateMoves(b, [], c);
      assert moves == AllMoves(p, c);
      vals := [];
      for i := 0 to |moves|
        invariant b.Valid() && b.Pos() == p && |vals| == i
        invariant Extends(max0, maxTable) && Extends(min0, minTable)
        invariant NewBelow(max0, maxTable, cutoff - 1) && NewBelow(min0, minTable, cutoff - 1)
        invariant (optimal, value) == Best(moves, vals) && (i > 0 ==> value < beta)
      {
        var v := MaxChild(b, a, beta, cutoff, c, moves[i]);
        BestStep(moves, vals, v);
        assert (vals + [v])[..i] == vals;
        vals := vals + [v];
        if value < v {
          value := v;
          optimal := moves[i];
        }
        if value >= beta {
          return (moves[i], value), vals, true;
        }
        a := if a < value then value else a;
      }
      r, pruned := (optimal, value), false;
    }

    /** One child of a `max_value` node: perform the move, value it with `min_value`, undo it with its crush flag. */
    method MaxChild(b: Board, alpha: int, beta: int, cutoff: int, c: bool, m: Move) returns (v: int)
      requires b.Valid() && WellFormed(b.Pos()) && m in AllMoves(b.Pos(), c) && cutoff > 0
      modifies this, b, b.grid
      ensures b.Valid() && b.Pos() == old(b.Pos())
      ensures Extends(old(maxTable), maxTable) && Extends(old(minTable), minTable)
      ensures NewBelow(old(maxTable), maxTable, cutoff - 1) && NewBelow(old(minTable), minTable, cutoff - 1)
      ensures Known(old(minTable), Child(old(b.Pos()), m, c), c, c, cutoff - 1, v)
      decreases cutoff, 0
    {
      ghost var p := b.Pos();
      AllMovesLegal(p, c, m);
      MoveLaws.MoveRoundTrip(p, m, c);
      MoveLaws.LegalPreservesWellFormed(p, m, c);
      ghost var q, t0 := Child(p, m, c), minTable;
      var crush := b.PerformMove(m, c);
      assert b.Pos() == q && minTable == t0;
      v := MinValueOf(b, alpha, beta, cutoff - 1, c);
      assert Known(t0, q, c, c, cutoff - 1, v);
      b.UndoMove(m, c, crush);
    }

    /** `min_value(...).second`: the value of a child of a `max_value` node. */
    method MinValueOf(b: Board, alpha: int, beta: int, cutoff: int, c: bool) returns (v: int)
      requires b.Valid() && WellFormed(b.Pos()) && cutoff >= 0
      modifies this, b, b.grid
      ensures b.Valid() && b.Pos() == old(b.Pos())
      ensures Extends(old(maxTable), maxTable) && Extends(old(minTable), minTable)
      ensures NewBelow(old(maxTable), maxTable, cutoff) && NewBelow(old(minTable), minTable, cutoff)
      ensures Known(old(minTable), old(b.Pos()), c, c, cutoff, v)
      decreases cutoff, 3
    {
      var r;
      ghost var vals;
      r, vals := MinValue(b, alpha, beta, cutoff, c);
      v := r.1;
    }

    /**
     * `min_value`: as `max_value` with the roles swapped, except that it
     * too generates, performs and values the moves of colour c, as the
     * engine does.
     */
    method MinValue(b: Board, alpha: int, beta: int, cutoff: int, c: bool) returns (r: Outcome, ghost vals: seq<int>)
      requires b.Valid() && WellFormed(b.Pos()) && cutoff >= 0
      modifies this, b, b.grid
      ensures b.Valid() && b.Pos() == old(b.Pos())
      ensures Extends(old(maxTable), maxTable) && Extends(old(minTable), minTable)
      ensures NewBelow(old(maxTable), maxTable, cutoff) && NewBelow(old(minTable), minTable, cutoff)
      ensures Hit(old(minTable), Key(old(b.cells)), cutoff) ==>
        r == old(minTable)[Key(old(b.cells))].0 && maxTable == old(maxTable) && minTable == old(minTable)
      ensures !Hit(old(minTable), Key(old(b.cells)), cutoff) && Terminal(old(b.Pos()), c, c, cutoff).Some? ==>
        r == Terminal(old(b.Pos()), c, c, cutoff).value && maxTable == old(maxTable) && minTable == old(minTable)
      ensures !Hit(old(minTable), Key(old(b.cells)), cutoff) && Terminal(old(b.Pos()), c, c, cutoff).None? ==>
        && MinLoop(AllMoves(old(b.Pos()), c), vals, alpha, r)
        && (!MinPruned(AllMoves(old(b.Pos()), c), vals, alpha) ==> Stored(minTable, Key(old(b.cells)), r, cutoff))
        && (MinPruned(AllMoves(old(b.Pos()), c), vals, alpha) ==> NewBelow(old(minTable), minTable, cutoff - 1))
      decreases cutoff, 2
    {
      var key := BoardToString(b);
      if key in minTable {
        var memo := minTable[key];
        if memo.1 >= cutoff {
          return memo.0, [];
        }
      }
      var t := CheckTerminal(b, c, c, cutoff);
      if t.Some? {
        return t.value, [];
      }
      var pruned;
      r, vals, pruned := ExpandMin(b, alpha, beta, cutoff, c);
      if !pruned {
        minTable := Insert(minTable, key, (r, cutoff));
      }
    }

    /**
     * The move loop of `min_value`: every move of colour c is performed,
     * valued by `max_value` one level shallower and undone, until a value
     * falls to alpha; `pruned` tells whether the loop stopped there.
     */
    method ExpandMin(b: Board, alpha: int, beta: int, cutoff: int, c: bool) returns (r: Outcome, ghost vals: seq<int>, pruned: bool)
      requires b.Valid() && WellFormed(b.Pos()) && cutoff > 0
      modifies this, b, b.grid
      ensures b.Valid() && b.Pos() == old(b.Pos())
      ensures Extends(old(maxTable), maxTable) && Extends(old(minTable), minTable)
      ensures NewBelow(old(maxTable), maxTable, cutoff - 1) && NewBelow(old(minTable), minTable, cutoff - 1)
      ensures MinLoop(AllMoves(old(b.Pos()), c), vals, alpha, r)
      ensures pruned == MinPruned(AllMoves(old(b.Pos()), c), vals, alpha)
      decreases cutoff, 1
    {
      ghost var p := b.Pos();
      ghost var max0, min0 := maxTable, minTable;
      var value := IntMax;
      var optimal: Move := "";
      var bt := beta;
      var moves := GenerateMoves(b, [], c);
      assert moves == AllMoves(p, c);
      vals := [];
      for i := 0 to |moves|
        invariant b.Valid() && b.Pos() == p && |vals| == i
        invariant Extends(max0, maxTable) && Extends(min0, minTable)
        invariant NewBelow(max0, maxTable, cutoff - 1) && NewBelow(min0, minTable, cutoff - 1)
        invariant (optimal, value) == Worst(moves, vals) && (i > 0 ==> value > alpha)
      {
        var v := MinChild(b, alpha, bt, cutoff, c, moves[i]);
        WorstStep(moves, vals, v);
        assert (vals + [v])[..i] == vals;
        vals := vals + [v];
        if value > v {
          value := v;
          optimal := moves[i];
        }
        if value <= alpha {
          return (moves[i], value), vals, true;
        }
        bt := if bt < value then bt else value;
      }
      r, pruned := (optimal, value), false;
    }

    /** `max_value(...).second`: the value of a child of a `min_value` node. */
    method MaxValueOf(b: Board, alpha: int, beta: int, cutoff: int, c: bool) returns (v: int)
      requires b.Valid() && WellFormed(b.Pos()) && cutoff >= 0
      modifies this, b, b.grid
      ensures b.Valid() && b.Pos() == old(b.Pos())
      ensures Extends(old(maxTable), maxTable) && Extends(old(minTable), minTable)
      ensures NewBelow(old(maxTable), maxTable, cutoff) && NewBelow(old(minTable), minTable, cutoff)
      ensures Known(old(maxTable), old(b.Pos()), c, !c, cutoff, v)
      decreases cutoff, 3
    {
      var r;
      ghost var vals;
      r, vals := MaxValue(b, alpha, beta, cutoff, c);
      v := r.1;
    }

    /** One child of a `min_value` node: perform the move, value it with `max_value`, undo it with its crush flag. */
    method MinChild(b: Board, alpha: int, beta: int, cutoff: int, c: bool, m: Move) returns (v: int)
      requires b.Valid() && WellFormed(b.Pos()) && m in AllMoves(b.Pos(), c) && cutoff > 0
      modifies this, b, b.grid
      ensures b.Valid() && b.Pos() == old(b.Pos())
      ensures Extends(old(maxTable), maxTable) && Extends(old(minTable), minTable)
      ensures NewBelow(old(maxTable), maxTable, cutoff - 1) && NewBelow(old(minTable), minTable, cutoff - 1)
      ensures Known(old(maxTable), Child(old(b.Pos()), m, c), c, !c, cutoff - 1, v)
      decreases cutoff, 0
    {
      ghost var p := b.Pos();
      AllMovesLegal(p, c, m);
      MoveLaws.MoveRoundTrip(p, m, c);
      MoveLaws.LegalPreservesWellFormed(p, m, c);
      ghost var q, t0 := Child(p, m, c), maxTable;
      var crush := b.PerformMove(m, c);
      assert b.Pos() == q && maxTable == t0;
      v := MaxValueOf(b, alpha, beta, cutoff - 1, c);
      assert Known(t0, q, c, !c, cutoff - 1, v);
      b.UndoMove(m, c, crush);
    }
  }

  /**
   * After a node whose moves were all tried, its key is stored: with its
   * own result, or with an entry searched less deep that was there first
   * and that `insert` does not overwrite.
   */
  predicate Stored(t: Table, key: string, r: Outcome, cutoff: int) {
    key in t && (t[key] == (r, cutoff) || t[key].1 < cutoff)
  }
}
