/**
 * `evaluate_components` and `dfs`: the groups of orthogonally connected
 * stacks topped by one colour, each scored by the width and the height of
 * its bounding box.
 *
 * The specification is semantic: a group is the set of cells joined to a
 * seed by a walk through stacks of the colour, and its box is the least
 * rectangle holding it. The search is proved to find exactly that set and
 * that box, whatever order it visits the cells in.
 */
module Components {
  import opened Stones
  import opened Boards

  /** `LRUD`: the least and greatest column (l, r) and row (d, u) seen. */
  datatype Lrud = Lrud(l: int, r: int, d: int, u: int)

  /** `WEIGHTS`: the score of a group spanning k + 1 columns (or rows). */
  const Weights: seq<int> := [0, 400, 4000, 40000, 400000]

  /** An occupied cell z whose top is of colour c (the test both loops apply). */
  predicate Own(g: Grid, c: bool, z: (int, int))
    requires IsGrid(g)
  {
    OnBoard(z) && !Empty(Cell(g, z)) && White(Cell(g, z)) == c
  }

  /** The i-th neighbour `dfs` tries: (x + 1, y), (x - 1, y), (x, y - 1), (x, y + 1). */
  function Neighbour(z: (int, int), i: int): (int, int) {
    if i == 0 then (z.0 + 1, z.1)
    else if i == 1 then (z.0 - 1, z.1)
    else if i == 2 then (z.0, z.1 - 1)
    else (z.0, z.1 + 1)
  }

  predicate Adjacent(a: (int, int), b: (int, int)) {
    b == Neighbour(a, 0) || b == Neighbour(a, 1) || b == Neighbour(a, 2) || b == Neighbour(a, 3)
  }

  /** A walk through stacks of colour c, each cell next to the one before. */
  predicate Linked(g: Grid, c: bool, p: seq<(int, int)>)
    requires IsGrid(g)
  {
    && |p| > 0
    && (forall k :: 0 <= k < |p| ==> Own(g, c, p[k]))
    && (forall k :: 0 <= k < |p| - 1 ==> Adjacent(p[k], p[k + 1]))
  }

  /** Some walk through stacks of colour c leads from a to b. */
  ghost predicate Connected(g: Grid, c: bool, a: (int, int), b: (int, int))
    requires IsGrid(g)
  {
    exists p {:trigger Linked(g, c, p)} :: Linked(g, c, p) && p[0] == a && p[|p| - 1] == b
  }

  /** The group of a: every cell a walk through stacks of colour c reaches from a. */
  ghost function Component(g: Grid, c: bool, a: (int, int)): set<(int, int)>
    requires IsGrid(g)
  {
    set x: int, y: int {:trigger Connected(g, c, a, (x, y))} | 0 <= x < N && 0 <= y < N && Connected(g, c, a, (x, y)) :: (x, y)
  }

  /** Every own neighbour of a cell of S is in V. */
  ghost predicate Closes(g: Grid, c: bool, S: set<(int, int)>, V: set<(int, int)>)
    requires IsGrid(g)
  {
    forall z, w {:trigger Adjacent(z, w)} :: z in S && Adjacent(z, w) && Own(g, c, w) ==> w in V
  }

  ghost predicate OwnCells(g: Grid, c: bool, V: set<(int, int)>)
    requires IsGrid(g)
  {
    forall z :: z in V ==> Own(g, c, z)
  }

  lemma ConnectedRefl(g: Grid, c: bool, a: (int, int))
    requires IsGrid(g) && Own(g, c, a)
    ensures Connected(g, c, a, a)
  {
    assert Linked(g, c, [a]);
  }

  /** Both ends of a walk are own cells. */
  lemma ConnectedOwn(g: Grid, c: bool, a: (int, int), b: (int, int))
    requires IsGrid(g) && Connected(g, c, a, b)
    ensures Own(g, c, a) && Own(g, c, b)
  {
    var p :| Linked(g, c, p) && p[0] == a && p[|p| - 1] == b;
    assert Own(g, c, p[0]) && Own(g, c, p[|p| - 1]);
  }

  lemma ConnectedPrepend(g: Grid, c: bool, a: (int, int), b: (int, int), z: (int, int))
    requires IsGrid(g) && Own(g, c, a) && Adjacent(a, b) && Connected(g, c, b, z)
    ensures Connected(g, c, a, z)
  {
    var p :| Linked(g, c, p) && p[0] == b && p[|p| - 1] == z;
    var q := [a] + p;
    assert forall k :: 1 <= k < |q| ==> q[k] == p[k - 1];
    assert Linked(g, c, q);
    assert q[0] == a && q[|q| - 1] == z;
  }

  lemma ConnectedAppend(g: Grid, c: bool, a: (int, int), z: (int, int), w: (int, int))
    requires IsGrid(g) && Connected(g, c, a, z) && Adjacent(z, w) && Own(g, c, w)
    ensures Connected(g, c, a, w)
  {
    var p :| Linked(g, c, p) && p[0] == a && p[|p| - 1] == z;
    var q := p + [w];
    assert forall k :: 0 <= k < |p| ==> q[k] == p[k];
    assert Linked(g, c, q);
    assert q[0] == a && q[|q| - 1] == w;
  }

  lemma AdjacentSymmetric(a: (int, int), b: (int, int))
    requires Adjacent(a, b)
    ensures Adjacent(b, a)
  {
  }

  lemma ConnectedSymmetric(g: Grid, c: bool, a: (int, int), b: (int, int))
    requires IsGrid(g) && Connected(g, c, a, b)
    ensures Connected(g, c, b, a)
  {
    var p :| Linked(g, c, p) && p[0] == a && p[|p| - 1] == b;
    var q := seq(|p|, k requires 0 <= k < |p| => p[|p| - 1 - k]);
    forall k | 0 <= k < |q| - 1
      ensures Adjacent(q[k], q[k + 1])
    {
      AdjacentSymmetric(p[|p| - 2 - k], p[|p| - 1 - k]);
    }
    assert Linked(g, c, q);
    assert q[0] == b && q[|q| - 1] == a;
  }

  /** A walk that starts inside a set closed under own neighbours stays inside it. */
  lemma {:induction false} WalkInside(g: Grid, c: bool, V: set<(int, int)>, p: seq<(int, int)>)
    requires IsGrid(g) && Closes(g, c, V, V) && Linked(g, c, p) && p[0] in V
    ensures p[|p| - 1] in V
    decreases |p|
  {
    if |p| > 1 {
      var q := p[..|p| - 1];
      assert Linked(g, c, q);
      WalkInside(g, c, V, q);
      assert Adjacent(p[|p| - 2], p[|p| - 1]) && Own(g, c, p[|p| - 1]);
    }
  }

  /** A closed set holding a cell holds the whole group of that cell. */
  lemma ClosedHoldsComponent(g: Grid, c: bool, V: set<(int, int)>, a: (int, int), z: (int, int))
    requires IsGrid(g) && Closes(g, c, V, V) && a in V && Connected(g, c, a, z)
    ensures z in V
  {
    var p :| Linked(g, c, p) && p[0] == a && p[|p| - 1] == z;
    WalkInside(g, c, V, p);
  }

  /** A group holds its seed, lies on the board, holds own cells only and is closed. */
  lemma ComponentShape(g: Grid, c: bool, a: (int, int))
    requires IsGrid(g) && Own(g, c, a)
    ensures a in Component(g, c, a)
    ensures OwnCells(g, c, Component(g, c, a))
    ensures Closes(g, c, Component(g, c, a), Component(g, c, a))
  {
    ConnectedRefl(g, c, a);
    var comp := Component(g, c, a);
    assert a == (a.0, a.1);
    forall z | z in comp
      ensures Own(g, c, z)
    {
      ConnectedOwn(g, c, a, z);
    }
    forall z, w | z in comp && Adjacent(z, w) && Own(g, c, w)
      ensures w in comp
    {
      ConnectedAppend(g, c, a, z, w);
      assert w == (w.0, w.1);
    }
  }

  /** Two cells of one group have the same group. */
  lemma SameComponent(g: Grid, c: bool, a: (int, int), b: (int, int))
    requires IsGrid(g) && Own(g, c, a) && b in Component(g, c, a)
    ensures Component(g, c, b) == Component(g, c, a)
  {
    ComponentShape(g, c, a);
    assert Connected(g, c, a, b);
    ConnectedSymmetric(g, c, a, b);
    ConnectedOwn(g, c, a, b);
    ComponentShape(g, c, b);
    forall z | z in Component(g, c, b)
      ensures z in Component(g, c, a)
    {
      ClosedHoldsComponent(g, c, Component(g, c, a), b, z);
    }
    forall z | z in Component(g, c, a)
      ensures z in Component(g, c, b)
    {
      ClosedHoldsComponent(g, c, Component(g, c, b), a, z);
    }
  }

  /**
   * The set a search from a adds is the group of a: it holds a, its cells
   * are joined to a, it is closed together with what was visited before,
   * and what was visited before is closed and does not hold a.
   */
  lemma GrownIsComponent(g: Grid, c: bool, V: set<(int, int)>, S: set<(int, int)>, a: (int, int))
    requires IsGrid(g) && Closes(g, c, V, V) && a !in V && S !! V && a in S
    requires forall z :: z in S ==> Connected(g, c, a, z)
    requires Closes(g, c, S, V + S)
    ensures S == Component(g, c, a)
  {
    forall z | z in S
      ensures z in Component(g, c, a)
    {
      ConnectedOwn(g, c, a, z);
      assert z == (z.0, z.1);
    }
    forall z | z in Component(g, c, a)
      ensures z in S
    {
      assert Connected(g, c, a, z);
      ClosedHoldsComponent(g, c, V + S, a, z);
      if z in V {
        ConnectedSymmetric(g, c, a, z);
        ClosedHoldsComponent(g, c, V, z, a);
      }
    }
  }

  /** Some cell of S is on column k. */
  ghost predicate InColumn(S: set<(int, int)>, k: int) {
    exists z :: z in S && z.0 == k
  }

  /** Some cell of S is on row k. */
  ghost predicate InRow(S: set<(int, int)>, k: int) {
    exists z :: z in S && z.1 == k
  }

  /** The box b covers every cell of S. */
  ghost predicate Covers(b: Lrud, S: set<(int, int)>) {
    forall z :: z in S ==> b.l <= z.0 <= b.r && b.d <= z.1 <= b.u
  }

  /** b is the least box holding S: it covers S, and a cell of S lies on each of its sides. */
  ghost predicate BoxOf(S: set<(int, int)>, b: Lrud) {
    && Covers(b, S)
    && InColumn(S, b.l)
    && InColumn(S, b.r)
    && InRow(S, b.d)
    && InRow(S, b.u)
  }

  /**
   * b2 is b1 stretched to hold S: it covers b1 and S, and each side of b2
   * is a side of b1 or is touched by a cell of S.
   */
  ghost predicate Hull(b2: Lrud, b1: Lrud, S: set<(int, int)>) {
    && b2.l <= b1.l && b1.r <= b2.r && b2.d <= b1.d && b1.u <= b2.u
    && Covers(b2, S)
    && (b2.l == b1.l || InColumn(S, b2.l))
    && (b2.r == b1.r || InColumn(S, b2.r))
    && (b2.d == b1.d || InRow(S, b2.d))
    && (b2.u == b1.u || InRow(S, b2.u))
  }

  /** The four `min`/`max` updates at the head of `dfs`. */
  function Extend(b: Lrud, z: (int, int)): (r: Lrud)
    ensures Hull(r, b, {z})
  {
    Lrud(if z.0 < b.l then z.0 else b.l, if z.0 > b.r then z.0 else b.r,
         if z.1 < b.d then z.1 else b.d, if z.1 > b.u then z.1 else b.u)
  }

  lemma HullTrans(b3: Lrud, b2: Lrud, b1: Lrud, S1: set<(int, int)>, S2: set<(int, int)>)
    requires Hull(b2, b1, S1) && Hull(b3, b2, S2)
    ensures Hull(b3, b1, S1 + S2)
  {
  }

  /** Stretching the box of a single cell a by a set S that holds a gives the least box of S. */
  lemma HullOfSeed(b: Lrud, a: (int, int), S: set<(int, int)>)
    requires a in S && Hull(b, Lrud(a.0, a.0, a.1, a.1), S)
    ensures BoxOf(S, b)
  {
  }

  /** A set has at most one least box. */
  lemma BoxUnique(S: set<(int, int)>, b1: Lrud, b2: Lrud)
    requires BoxOf(S, b1) && BoxOf(S, b2)
    ensures b1 == b2
  {
  }

  /** Every non-empty set of cells has a least box. */
  lemma {:induction false} BoxExists(S: set<(int, int)>)
    requires S != {}
    ensures exists b :: BoxOf(S, b)
    decreases |S|
  {
    var z :| z in S;
    if S == {z} {
      assert BoxOf(S, Lrud(z.0, z.0, z.1, z.1));
    } else {
      BoxExists(S - {z});
      var b :| BoxOf(S - {z}, b);
      var e := Extend(b, z);
      assert S == (S - {z}) + {z};
      assert Hull(e, b, {z});
      assert BoxOf(S, e);
    }
  }

  /** The least box of a non-empty set. */
  ghost function LeastBox(S: set<(int, int)>): (b: Lrud)
    requires S != {}
    ensures BoxOf(S, b)
  {
    BoxExists(S);
    var b :| BoxOf(S, b);
    b
  }

  /** The least box of a set of cells of the board lies on the board. */
  lemma BoxOnBoard(S: set<(int, int)>, b: Lrud)
    requires BoxOf(S, b) && forall z :: z in S ==> OnBoard(z)
    ensures 0 <= b.l <= b.r < N && 0 <= b.d <= b.u < N
  {
    var zl :| zl in S && zl.0 == b.l;
    var zr :| zr in S && zr.0 == b.r;
    var zd :| zd in S && zd.1 == b.d;
    var zu :| zu in S && zu.1 == b.u;
    assert OnBoard(zl) && OnBoard(zr) && OnBoard(zd) && OnBoard(zu);
  }

  /** The score of a group: the weights of the width and of the height of its least box. */
  ghost function Spread(S: set<(int, int)>): (r: int)
    requires S != {} && forall z :: z in S ==> OnBoard(z)
    ensures r >= 0
  {
    var b := LeastBox(S);
    BoxOnBoard(S, b);
    Weights[b.r - b.l] + Weights[b.u - b.d]
  }

  /**
   * One cell of the scan of `evaluate_components`, on the state (score,
   * cells visited): an unvisited own cell adds the score of its group and
   * marks the group visited.
   */
  ghost function Found(g: Grid, c: bool, st: (int, set<(int, int)>), x: int, y: int): (int, set<(int, int)>)
    requires IsGrid(g) && InBounds(x, y)
  {
    if (x, y) !in st.1 && Own(g, c, (x, y)) then
      ComponentShape(g, c, (x, y));
      var comp := Component(g, c, (x, y));
      assert forall z :: z in comp ==> Own(g, c, z);
      (st.0 + Spread(comp), st.1 + comp)
    else st
  }

  /** The cells (x, 0) .. (x, n - 1) of the scan. */
  ghost function ColumnFound(g: Grid, c: bool, st: (int, set<(int, int)>), x: int, n: int): (int, set<(int, int)>)
    requires IsGrid(g) && 0 <= x < N && 0 <= n <= N
  {
    if n == 0 then st else Found(g, c, ColumnFound(g, c, st, x, n - 1), x, n - 1)
  }

  /** The columns 0 .. m - 1 of the scan, from nothing visited. */
  ghost function Scan(g: Grid, c: bool, m: int): (int, set<(int, int)>)
    requires IsGrid(g) && 0 <= m <= N
  {
    if m == 0 then (0, {}) else ColumnFound(g, c, Scan(g, c, m - 1), m - 1, N)
  }

  /** `evaluate_components`: the sum of the scores of the groups of colour c. */
  ghost function ComponentsScore(g: Grid, c: bool): int
    requires IsGrid(g)
  {
    Scan(g, c, N).0
  }

  /** The scan state holds whole groups: a closed set of own cells, and a score of at least 0. */
  ghost predicate Whole(g: Grid, c: bool, st: (int, set<(int, int)>))
    requires IsGrid(g)
  {
    st.0 >= 0 && OwnCells(g, c, st.1) && Closes(g, c, st.1, st.1)
  }

  lemma FoundWhole(g: Grid, c: bool, st: (int, set<(int, int)>), x: int, y: int)
    requires IsGrid(g) && InBounds(x, y) && Whole(g, c, st)
    ensures Whole(g, c, Found(g, c, st, x, y))
  {
    if (x, y) !in st.1 && Own(g, c, (x, y)) {
      ComponentShape(g, c, (x, y));
    }
  }

  /** A step of the scan only adds visited cells, and an own cell is visited once scanned. */
  lemma FoundGrows(g: Grid, c: bool, st: (int, set<(int, int)>), x: int, y: int)
    requires IsGrid(g) && InBounds(x, y)
    ensures st.1 <= Found(g, c, st, x, y).1
    ensures Own(g, c, (x, y)) ==> (x, y) in Found(g, c, st, x, y).1
  {
    if (x, y) !in st.1 && Own(g, c, (x, y)) {
      ComponentShape(g, c, (x, y));
    }
  }

  lemma {:induction false} ColumnWhole(g: Grid, c: bool, st: (int, set<(int, int)>), x: int, n: int)
    requires IsGrid(g) && 0 <= x < N && 0 <= n <= N && Whole(g, c, st)
    ensures Whole(g, c, ColumnFound(g, c, st, x, n))
  {
    if n > 0 {
      ColumnWhole(g, c, st, x, n - 1);
      FoundWhole(g, c, ColumnFound(g, c, st, x, n - 1), x, n - 1);
    }
  }

  lemma {:induction false} ColumnHolds(g: Grid, c: bool, st: (int, set<(int, int)>), x: int, n: int)
    requires IsGrid(g) && 0 <= x < N && 0 <= n <= N
    ensures st.1 <= ColumnFound(g, c, st, x, n).1
    ensures forall y :: 0 <= y < n && Own(g, c, (x, y)) ==> (x, y) in ColumnFound(g, c, st, x, n).1
  {
    if n > 0 {
      var prev := ColumnFound(g, c, st, x, n - 1);
      ColumnHolds(g, c, st, x, n - 1);
      FoundGrows(g, c, prev, x, n - 1);
    }
  }

  lemma {:induction false} ScanWhole(g: Grid, c: bool, m: int)
    requires IsGrid(g) && 0 <= m <= N
    ensures Whole(g, c, Scan(g, c, m))
  {
    if m > 0 {
      ScanWhole(g, c, m - 1);
      ColumnWhole(g, c, Scan(g, c, m - 1), m - 1, N);
    }
  }

  lemma {:induction false} ScanHolds(g: Grid, c: bool, m: int)
    requires IsGrid(g) && 0 <= m <= N
    ensures forall x, y :: 0 <= x < m && 0 <= y < N && Own(g, c, (x, y)) ==> (x, y) in Scan(g, c, m).1
  {
    if m > 0 {
      var prev := Scan(g, c, m - 1);
      ScanHolds(g, c, m - 1);
      ColumnHolds(g, c, prev, m - 1, N);
      assert Scan(g, c, m) == ColumnFound(g, c, prev, m - 1, N);
    }
  }

  /**
   * The scan visits every stack of colour c and no other cell, and the
   * score is never negative.
   */
  lemma ScanCoversOwn(g: Grid, c: bool)
    requires IsGrid(g)
    ensures ComponentsScore(g, c) >= 0
    ensures forall z :: z in Scan(g, c, N).1 <==> Own(g, c, z)
  {
    ScanWhole(g, c, N);
    ScanHolds(g, c, N);
    forall z | Own(g, c, z)
      ensures z in Scan(g, c, N).1
    {
      assert 0 <= z.0 < N && 0 <= z.1 < N && z == (z.0, z.1);
    }
  }

  /** With no stack of colour c on the board the score is 0. */
  lemma {:induction false} NoStacksNoScore(g: Grid, c: bool, m: int)
    requires IsGrid(g) && 0 <= m <= N
    requires forall z :: !Own(g, c, z)
    ensures Scan(g, c, m) == (0, {})
  {
    if m > 0 {
      NoStacksNoScore(g, c, m - 1);
      NoStacksColumn(g, c, m - 1, N);
    }
  }

  lemma {:induction false} NoStacksColumn(g: Grid, c: bool, x: int, n: int)
    requires IsGrid(g) && 0 <= x < N && 0 <= n <= N
    requires forall z :: !Own(g, c, z)
    ensures ColumnFound(g, c, (0, {}), x, n) == (0, {})
  {
    if n > 0 {
      NoStacksColumn(g, c, x, n - 1);
    }
  }

  /** The cells marked visited. */
  ghost function Seen(visit: array2<bool>): set<(int, int)>
    reads visit
    requires visit.Length0 == N && visit.Length1 == N
  {
    set x: int, y: int {:trigger visit[x, y]} | 0 <= x < N && 0 <= y < N && visit[x, y] :: (x, y)
  }

  /** The cells not yet visited: what the search of `dfs` can still reach. */
  ghost function Unseen(visit: array2<bool>): set<(int, int)>
    reads visit
    requires visit.Length0 == N && visit.Length1 == N
  {
    set x: int, y: int {:trigger visit[x, y]} | 0 <= x < N && 0 <= y < N && !visit[x, y] :: (x, y)
  }

  /**
   * What a search from a has done once it has marked the cells S, having
   * started from the cells S0 visited, with the box b grown from b0: a is
   * among the new cells, all of them are joined to a, all but a have their
   * own neighbours visited, and b is b0 stretched to hold them.
   */
  ghost predicate Partial(g: Grid, c: bool, a: (int, int), S0: set<(int, int)>, S: set<(int, int)>, b: Lrud, b0: Lrud)
    requires IsGrid(g)
  {
    && S0 !! S && a in S
    && (forall z :: z in S ==> Connected(g, c, a, z))
    && Closes(g, c, S - {a}, S0 + S)
    && Hull(b, b0, S)
  }

  /** What a finished search from a has done: `Partial`, with the own neighbours of a visited too. */
  ghost predicate Grown(g: Grid, c: bool, a: (int, int), S0: set<(int, int)>, S: set<(int, int)>, b: Lrud, b0: Lrud)
    requires IsGrid(g)
  {
    && S0 !! S && a in S
    && (forall z :: z in S ==> Connected(g, c, a, z))
    && Closes(g, c, S, S0 + S)
    && Hull(b, b0, S)
  }

  lemma PartialStart(g: Grid, c: bool, a: (int, int), S0: set<(int, int)>, b0: Lrud)
    requires IsGrid(g) && Own(g, c, a) && a !in S0
    ensures Partial(g, c, a, S0, {a}, Extend(b0, a), b0)
  {
    ConnectedRefl(g, c, a);
  }

  /** A finished search from the i-th neighbour of a, marking T, extends a partial search from a. */
  lemma PartialStep(g: Grid, c: bool, a: (int, int), S0: set<(int, int)>, S: set<(int, int)>, T: set<(int, int)>,
                    b0: Lrud, b1: Lrud, b2: Lrud, i: int)
    requires IsGrid(g) && Own(g, c, a) && 0 <= i < 4
    requires Partial(g, c, a, S0, S, b1, b0)
    requires Grown(g, c, Neighbour(a, i), S0 + S, T, b2, b1)
    ensures Partial(g, c, a, S0, S + T, b2, b0) && Neighbour(a, i) in S + T
    ensures S0 + S + T == S0 + (S + T)
  {
    JoinedStep(g, c, a, S, T, i);
    ClosesStep(g, c, a, S0, S, T);
    HullTrans(b2, b1, b0, S, T);
  }

  lemma JoinedStep(g: Grid, c: bool, a: (int, int), S: set<(int, int)>, T: set<(int, int)>, i: int)
    requires IsGrid(g) && Own(g, c, a) && 0 <= i < 4
    requires forall z :: z in S ==> Connected(g, c, a, z)
    requires forall z :: z in T ==> Connected(g, c, Neighbour(a, i), z)
    ensures forall z :: z in S + T ==> Connected(g, c, a, z)
  {
    forall z | z in T
      ensures Connected(g, c, a, z)
    {
      ConnectedPrepend(g, c, a, Neighbour(a, i), z);
    }
  }

  lemma ClosesStep(g: Grid, c: bool, a: (int, int), S0: set<(int, int)>, S: set<(int, int)>, T: set<(int, int)>)
    requires IsGrid(g)
    requires Closes(g, c, S - {a}, S0 + S)
    requires Closes(g, c, T, S0 + S + T)
    ensures Closes(g, c, S + T - {a}, S0 + (S + T))
  {
  }

  lemma PartialDone(g: Grid, c: bool, a: (int, int), S0: set<(int, int)>, S: set<(int, int)>, b: Lrud, b0: Lrud)
    requires IsGrid(g) && Partial(g, c, a, S0, S, b, b0)
    requires Tried(g, c, a, 4, S0 + S)
    ensures Grown(g, c, a, S0, S, b, b0)
  {
  }

  /** The first i neighbours of a are visited unless they are not own. */
  ghost predicate Tried(g: Grid, c: bool, a: (int, int), i: int, V: set<(int, int)>)
    requires IsGrid(g)
    decreases i
  {
    i <= 0 || (Tried(g, c, a, i - 1, V) && (Own(g, c, Neighbour(a, i - 1)) ==> Neighbour(a, i - 1) in V))
  }

  lemma {:induction false} TriedGrows(g: Grid, c: bool, a: (int, int), i: int, V: set<(int, int)>, W: set<(int, int)>)
    requires IsGrid(g) && Tried(g, c, a, i, V) && V <= W
    ensures Tried(g, c, a, i, W)
    decreases i
  {
    if i > 0 {
      TriedGrows(g, c, a, i - 1, V, W);
    }
  }

  /** Every cell of the board. */
  ghost const Cells: set<(int, int)> := set x: int, y: int | 0 <= x < N && 0 <= y < N :: (x, y)

  /** The unvisited cells are the cells of the board that are not visited. */
  lemma UnseenRest(visit: array2<bool>)
    requires visit.Length0 == N && visit.Length1 == N
    ensures Unseen(visit) == Cells - Seen(visit)
  {
    forall z | z in Cells
      ensures z in Unseen(visit) <==> z !in Seen(visit)
    {
      assert z == (z.0, z.1);
      if visit[z.0, z.1] {
        assert z in Seen(visit);
      } else {
        assert z in Unseen(visit);
      }
    }
  }

  /** Visiting more cells, a among them, leaves fewer cells unvisited. */
  lemma UnseenShrinks(S0: set<(int, int)>, S: set<(int, int)>, a: (int, int))
    requires a in S && a in Cells && a !in S0
    ensures Cells - (S0 + S) < Cells - S0
  {
    assert a in Cells - S0 && a !in Cells - (S0 + S);
  }

  /** `visit[x][y] = true`. */
  method Mark(visit: array2<bool>, x: int, y: int)
    requires visit.Length0 == N && visit.Length1 == N && InBounds(x, y) && !visit[x, y]
    modifies visit
    ensures (x, y) in Cells && (x, y) !in old(Seen(visit))
    ensures Seen(visit) == old(Seen(visit)) + {(x, y)}
  {
    ghost var before := Seen(visit);
    visit[x, y] := true;
    forall z
      ensures z in Seen(visit) <==> z in before + {(x, y)}
    {
      if z in Cells {
        assert z == (z.0, z.1);
        assert visit[z.0, z.1] == (old(visit[z.0, z.1]) || z == (x, y));
      }
    }
  }

  /** The test `dfs` applies to a neighbour: on the board, unvisited, occupied and of colour c. */
  lemma NeighbourTest(b: Board, c: bool, visit: array2<bool>, xp: int, yp: int)
    requires b.Valid() && visit.Length0 == N && visit.Length1 == N
    ensures (InBounds(xp, yp) && !visit[xp, yp] && !Empty(b.grid[xp, yp]) && White(b.grid[xp, yp]) == c) <==>
      (Own(b.cells, c, (xp, yp)) && (xp, yp) !in Seen(visit))
  {
    if InBounds(xp, yp) {
      assert b.grid[xp, yp] == Cell(b.cells, (xp, yp));
      assert visit[xp, yp] <==> (xp, yp) in Seen(visit);
    }
  }

  /**
   * `dfs`: marks (x, y) visited, stretches the box to hold it, and searches
   * on from each unvisited own neighbour in turn. The cells S it marks are
   * joined to (x, y), their own neighbours all end up visited, and the box
   * is stretched to hold exactly them.
   */
  method Dfs(b: Board, c: bool, visit: array2<bool>, x: int, y: int, box: Lrud) returns (box': Lrud, ghost S: set<(int, int)>)
    requires b.Valid() && visit.Length0 == N && visit.Length1 == N
    requires Own(b.cells, c, (x, y)) && !visit[x, y]
    modifies visit
    ensures Seen(visit) == old(Seen(visit)) + S
    ensures Grown(b.cells, c, (x, y), old(Seen(visit)), S, box', box)
    decreases Unseen(visit), 0
  {
    ghost var S0 := Seen(visit);
    ghost var g := b.cells;
    UnseenRest(visit);
    Mark(visit, x, y);
    PartialStart(g, c, (x, y), S0, box);
    box' := Extend(box, (x, y));
    S := {(x, y)};
    for i := 0 to 4
      invariant g == b.cells && Seen(visit) == S0 + S
      invariant Partial(g, c, (x, y), S0, S, box', box) && Tried(g, c, (x, y), i, S0 + S)
    {
      UnseenRest(visit);
      UnseenShrinks(S0, S, (x, y));
      box', S := TryNeighbour(b, c, visit, x, y, i, box', g, S0, S, box);
    }
    PartialDone(g, c, (x, y), S0, S, box', box);
  }

  /** One turn of the loop of `dfs`: search on from the i-th neighbour when it is unvisited and own. */
  method TryNeighbour(b: Board, c: bool, visit: array2<bool>, x: int, y: int, i: int, box: Lrud,
                      ghost g: Grid, ghost S0: set<(int, int)>, ghost S: set<(int, int)>, ghost b0: Lrud)
    returns (box': Lrud, ghost S': set<(int, int)>)
    requires b.Valid() && g == b.cells && visit.Length0 == N && visit.Length1 == N && 0 <= i < 4
    requires Seen(visit) == S0 + S
    requires Own(g, c, (x, y)) && Partial(g, c, (x, y), S0, S, box, b0) && Tried(g, c, (x, y), i, S0 + S)
    modifies visit
    ensures Seen(visit) == S0 + S'
    ensures Partial(g, c, (x, y), S0, S', box', b0) && Tried(g, c, (x, y), i + 1, S0 + S')
    decreases Unseen(visit), 1
  {
    var (xp, yp) := Neighbour((x, y), i);
    NeighbourTest(b, c, visit, xp, yp);
    if InBounds(xp, yp) && !visit[xp, yp] && !Empty(b.grid[xp, yp]) && White(b.grid[xp, yp]) == c {
      ghost var T;
      box', T := Dfs(b, c, visit, xp, yp, box);
      PartialStep(g, c, (x, y), S0, S, T, b0, box, box', i);
      S' := S + T;
      TriedGrows(g, c, (x, y), i, S0 + S, S0 + S');
    } else {
      box', S' := box, S;
    }
  }

  /**
   * After a search from an unvisited own cell a, with every group visited
   * before closed, the cells marked are the group of a and the box is its
   * least box.
   */
  lemma SeedFound(g: Grid, c: bool, V: set<(int, int)>, S: set<(int, int)>, a: (int, int), bx: Lrud)
    requires IsGrid(g) && Closes(g, c, V, V) && Own(g, c, a) && a !in V
    requires Grown(g, c, a, V, S, bx, Lrud(a.0, a.0, a.1, a.1))
    ensures S == Component(g, c, a)
    ensures 0 <= bx.r - bx.l < N && 0 <= bx.u - bx.d < N
    ensures Spread(S) == Weights[bx.r - bx.l] + Weights[bx.u - bx.d]
  {
    GrownIsComponent(g, c, V, S, a);
    ComponentShape(g, c, a);
    HullOfSeed(bx, a, S);
    BoxUnique(S, LeastBox(S), bx);
    BoxOnBoard(S, bx);
  }

  lemma FoundCases(g: Grid, c: bool, st: (int, set<(int, int)>), x: int, y: int)
    requires IsGrid(g) && InBounds(x, y)
    ensures (x, y) !in st.1 && Own(g, c, (x, y)) ==>
      Found(g, c, st, x, y) == (st.0 + Spread(Component(g, c, (x, y))), st.1 + Component(g, c, (x, y)))
    ensures !((x, y) !in st.1 && Own(g, c, (x, y))) ==> Found(g, c, st, x, y) == st
  {
  }

  /** The test of the scan: unvisited, occupied and of colour c. */
  lemma SeedTest(b: Board, c: bool, visit: array2<bool>, x: int, y: int)
    requires b.Valid() && visit.Length0 == N && visit.Length1 == N && InBounds(x, y)
    ensures (!visit[x, y] && !Empty(b.grid[x, y]) && White(b.grid[x, y]) == c) <==>
      ((x, y) !in Seen(visit) && Own(b.cells, c, (x, y)))
  {
    assert b.grid[x, y] == Cell(b.cells, (x, y));
    assert visit[x, y] <==> (x, y) in Seen(visit);
  }

  /** The body of the scan of `evaluate_components` on cell (x, y). */
  method ScoreCell(b: Board, c: bool, visit: array2<bool>, x: int, y: int, score: int, ghost st: (int, set<(int, int)>))
    returns (score': int)
    requires b.Valid() && visit.Length0 == N && visit.Length1 == N && InBounds(x, y)
    requires (score, Seen(visit)) == st && Closes(b.cells, c, st.1, st.1)
    modifies visit
    ensures (score', Seen(visit)) == Found(b.cells, c, st, x, y)
  {
    var seed := !visit[x, y] && !Empty(b.grid[x, y]) && White(b.grid[x, y]) == c;
    SeedTest(b, c, visit, x, y);
    if seed {
      ghost var S;
      score', S := ScoreSeed(b, c, visit, x, y, score, st.1);
      SeedState(b.cells, c, st, x, y, S, score', Seen(visit));
    } else {
      score' := score;
      FoundCases(b.cells, c, st, x, y);
    }
  }

  /** A new group found at (x, y): mark it with `dfs` and add the weights of its spans. */
  method ScoreSeed(b: Board, c: bool, visit: array2<bool>, x: int, y: int, score: int, ghost V: set<(int, int)>)
    returns (score': int, ghost S: set<(int, int)>)
    requires b.Valid() && visit.Length0 == N && visit.Length1 == N
    requires Seen(visit) == V && Closes(b.cells, c, V, V)
    requires Own(b.cells, c, (x, y)) && (x, y) !in V && !visit[x, y]
    modifies visit
    ensures S == Component(b.cells, c, (x, y)) && S != {} && forall z :: z in S ==> OnBoard(z)
    ensures Seen(visit) == V + S
    ensures score' == score + Spread(S)
  {
    var box;
    box, S := Dfs(b, c, visit, x, y, Lrud(x, x, y, y));
    SeedFound(b.cells, c, V, S, (x, y), box);
    ComponentShape(b.cells, c, (x, y));
    score' := score + Weights[box.r - box.l] + Weights[box.u - box.d];
  }

  /** The state after a new group S is marked and scored is the next state of the scan. */
  lemma SeedState(g: Grid, c: bool, st: (int, set<(int, int)>), x: int, y: int,
                  S: set<(int, int)>, score: int, seen: set<(int, int)>)
    requires IsGrid(g) && InBounds(x, y) && (x, y) !in st.1 && Own(g, c, (x, y))
    requires S == Component(g, c, (x, y)) && S != {} && (forall z :: z in S ==> OnBoard(z))
    requires seen == st.1 + S && score == st.0 + Spread(S)
    ensures (score, seen) == Found(g, c, st, x, y)
  {
    FoundCases(g, c, st, x, y);
  }

  /** `evaluate_components`: the scan, with a fresh visited array. */
  method EvaluateComponents(b: Board, c: bool) returns (score: int)
    requires b.Valid()
    ensures score == ComponentsScore(b.cells, c)
  {
    var visit := new bool[N, N]((x, y) => false);
    assert Seen(visit) == {};
    score := 0;
    for x := 0 to N
      invariant (score, Seen(visit)) == Scan(b.cells, c, x)
    {
      ScanWhole(b.cells, c, x);
      for y := 0 to N
        invariant (score, Seen(visit)) == ColumnFound(b.cells, c, Scan(b.cells, c, x), x, y)
      {
        ColumnWhole(b.cells, c, Scan(b.cells, c, x), x, y);
        score := ScoreCell(b, c, visit, x, y, score, (score, Seen(visit)));
      }
    }
  }
}
