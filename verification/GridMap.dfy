/** Hole filling and removal of isolated cells, in place on the height grid. */
module GridMap {

  datatype GridState =
    | NoPointCloud | Ground | Surface | FeedHouse | FeedInlet | WarningArea | Wall | Obstacle | Workspace
    | FeedFasterZone | BottomGround | HardSurface | FlatSurface | GentleSlopeSurface | SteepSurface | MixSurface
    | InvalidSurface

  /** Heights are real numbers. */
  datatype Cell = Cell(state: GridState, z: real, ptsNum: nat)

  type Grid = seq<seq<Cell>>

  const DIRS: seq<(int, int)> := [(-1, -1), (-1, 0), (-1, 1), (0, -1), (0, 1), (1, -1), (1, 0), (1, 1)]

  ghost predicate Rect(g: Grid, rows: nat, cols: nat) {
    |g| == rows && forall r :: 0 <= r < rows ==> |g[r]| == cols
  }

  predicate Inside(rows: nat, cols: nat, r: int, c: int) {
    0 <= r < rows && 0 <= c < cols
  }

  ghost predicate IsSurface(g: Grid, rows: nat, cols: nat, r: int, c: int)
    requires Rect(g, rows, cols)
  {
    Inside(rows, cols, r, c) && g[r][c].state == Surface
  }

  /** Number and total height of the Surface neighbours in the first k directions. */
  ghost function Count(g: Grid, rows: nat, cols: nat, r: int, c: int, k: nat): nat
    requires Rect(g, rows, cols) && k <= |DIRS|
  {
    if k == 0 then 0
    else Count(g, rows, cols, r, c, k - 1) + if IsSurface(g, rows, cols, r + DIRS[k - 1].0, c + DIRS[k - 1].1) then 1 else 0
  }

  ghost function Total(g: Grid, rows: nat, cols: nat, r: int, c: int, k: nat): real
    requires Rect(g, rows, cols) && k <= |DIRS|
  {
    if k == 0 then 0.0
    else
      var nr, nc := r + DIRS[k - 1].0, c + DIRS[k - 1].1;
      Total(g, rows, cols, r, c, k - 1) + if IsSurface(g, rows, cols, nr, nc) then g[nr][nc].z else 0.0
  }

  /** The cell a blank one becomes: the average of its Surface neighbours, if it has any. */
  ghost function FilledCell(g: Grid, rows: nat, cols: nat, r: int, c: int): Cell
    requires Rect(g, rows, cols) && Inside(rows, cols, r, c)
  {
    var n := Count(g, rows, cols, r, c, |DIRS|);
    if g[r][c].state == Surface || n == 0 then g[r][c]
    else Cell(Surface, Total(g, rows, cols, r, c, |DIRS|) / n as real, 1)
  }

  ghost function Put(g: Grid, r: int, c: int, x: Cell): Grid
    requires 0 <= r < |g| && 0 <= c < |g[r]|
  {
    g[r := g[r][c := x]]
  }

  /** The grid when the cells before (r, c), row by row, have been filled one after the other. */
  ghost function Sweep(g: Grid, rows: nat, cols: nat, r: nat, c: nat): (s: Grid)
    requires Rect(g, rows, cols) && r <= rows && c <= cols && (r == rows ==> c == 0)
    ensures Rect(s, rows, cols)
    decreases r, c
  {
    if c > 0 then
      var s := Sweep(g, rows, cols, r, c - 1);
      Put(s, r, c - 1, FilledCell(s, rows, cols, r, c - 1))
    else if r > 0 then Sweep(g, rows, cols, r - 1, cols)
    else g
  }

  ghost function Filled(g: Grid, rows: nat, cols: nat): (s: Grid)
    requires Rect(g, rows, cols)
    ensures Rect(s, rows, cols)
  {
    Sweep(g, rows, cols, rows, 0)
  }

  /** The contents of a two-dimensional array, row by row. */
  ghost function Rows(a: array2<Cell>): (g: Grid)
    reads a
    ensures Rect(g, a.Length0, a.Length1)
  {
    seq(a.Length0, r requires 0 <= r < a.Length0 reads a =>
      seq(a.Length1, c requires 0 <= c < a.Length1 reads a => a[r, c]))
  }

  /** The loop over the eight directions around a cell. */
  method SurveyNeighbours(grid: array2<Cell>, r: int, c: int) returns (sumZ: real, cnt: nat)
    requires Inside(grid.Length0, grid.Length1, r, c)
    ensures sumZ == Total(Rows(grid), grid.Length0, grid.Length1, r, c, |DIRS|)
    ensures cnt == Count(Rows(grid), grid.Length0, grid.Length1, r, c, |DIRS|)
  {
    var rows, cols := grid.Length0, grid.Length1;
    sumZ, cnt := 0.0, 0;
    for d := 0 to |DIRS|
      invariant sumZ == Total(Rows(grid), rows, cols, r, c, d) && cnt == Count(Rows(grid), rows, cols, r, c, d)
    {
      var nr, nc := r + DIRS[d].0, c + DIRS[d].1;
      if 0 <= nr < rows && 0 <= nc < cols {
        if grid[nr, nc].state == Surface {
          sumZ := sumZ + grid[nr, nc].z;
          cnt := cnt + 1;
        }
      }
    }
  }

  method SetCell(grid: array2<Cell>, r: nat, c: nat, x: Cell)
    requires Inside(grid.Length0, grid.Length1, r, c)
    modifies grid
    ensures Rows(grid) == Put(old(Rows(grid)), r, c, x)
  {
    ghost var t := Put(Rows(grid), r, c, x);
    grid[r, c] := x;
    forall i | 0 <= i < grid.Length0
      ensures Rows(grid)[i] == t[i]
    {
      assert forall j :: 0 <= j < grid.Length1 ==> Rows(grid)[i][j] == t[i][j];
    }
  }

  lemma PutSame(g: Grid, r: nat, c: nat)
    requires r < |g| && c < |g[r]|
    ensures Put(g, r, c, g[r][c]) == g
  {
    assert g[r][c := g[r][c]] == g[r];
  }

  method FillBlankCells(grid: array2<Cell>)
    modifies grid
    ensures Rows(grid) == Filled(old(Rows(grid)), grid.Length0, grid.Length1)
  {
    var rows, cols := grid.Length0, grid.Length1;
    ghost var g := Rows(grid);
    for r := 0 to rows
      invariant Rows(grid) == Sweep(g, rows, cols, r, 0)
    {
      for c := 0 to cols
        invariant Rows(grid) == Sweep(g, rows, cols, r, c)
      {
        PutSame(Rows(grid), r, c);
        if grid[r, c].state != Surface {
          var sumZ, cnt := SurveyNeighbours(grid, r, c);
          if cnt > 0 {
            SetCell(grid, r, c, Cell(Surface, sumZ / cnt as real, 1));
          }
        }
      }
    }
  }

  // ----- the exact mask -----

  predicate Earlier(i: int, j: int, r: int, c: int) {
    i < r || (i == r && j < c)
  }

  predicate Neighbours(i: int, j: int, r: int, c: int) {
    (i, j) != (r, c) && -1 <= i - r <= 1 && -1 <= j - c <= 1
  }

  /** A sweep has changed only the cells before its place, and each of those for good. */
  lemma {:induction false} SweepSettles(g: Grid, rows: nat, cols: nat, r: nat, c: nat, i: nat, j: nat)
    requires Rect(g, rows, cols) && r <= rows && c <= cols && (r == rows ==> c == 0) && Inside(rows, cols, i, j)
    ensures Sweep(g, rows, cols, r, c)[i][j] ==
            if Earlier(i, j, r, c) then Sweep(g, rows, cols, i, j + 1)[i][j] else g[i][j]
    decreases r, c
  {
    if c > 0 {
      SweepSettles(g, rows, cols, r, c - 1, i, j);
    } else if r > 0 {
      SweepSettles(g, rows, cols, r - 1, cols, i, j);
    }
  }

  /** While a cell is filled, the cells before it have their final value and the others their first. */
  lemma SweepAt(g: Grid, rows: nat, cols: nat, r: nat, c: nat, i: nat, j: nat)
    requires Rect(g, rows, cols) && Inside(rows, cols, r, c) && Inside(rows, cols, i, j)
    ensures Sweep(g, rows, cols, r, c)[i][j] == if Earlier(i, j, r, c) then Filled(g, rows, cols)[i][j] else g[i][j]
    ensures Filled(g, rows, cols)[r][c] == FilledCell(Sweep(g, rows, cols, r, c), rows, cols, r, c)
  {
    SweepSettles(g, rows, cols, r, c, i, j);
    SweepSettles(g, rows, cols, rows, 0, i, j);
    SweepSettles(g, rows, cols, rows, 0, r, c);
  }

  lemma CountPositive(g: Grid, rows: nat, cols: nat, r: int, c: int, k: nat)
    requires Rect(g, rows, cols) && k <= |DIRS|
    ensures Count(g, rows, cols, r, c, k) > 0 <==>
            exists d :: 0 <= d < k && IsSurface(g, rows, cols, r + DIRS[d].0, c + DIRS[d].1)
  {
  }

  lemma DirectionOf(i: int, j: int, r: int, c: int) returns (d: nat)
    requires Neighbours(i, j, r, c)
    ensures d < |DIRS| && i == r + DIRS[d].0 && j == c + DIRS[d].1
  {
    d := if i < r then j - c + 1 else if i == r then (if j < c then 3 else 4) else j - c + 6;
  }

  ghost predicate HasSurfaceNeighbour(g: Grid, rows: nat, cols: nat, r: int, c: int)
    requires Rect(g, rows, cols)
  {
    exists i, j :: Neighbours(i, j, r, c) && IsSurface(g, rows, cols, i, j)
  }

  lemma CountMeansNeighbour(g: Grid, rows: nat, cols: nat, r: int, c: int)
    requires Rect(g, rows, cols)
    ensures Count(g, rows, cols, r, c, |DIRS|) > 0 <==> HasSurfaceNeighbour(g, rows, cols, r, c)
  {
    CountPositive(g, rows, cols, r, c, |DIRS|);
    if Count(g, rows, cols, r, c, |DIRS|) > 0 {
      var d :| 0 <= d < |DIRS| && IsSurface(g, rows, cols, r + DIRS[d].0, c + DIRS[d].1);
      assert Neighbours(r + DIRS[d].0, c + DIRS[d].1, r, c);
    }
    if HasSurfaceNeighbour(g, rows, cols, r, c) {
      var i, j :| Neighbours(i, j, r, c) && IsSurface(g, rows, cols, i, j);
      var d := DirectionOf(i, j, r, c);
    }
  }

  /** A later neighbour that was Surface before, or an earlier one that is Surface after. */
  ghost predicate Reached(before: Grid, after: Grid, rows: nat, cols: nat, r: int, c: int)
    requires Rect(before, rows, cols) && Rect(after, rows, cols)
  {
    exists i, j :: Neighbours(i, j, r, c) &&
      if Earlier(i, j, r, c) then IsSurface(after, rows, cols, i, j) else IsSurface(before, rows, cols, i, j)
  }

  /** After one call a cell is Surface exactly when it was, or a later neighbour was, or an earlier neighbour now is. */
  lemma ExactMask(g: Grid, rows: nat, cols: nat, r: nat, c: nat)
    requires Rect(g, rows, cols) && Inside(rows, cols, r, c)
    ensures var s := Filled(g, rows, cols);
      IsSurface(s, rows, cols, r, c) <==> IsSurface(g, rows, cols, r, c) || Reached(g, s, rows, cols, r, c)
    ensures IsSurface(g, rows, cols, r, c) ==> Filled(g, rows, cols)[r][c] == g[r][c]
  {
    var s, h := Filled(g, rows, cols), Sweep(g, rows, cols, r, c);
    SweepAt(g, rows, cols, r, c, r, c);
    CountMeansNeighbour(h, rows, cols, r, c);
    forall i, j | Neighbours(i, j, r, c)
      ensures IsSurface(h, rows, cols, i, j) <==>
              if Earlier(i, j, r, c) then IsSurface(s, rows, cols, i, j) else IsSurface(g, rows, cols, i, j)
    {
      if Inside(rows, cols, i, j) { SweepAt(g, rows, cols, r, c, i, j); }
    }
  }

  // ----- the exact heights -----

  /** A neighbour as it is seen while cell (r, c) is filled: an earlier one as it is afterwards, a later one as before. */
  ghost predicate Seen(before: Grid, after: Grid, rows: nat, cols: nat, r: int, c: int, i: int, j: int)
    requires Rect(before, rows, cols) && Rect(after, rows, cols)
  {
    Inside(rows, cols, i, j) && (if Earlier(i, j, r, c) then after[i][j] else before[i][j]).state == Surface
  }

  ghost function Number(before: Grid, after: Grid, rows: nat, cols: nat, r: int, c: int, i: int, j: int): real
    requires Rect(before, rows, cols) && Rect(after, rows, cols)
  {
    if Seen(before, after, rows, cols, r, c, i, j) then 1.0 else 0.0
  }

  ghost function Height(before: Grid, after: Grid, rows: nat, cols: nat, r: int, c: int, i: int, j: int): real
    requires Rect(before, rows, cols) && Rect(after, rows, cols)
  {
    if Seen(before, after, rows, cols, r, c, i, j) then (if Earlier(i, j, r, c) then after[i][j] else before[i][j]).z else 0.0
  }

  /** The sum of a number for each of the eight places around (r, c). */
  ghost function Around(f: (int, int) -> real, r: int, c: int): real {
    f(r - 1, c - 1) + f(r - 1, c) + f(r - 1, c + 1) + f(r, c - 1) + f(r, c + 1) + f(r + 1, c - 1) + f(r + 1, c) + f(r + 1, c + 1)
  }

  /** The same, direction by direction. */
  ghost function Along(f: (int, int) -> real, r: int, c: int, k: nat): real
    requires k <= |DIRS|
  {
    if k == 0 then 0.0 else Along(f, r, c, k - 1) + f(r + DIRS[k - 1].0, c + DIRS[k - 1].1)
  }

  lemma AlongIsAround(f: (int, int) -> real, r: int, c: int)
    ensures Along(f, r, c, 8) == Around(f, r, c)
  {
    assert Along(f, r, c, 2) == Along(f, r, c, 1) + f(r - 1, c);
    assert Along(f, r, c, 4) == Along(f, r, c, 3) + f(r, c - 1);
    assert Along(f, r, c, 6) == Along(f, r, c, 5) + f(r + 1, c - 1);
  }

  ghost predicate CountsSurface(h: Grid, rows: nat, cols: nat, r: int, c: int, f: (int, int) -> real)
    requires Rect(h, rows, cols)
  {
    forall i, j :: Neighbours(i, j, r, c) ==> f(i, j) == if IsSurface(h, rows, cols, i, j) then 1.0 else 0.0
  }

  ghost predicate AddsHeights(h: Grid, rows: nat, cols: nat, r: int, c: int, f: (int, int) -> real)
    requires Rect(h, rows, cols)
  {
    forall i, j :: Neighbours(i, j, r, c) ==> f(i, j) == if IsSurface(h, rows, cols, i, j) then h[i][j].z else 0.0
  }

  lemma {:induction false} CountIsAlong(h: Grid, rows: nat, cols: nat, r: int, c: int, f: (int, int) -> real, k: nat)
    requires Rect(h, rows, cols) && CountsSurface(h, rows, cols, r, c, f) && k <= 8
    ensures Count(h, rows, cols, r, c, k) as real == Along(f, r, c, k)
  {
    if k > 0 {
      CountIsAlong(h, rows, cols, r, c, f, k - 1);
      assert Neighbours(r + DIRS[k - 1].0, c + DIRS[k - 1].1, r, c);
    }
  }

  lemma {:induction false} TotalIsAlong(h: Grid, rows: nat, cols: nat, r: int, c: int, f: (int, int) -> real, k: nat)
    requires Rect(h, rows, cols) && AddsHeights(h, rows, cols, r, c, f) && k <= 8
    ensures Total(h, rows, cols, r, c, k) == Along(f, r, c, k)
  {
    if k > 0 {
      TotalIsAlong(h, rows, cols, r, c, f, k - 1);
      assert Neighbours(r + DIRS[k - 1].0, c + DIRS[k - 1].1, r, c);
    }
  }

  lemma FilledMean(h: Grid, rows: nat, cols: nat, r: int, c: int)
    requires Rect(h, rows, cols) && Inside(rows, cols, r, c) && !IsSurface(h, rows, cols, r, c)
    ensures var x, n := FilledCell(h, rows, cols, r, c), Count(h, rows, cols, r, c, 8);
      if n == 0 then x == h[r][c]
      else x.state == Surface && x.ptsNum == 1 && IsMean(x.z, n as real, Total(h, rows, cols, r, c, 8))
  {
    var n := Count(h, rows, cols, r, c, 8);
    if n > 0 { MeanOf(Total(h, rows, cols, r, c, 8), n as real); }
  }

  ghost predicate IsMean(z: real, n: real, total: real) {
    z * n == total
  }

  lemma MeanOf(total: real, n: real)
    requires n > 0.0
    ensures IsMean(total / n, n, total)
  {
  }

  ghost function NumberAround(before: Grid, after: Grid, rows: nat, cols: nat, r: int, c: int): real
    requires Rect(before, rows, cols) && Rect(after, rows, cols)
  {
    Around((i, j) => Number(before, after, rows, cols, r, c, i, j), r, c)
  }

  ghost function HeightAround(before: Grid, after: Grid, rows: nat, cols: nat, r: int, c: int): real
    requires Rect(before, rows, cols) && Rect(after, rows, cols)
  {
    Around((i, j) => Height(before, after, rows, cols, r, c, i, j), r, c)
  }

  lemma SweepAround(g: Grid, rows: nat, cols: nat, r: nat, c: nat)
    requires Rect(g, rows, cols) && Inside(rows, cols, r, c)
    ensures var s, h := Filled(g, rows, cols), Sweep(g, rows, cols, r, c);
      && Count(h, rows, cols, r, c, 8) as real == NumberAround(g, s, rows, cols, r, c)
      && Total(h, rows, cols, r, c, 8) == HeightAround(g, s, rows, cols, r, c)
  {
    var s, h := Filled(g, rows, cols), Sweep(g, rows, cols, r, c);
    forall i, j | Neighbours(i, j, r, c)
      ensures Number(g, s, rows, cols, r, c, i, j) == if IsSurface(h, rows, cols, i, j) then 1.0 else 0.0
      ensures Height(g, s, rows, cols, r, c, i, j) == if IsSurface(h, rows, cols, i, j) then h[i][j].z else 0.0
    {
      if Inside(rows, cols, i, j) { SweepAt(g, rows, cols, r, c, i, j); }
    }
    var count: (int, int) -> real := (i, j) => Number(g, s, rows, cols, r, c, i, j);
    var height: (int, int) -> real := (i, j) => Height(g, s, rows, cols, r, c, i, j);
    CountIsAlong(h, rows, cols, r, c, count, 8);
    TotalIsAlong(h, rows, cols, r, c, height, 8);
    AlongIsAround(count, r, c);
    AlongIsAround(height, r, c);
  }

  /** After one call a cell that was not Surface has the mean height of its Surface neighbours, the earlier ones as they are
      afterwards and the later ones as they were, and counts as one point; without any it is as before. */
  lemma ExactHeight(g: Grid, rows: nat, cols: nat, r: nat, c: nat)
    requires Rect(g, rows, cols) && Inside(rows, cols, r, c) && !IsSurface(g, rows, cols, r, c)
    ensures var s := Filled(g, rows, cols); var n := NumberAround(g, s, rows, cols, r, c);
      if n == 0.0 then s[r][c] == g[r][c]
      else
        && s[r][c].state == Surface && s[r][c].ptsNum == 1
        && IsMean(s[r][c].z, n, HeightAround(g, s, rows, cols, r, c))
  {
    SweepAt(g, rows, cols, r, c, r, c);
    SweepAround(g, rows, cols, r, c);
    FilledMean(Sweep(g, rows, cols, r, c), rows, cols, r, c);
  }

  // ----- how far one Surface cell spreads -----

  ghost function FilledTimes(g: Grid, rows: nat, cols: nat, k: nat): (s: Grid)
    requires Rect(g, rows, cols)
    ensures Rect(s, rows, cols)
  {
    if k == 0 then g else Filled(FilledTimes(g, rows, cols, k - 1), rows, cols)
  }

  lemma {:induction false} SpreadOnce(g: Grid, rows: nat, cols: nat, r: nat, c: nat, i: nat, j: nat)
    requires Rect(g, rows, cols) && IsSurface(g, rows, cols, r, c)
    requires Inside(rows, cols, i, j) && i >= r - 1 && j >= c - 1
    ensures IsSurface(Filled(g, rows, cols), rows, cols, i, j)
    decreases i, j
  {
    ExactMask(g, rows, cols, i, j);
    if i > r {
      SpreadOnce(g, rows, cols, r, c, i - 1, j);
      assert Neighbours(i - 1, j, i, j) && Earlier(i - 1, j, i, j);
    } else if j > c + 1 || (i == r && j > c) {
      SpreadOnce(g, rows, cols, r, c, i, j - 1);
      assert Neighbours(i, j - 1, i, j) && Earlier(i, j - 1, i, j);
    } else if (i, j) != (r, c) {
      assert Neighbours(r, c, i, j) && !Earlier(r, c, i, j);
    }
  }

  /** Every cell of row at least a and column at least b is Surface. */
  ghost predicate Covered(g: Grid, rows: nat, cols: nat, a: int, b: int)
    requires Rect(g, rows, cols)
  {
    forall i, j :: Inside(rows, cols, i, j) && i >= a && j >= b ==> IsSurface(g, rows, cols, i, j)
  }

  lemma CoverGrows(g: Grid, rows: nat, cols: nat, a: int, b: int)
    requires Rect(g, rows, cols) && Covered(g, rows, cols, a, b) && a < rows && b < cols
    ensures Covered(Filled(g, rows, cols), rows, cols, a - 1, b - 1)
  {
    forall i, j | Inside(rows, cols, i, j) && i >= a - 1 && j >= b - 1
      ensures IsSurface(Filled(g, rows, cols), rows, cols, i, j)
    {
      var r, c := if i >= a then i else a, if j >= b then j else b;
      assert IsSurface(g, rows, cols, r, c);
      SpreadOnce(g, rows, cols, r, c, i, j);
    }
  }

  lemma {:induction false} CoverAfter(g: Grid, rows: nat, cols: nat, r: nat, c: nat, k: nat)
    requires Rect(g, rows, cols) && IsSurface(g, rows, cols, r, c) && k > 0
    ensures Covered(FilledTimes(g, rows, cols, k), rows, cols, r - k, c - k)
  {
    if k == 1 {
      assert FilledTimes(g, rows, cols, 0) == g;
      forall i, j | Inside(rows, cols, i, j) && i >= r - 1 && j >= c - 1
        ensures IsSurface(Filled(g, rows, cols), rows, cols, i, j)
      {
        SpreadOnce(g, rows, cols, r, c, i, j);
      }
    } else {
      CoverAfter(g, rows, cols, r, c, k - 1);
      CoverGrows(FilledTimes(g, rows, cols, k - 1), rows, cols, r - (k - 1), c - (k - 1));
    }
  }

  /** One Surface cell at (r, c) makes the whole grid Surface within max(1, r, c) calls. */
  lemma WholeGridFilled(g: Grid, rows: nat, cols: nat, r: nat, c: nat, k: nat)
    requires Rect(g, rows, cols) && IsSurface(g, rows, cols, r, c)
    requires k >= 1 && k >= r && k >= c
    ensures forall i, j :: Inside(rows, cols, i, j) ==> IsSurface(FilledTimes(g, rows, cols, k), rows, cols, i, j)
  {
    CoverAfter(g, rows, cols, r, c, k);
  }

  // ----- heights stay between the old extremes -----

  ghost predicate HeightsWithin(g: Grid, rows: nat, cols: nat, lo: real, hi: real)
    requires Rect(g, rows, cols)
  {
    forall i, j :: IsSurface(g, rows, cols, i, j) ==> lo <= g[i][j].z <= hi
  }

  ghost function Times(n: nat, x: real): real {
    if n == 0 then 0.0 else Times(n - 1, x) + x
  }

  lemma {:induction false} TimesIsProduct(n: nat, x: real)
    ensures Times(n, x) == n as real * x
  {
    if n > 0 {
      TimesIsProduct(n - 1, x);
      assert n as real * x == (n - 1) as real * x + x;
    }
  }

  lemma {:induction false} TotalBounds(g: Grid, rows: nat, cols: nat, r: int, c: int, k: nat, lo: real, hi: real)
    requires Rect(g, rows, cols) && k <= |DIRS| && HeightsWithin(g, rows, cols, lo, hi)
    ensures var n := Count(g, rows, cols, r, c, k);
      Times(n, lo) <= Total(g, rows, cols, r, c, k) <= Times(n, hi)
  {
    if k > 0 {
      TotalBounds(g, rows, cols, r, c, k - 1, lo, hi);
    }
  }

  lemma AverageBounds(total: real, n: real, lo: real, hi: real)
    requires n > 0.0 && n * lo <= total <= n * hi
    ensures lo <= total / n <= hi
  {
    var q := total / n;
    assert q * n == total;
    assert (q - lo) * n >= 0.0 && (hi - q) * n >= 0.0;
  }

  lemma FilledBounds(g: Grid, rows: nat, cols: nat, r: int, c: int, lo: real, hi: real)
    requires Rect(g, rows, cols) && Inside(rows, cols, r, c) && HeightsWithin(g, rows, cols, lo, hi)
    ensures var x := FilledCell(g, rows, cols, r, c);
      x.state == Surface ==> lo <= x.z <= hi
  {
    var n := Count(g, rows, cols, r, c, |DIRS|);
    if IsSurface(g, rows, cols, r, c) {
    } else if n > 0 {
      TotalBounds(g, rows, cols, r, c, |DIRS|, lo, hi);
      TimesIsProduct(n, lo);
      TimesIsProduct(n, hi);
      AverageBounds(Total(g, rows, cols, r, c, |DIRS|), n as real, lo, hi);
    }
  }

  lemma {:induction false} SweepBounds(g: Grid, rows: nat, cols: nat, r: nat, c: nat, lo: real, hi: real)
    requires Rect(g, rows, cols) && r <= rows && c <= cols && (r == rows ==> c == 0)
    requires HeightsWithin(g, rows, cols, lo, hi)
    ensures HeightsWithin(Sweep(g, rows, cols, r, c), rows, cols, lo, hi)
    decreases r, c
  {
    if c > 0 {
      SweepBounds(g, rows, cols, r, c - 1, lo, hi);
      FilledBounds(Sweep(g, rows, cols, r, c - 1), rows, cols, r, c - 1, lo, hi);
    } else if r > 0 {
      SweepBounds(g, rows, cols, r - 1, cols, lo, hi);
    }
  }

  /** Any number of calls keeps every Surface height between the least and the greatest before. */
  lemma {:induction false} HeightsStayWithin(g: Grid, rows: nat, cols: nat, k: nat, lo: real, hi: real)
    requires Rect(g, rows, cols) && HeightsWithin(g, rows, cols, lo, hi)
    ensures HeightsWithin(FilledTimes(g, rows, cols, k), rows, cols, lo, hi)
  {
    if k > 0 {
      HeightsStayWithin(g, rows, cols, k - 1, lo, hi);
      SweepBounds(FilledTimes(g, rows, cols, k - 1), rows, cols, rows, 0, lo, hi);
    }
  }

  // ----- isolated cells -----

  /** Every Surface cell without a Surface neighbour loses its state, all at once. */
  ghost function WithoutIsolated(g: Grid, rows: nat, cols: nat): Grid
    requires Rect(g, rows, cols)
  {
    seq(rows, r requires 0 <= r < rows => seq(cols, c requires 0 <= c < cols => Unisolated(g, rows, cols, r, c)))
  }

  ghost function Unisolated(g: Grid, rows: nat, cols: nat, r: nat, c: nat): Cell
    requires Rect(g, rows, cols) && Inside(rows, cols, r, c)
  {
    if g[r][c].state == Surface && !HasSurfaceNeighbour(g, rows, cols, r, c) then g[r][c].(state := NoPointCloud) else g[r][c]
  }

  /** The grid when the cells before (r, c) have been dealt with. */
  ghost predicate Halfway(g: Grid, s: Grid, rows: nat, cols: nat, r: nat, c: nat) {
    && Rect(g, rows, cols) && Rect(s, rows, cols)
    && forall i, j :: Inside(rows, cols, i, j) ==>
         s[i][j] == if Earlier(i, j, r, c) then Unisolated(g, rows, cols, i, j) else g[i][j]
  }

  /** Cells already dropped were nobody's Surface neighbour, so a later cell sees the same neighbours as at the start. */
  lemma SameNeighbours(g: Grid, s: Grid, rows: nat, cols: nat, r: nat, c: nat)
    requires Halfway(g, s, rows, cols, r, c) && IsSurface(g, rows, cols, r, c)
    ensures HasSurfaceNeighbour(s, rows, cols, r, c) <==> HasSurfaceNeighbour(g, rows, cols, r, c)
  {
    forall i, j | Neighbours(i, j, r, c) && IsSurface(g, rows, cols, i, j)
      ensures IsSurface(s, rows, cols, i, j)
    {
      assert Neighbours(r, c, i, j);
    }
  }

  /** One cell of the sweep: dropped if it has no Surface neighbour now, that is, if it had none at the start. */
  method FilterCell(grid: array2<Cell>, r: nat, c: nat, ghost g: Grid)
    requires Inside(grid.Length0, grid.Length1, r, c) && Halfway(g, Rows(grid), grid.Length0, grid.Length1, r, c)
    modifies grid
    ensures Rows(grid) == Put(old(Rows(grid)), r, c, Unisolated(g, grid.Length0, grid.Length1, r, c))
  {
    ghost var s := Rows(grid);
    assert s[r][c] == g[r][c];
    PutSame(s, r, c);
    if grid[r, c].state == Surface {
      var _, neighborCnt := SurveyNeighbours(grid, r, c);
      CountMeansNeighbour(s, grid.Length0, grid.Length1, r, c);
      SameNeighbours(g, s, grid.Length0, grid.Length1, r, c);
      if neighborCnt == 0 {
        SetCell(grid, r, c, grid[r, c].(state := NoPointCloud));
      }
    }
  }

  /** The sweep in place removes exactly the cells that were isolated at the start. */
  method FilterIsolated(grid: array2<Cell>)
    modifies grid
    ensures Rows(grid) == WithoutIsolated(old(Rows(grid)), grid.Length0, grid.Length1)
  {
    var rows, cols := grid.Length0, grid.Length1;
    ghost var g := Rows(grid);
    for r := 0 to rows
      invariant Halfway(g, Rows(grid), rows, cols, r, 0)
    {
      for c := 0 to cols
        invariant Halfway(g, Rows(grid), rows, cols, r, c)
      {
        FilterCell(grid, r, c, g);
      }
    }
    AllFiltered(g, Rows(grid), rows, cols);
  }

  lemma AllFiltered(g: Grid, s: Grid, rows: nat, cols: nat)
    requires Halfway(g, s, rows, cols, rows, 0)
    ensures s == WithoutIsolated(g, rows, cols)
  {
    var done := WithoutIsolated(g, rows, cols);
    forall i | 0 <= i < rows
      ensures s[i] == done[i]
    {
      assert forall j :: 0 <= j < cols ==> s[i][j] == done[i][j];
    }
  }
}
