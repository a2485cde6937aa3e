/** What the numbers a pick depends on mean: the score of a cell, the sums over its block, the least and greatest height,
    and the grid the message describes. */
module PickingScores {
  import opened GridMap
  import opened Picking

  // ----- the score -----

  lemma Product(x: real, y: real)
    requires y > 0.0
    ensures x / y * y == x
  {
  }

  /** 0.3 times the height above the lowest, as a share h of the range, plus 0.7 times the flatness f. */
  lemma ScoreExact(z: real, minZ: real, maxZ: real, variance: real, cnt: nat) returns (h: real, f: real)
    requires minZ <= maxZ && variance >= 0.0
    ensures ScoreOf(z, minZ, maxZ, variance, cnt) == 0.3 * h + 0.7 * f
    ensures h * (maxZ - minZ + 0.000001) == z - minZ
    ensures f * (cnt as real + 0.000001 + variance) == cnt as real + 0.000001
  {
    h, f := HeightScore(z, minZ, maxZ), Flatness(variance, cnt);
    Product(z - minZ, maxZ - minZ + 0.000001);
    FlatnessExact(variance, cnt as real + 0.000001);
  }

  lemma FlatnessExact(v: real, n: real)
    requires v >= 0.0 && n > 0.0
    ensures 1.0 + v / n > 0.0 && 1.0 / (1.0 + v / n) * (n + v) == n
  {
    Ratio(v, n);
    Product(v, n);
    var q := 1.0 + v / n;
    Product(1.0, q);
    assert n + v == q * n;
    assert 1.0 / q * (q * n) == (1.0 / q * q) * n;
  }

  lemma Less(x: real, y: real, n: real)
    requires n > 0.0 && x * n < y * n
    ensures x < y
  {
    if x >= y { NotLess(x, y, n); }
  }

  lemma NotLess(x: real, y: real, n: real)
    requires n > 0.0 && x >= y
    ensures x * n >= y * n
  {
  }

  /** Higher is better. */
  lemma HigherIsBetter(z: real, w: real, minZ: real, maxZ: real, variance: real, cnt: nat)
    requires minZ <= maxZ && variance >= 0.0 && z < w
    ensures ScoreOf(z, minZ, maxZ, variance, cnt) < ScoreOf(w, minZ, maxZ, variance, cnt)
  {
    var n := maxZ - minZ + 0.000001;
    Product(z - minZ, n);
    Product(w - minZ, n);
    Less((z - minZ) / n, (w - minZ) / n, n);
  }

  /** Flatter is better. */
  lemma FlatterIsBetter(z: real, minZ: real, maxZ: real, v: real, w: real, cnt: nat)
    requires minZ <= maxZ && 0.0 <= v < w
    ensures ScoreOf(z, minZ, maxZ, v, cnt) > ScoreOf(z, minZ, maxZ, w, cnt)
  {
    Falling(v, w, cnt as real + 0.000001);
  }

  lemma Falling(v: real, w: real, n: real)
    requires 0.0 <= v < w && n > 0.0
    ensures 1.0 + v / n > 0.0 && 1.0 + w / n > 0.0
    ensures 1.0 / (1.0 + w / n) < 1.0 / (1.0 + v / n)
  {
    FlatnessExact(v, n);
    FlatnessExact(w, n);
    var a, b := 1.0 / (1.0 + v / n), 1.0 / (1.0 + w / n);
    Inverse(1.0 + v / n);
    Inverse(1.0 + w / n);
    Ratio(v, n);
    Ratio(w, n);
    assert a * (n + v) == b * (n + w);
    assert b * (n + w) == b * (n + v) + b * (w - v);
    assert b * (w - v) > 0.0;
    Less(b, a, n + v);
  }

  /** The lowest cell has 0.7 when its block is perfectly flat, and no height adds as much as 0.3 to that. */
  lemma WeightsExact(z: real, minZ: real, maxZ: real, variance: real, cnt: nat)
    requires minZ <= z <= maxZ && variance >= 0.0
    ensures ScoreOf(minZ, minZ, maxZ, 0.0, cnt) == 0.7
    ensures 0.0 <= ScoreOf(z, minZ, maxZ, variance, cnt) - ScoreOf(minZ, minZ, maxZ, variance, cnt) < 0.3
  {
    Quotient(z - minZ, maxZ - minZ + 0.000001);
    assert HeightScore(minZ, minZ, maxZ) == 0.0;
    assert Flatness(0.0, cnt) == 1.0;
  }

  // ----- the block -----

  ghost function SurfaceAt(g: Grid, rows: nat, cols: nat, i: int, j: int): real
    requires Rect(g, rows, cols)
  {
    if IsSurface(g, rows, cols, i, j) then 1.0 else 0.0
  }

  ghost function SquareAt(g: Grid, rows: nat, cols: nat, z: real, i: int, j: int): real
    requires Rect(g, rows, cols)
  {
    if IsSurface(g, rows, cols, i, j) then (g[i][j].z - z) * (g[i][j].z - z) else 0.0
  }

  /** A number for each place of the block, added place by place. */
  ghost function InBlock(f: (int, int) -> real, r: int, c: int, k: nat): real
    requires k <= |BLOCK|
  {
    if k == 0 then 0.0 else InBlock(f, r, c, k - 1) + f(r + BLOCK[k - 1].0, c + BLOCK[k - 1].1)
  }

  lemma InBlockIsAround(f: (int, int) -> real, r: int, c: int)
    ensures InBlock(f, r, c, 9) == f(r, c) + Around(f, r, c)
  {
    assert InBlock(f, r, c, 1) == f(r - 1, c - 1);
    assert InBlock(f, r, c, 2) == InBlock(f, r, c, 1) + f(r - 1, c);
    assert InBlock(f, r, c, 3) == InBlock(f, r, c, 2) + f(r - 1, c + 1);
    assert InBlock(f, r, c, 4) == InBlock(f, r, c, 3) + f(r, c - 1);
    assert InBlock(f, r, c, 5) == InBlock(f, r, c, 4) + f(r, c);
    assert InBlock(f, r, c, 6) == InBlock(f, r, c, 5) + f(r, c + 1);
    assert InBlock(f, r, c, 7) == InBlock(f, r, c, 6) + f(r + 1, c - 1);
    assert InBlock(f, r, c, 8) == InBlock(f, r, c, 7) + f(r + 1, c);
  }

  lemma {:induction false} CountInBlock(g: Grid, rows: nat, cols: nat, r: int, c: int, f: (int, int) -> real, k: nat)
    requires Rect(g, rows, cols) && Interior(rows, cols, r, c) && k <= 9
    requires forall i, j :: f(i, j) == SurfaceAt(g, rows, cols, i, j)
    ensures BlockCount(g, rows, cols, r, c, k) as real == InBlock(f, r, c, k)
  {
    if k > 0 { CountInBlock(g, rows, cols, r, c, f, k - 1); }
  }

  lemma {:induction false} VarianceInBlock(g: Grid, rows: nat, cols: nat, r: int, c: int, f: (int, int) -> real, k: nat)
    requires Rect(g, rows, cols) && Interior(rows, cols, r, c) && k <= 9
    requires forall i, j :: f(i, j) == SquareAt(g, rows, cols, g[r][c].z, i, j)
    ensures BlockVariance(g, rows, cols, r, c, k) == InBlock(f, r, c, k)
  {
    if k > 0 { VarianceInBlock(g, rows, cols, r, c, f, k - 1); }
  }

  /** A block's count and variance are the sums over a cell and the eight around it. */
  lemma BlockExact(g: Grid, rows: nat, cols: nat, r: int, c: int)
    requires Rect(g, rows, cols) && Interior(rows, cols, r, c)
    ensures BlockCount(g, rows, cols, r, c, 9) as real ==
            SurfaceAt(g, rows, cols, r, c) + Around((i, j) => SurfaceAt(g, rows, cols, i, j), r, c)
    ensures BlockVariance(g, rows, cols, r, c, 9) == Around((i, j) => SquareAt(g, rows, cols, g[r][c].z, i, j), r, c)
  {
    var surface: (int, int) -> real := (i, j) => SurfaceAt(g, rows, cols, i, j);
    var square: (int, int) -> real := (i, j) => SquareAt(g, rows, cols, g[r][c].z, i, j);
    CountInBlock(g, rows, cols, r, c, surface, 9);
    VarianceInBlock(g, rows, cols, r, c, square, 9);
    InBlockIsAround(surface, r, c);
    InBlockIsAround(square, r, c);
    assert square(r, c) == 0.0;
  }

  /** A cell may be picked if it is Surface with a point and at least five of the eight cells around it are Surface. */
  lemma EligibleExact(g: Grid, rows: nat, cols: nat, r: int, c: int)
    requires Rect(g, rows, cols) && 1 <= r < rows - 1 && 1 <= c < cols - 1
    ensures Eligible(g, rows, cols, r, c) <==>
            && g[r][c].state == Surface && g[r][c].ptsNum > 0
            && Around((i, j) => SurfaceAt(g, rows, cols, i, j), r, c) >= 5.0
  {
    BlockExact(g, rows, cols, r, c);
  }

  // ----- the message -----

  ghost predicate IsFor(m: MsgCell, r: nat, c: nat) {
    m.yRow == r && m.xCol == c
  }

  ghost predicate LastFor(cells: seq<MsgCell>, k: nat, r: nat, c: nat) {
    k < |cells| && IsFor(cells[k], r, c) && forall l :: k < l < |cells| ==> !IsFor(cells[l], r, c)
  }

  /** Each place has the last cell the message has for it, and is blank when it has none. */
  lemma {:induction false} LastCellExact(cells: seq<MsgCell>, r: nat, c: nat)
    ensures (forall k :: 0 <= k < |cells| ==> !IsFor(cells[k], r, c)) ==> LastCell(cells, r, c) == Cell(NoPointCloud, 0.0, 0)
    ensures forall k: nat :: LastFor(cells, k, r, c) ==> LastCell(cells, r, c) == cells[k].cell
  {
    if cells != [] {
      var n := |cells| - 1;
      LastCellExact(cells[..n], r, c);
      forall k: nat | LastFor(cells, k, r, c)
        ensures LastCell(cells, r, c) == cells[k].cell
      {
        if k < n {
          assert !IsFor(cells[n], r, c);
          assert LastFor(cells[..n], k, r, c);
        }
      }
    }
  }

  /** The extremes are heights of Surface cells in the message, inside the grid, and none is beyond them; without any below
      a thousand million, or above minus as much, that number stands. */
  lemma {:induction false} ExtremesExact(cells: seq<MsgCell>, rows: nat, cols: nat)
    ensures forall k :: 0 <= k < |cells| && InGrid(cells[k], rows, cols) ==>
      MinZ(cells, rows, cols) <= cells[k].cell.z <= MaxZ(cells, rows, cols)
    ensures MinZ(cells, rows, cols) == 1000000000.0 || Occurs(cells, rows, cols, MinZ(cells, rows, cols))
    ensures MaxZ(cells, rows, cols) == -1000000000.0 || Occurs(cells, rows, cols, MaxZ(cells, rows, cols))
    ensures MinZ(cells, rows, cols) <= 1000000000.0 && MaxZ(cells, rows, cols) >= -1000000000.0
  {
    if cells != [] {
      var n := |cells| - 1;
      ExtremesExact(cells[..n], rows, cols);
      OccursStill(cells, rows, cols, MinZ(cells[..n], rows, cols));
      OccursStill(cells, rows, cols, MaxZ(cells[..n], rows, cols));
    }
  }

  ghost predicate InGrid(m: MsgCell, rows: nat, cols: nat) {
    m.yRow < rows && m.xCol < cols && m.cell.state == Surface
  }

  ghost predicate Occurs(cells: seq<MsgCell>, rows: nat, cols: nat, z: real) {
    exists k :: 0 <= k < |cells| && InGrid(cells[k], rows, cols) && cells[k].cell.z == z
  }

  lemma OccursStill(cells: seq<MsgCell>, rows: nat, cols: nat, z: real)
    requires cells != []
    ensures Occurs(cells[..|cells| - 1], rows, cols, z) ==> Occurs(cells, rows, cols, z)
    ensures InGrid(cells[|cells| - 1], rows, cols) ==> Occurs(cells, rows, cols, cells[|cells| - 1].cell.z)
  {
    if Occurs(cells[..|cells| - 1], rows, cols, z) {
      var k :| 0 <= k < |cells| - 1 && InGrid(cells[..|cells| - 1][k], rows, cols) && cells[k].cell.z == z;
      assert InGrid(cells[k], rows, cols);
    }
  }
}
