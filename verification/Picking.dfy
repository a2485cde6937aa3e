/** Choice of picking points: scored Surface cells, best first, at most three and well apart. */
module Picking {
  import opened GridMap
  import opened Options

  /** One cell of the received grid message. */
  datatype MsgCell = MsgCell(yRow: nat, xCol: nat, cell: Cell)

  datatype Candidate = Candidate(col: int, row: int, score: real, surfaceZ: real)

  const BLANK := Cell(NoPointCloud, 0.0, 0)

  // ----- the received grid -----

  /** The last cell the message has for a place. */
  ghost function LastCell(cells: seq<MsgCell>, r: int, c: int): Cell {
    if cells == [] then BLANK
    else
      var m := cells[|cells| - 1];
      if m.yRow == r && m.xCol == c then m.cell else LastCell(cells[..|cells| - 1], r, c)
  }

  ghost function GridOf(cells: seq<MsgCell>, rows: nat, cols: nat): (g: Grid)
    ensures Rect(g, rows, cols)
  {
    seq(rows, r requires 0 <= r < rows => seq(cols, c requires 0 <= c < cols => LastCell(cells, r, c)))
  }

  predicate SurfaceInGrid(m: MsgCell, rows: nat, cols: nat) {
    m.yRow < rows && m.xCol < cols && m.cell.state == Surface
  }

  /** The least and the greatest Surface height in the message, within the bounds the source starts from. */
  ghost function MinZ(cells: seq<MsgCell>, rows: nat, cols: nat): real {
    if cells == [] then 1000000000.0
    else
      var m, rest := cells[|cells| - 1], MinZ(cells[..|cells| - 1], rows, cols);
      if SurfaceInGrid(m, rows, cols) && m.cell.z < rest then m.cell.z else rest
  }

  ghost function MaxZ(cells: seq<MsgCell>, rows: nat, cols: nat): real {
    if cells == [] then -1000000000.0
    else
      var m, rest := cells[|cells| - 1], MaxZ(cells[..|cells| - 1], rows, cols);
      if SurfaceInGrid(m, rows, cols) && m.cell.z > rest then m.cell.z else rest
  }

  /** Every Surface cell of the grid lies between the two. */
  lemma {:induction false} HeightsBetween(cells: seq<MsgCell>, rows: nat, cols: nat, r: int, c: int)
    requires 0 <= r < rows && 0 <= c < cols && LastCell(cells, r, c).state == Surface
    ensures MinZ(cells, rows, cols) <= LastCell(cells, r, c).z <= MaxZ(cells, rows, cols)
  {
    var m := cells[|cells| - 1];
    if !(m.yRow == r && m.xCol == c) {
      HeightsBetween(cells[..|cells| - 1], rows, cols, r, c);
    }
  }

  /** The message's cells placed in the grid, with the least and greatest Surface height seen. */
  method ReadGrid(cells: seq<MsgCell>, rows: nat, cols: nat) returns (grid: array2<Cell>, minZ: real, maxZ: real)
    ensures fresh(grid) && grid.Length0 == rows && grid.Length1 == cols
    ensures minZ == MinZ(cells, rows, cols) && maxZ == MaxZ(cells, rows, cols)
    ensures Rows(grid) == GridOf(cells, rows, cols)
  {
    grid := new Cell[rows, cols]((r, c) => BLANK);
    minZ, maxZ := 1000000000.0, -1000000000.0;
    for k := 0 to |cells|
      invariant fresh(grid) && grid.Length0 == rows && grid.Length1 == cols
      invariant minZ == MinZ(cells[..k], rows, cols) && maxZ == MaxZ(cells[..k], rows, cols)
      invariant forall r, c :: 0 <= r < rows && 0 <= c < cols ==> grid[r, c] == LastCell(cells[..k], r, c)
    {
      assert cells[..k + 1][..k] == cells[..k];
      var m := cells[k];
      if m.yRow < rows && m.xCol < cols {
        grid[m.yRow, m.xCol] := m.cell;
        if m.cell.state == Surface {
          minZ := if m.cell.z < minZ then m.cell.z else minZ;
          maxZ := if m.cell.z > maxZ then m.cell.z else maxZ;
        }
      }
    }
    assert cells[..|cells|] == cells;
    SameGrid(grid, GridOf(cells, rows, cols));
  }

  lemma SameGrid(grid: array2<Cell>, g: Grid)
    requires Rect(g, grid.Length0, grid.Length1)
    requires forall r, c :: 0 <= r < grid.Length0 && 0 <= c < grid.Length1 ==> grid[r, c] == g[r][c]
    ensures Rows(grid) == g
  {
    forall r | 0 <= r < grid.Length0
      ensures Rows(grid)[r] == g[r]
    {
      assert forall c :: 0 <= c < grid.Length1 ==> Rows(grid)[r][c] == g[r][c];
    }
  }

  // ----- scores -----

  /** The three-by-three block around a cell, in the order the source visits it. */
  const BLOCK: seq<(int, int)> := [(-1, -1), (-1, 0), (-1, 1), (0, -1), (0, 0), (0, 1), (1, -1), (1, 0), (1, 1)]

  ghost predicate Interior(rows: nat, cols: nat, r: int, c: int) {
    1 <= r < rows - 1 && 1 <= c < cols - 1
  }

  ghost function BlockCount(g: Grid, rows: nat, cols: nat, r: int, c: int, k: nat): nat
    requires Rect(g, rows, cols) && Interior(rows, cols, r, c) && k <= |BLOCK|
  {
    if k == 0 then 0
    else BlockCount(g, rows, cols, r, c, k - 1) + if g[r + BLOCK[k - 1].0][c + BLOCK[k - 1].1].state == Surface then 1 else 0
  }

  ghost function BlockVariance(g: Grid, rows: nat, cols: nat, r: int, c: int, k: nat): (v: real)
    requires Rect(g, rows, cols) && Interior(rows, cols, r, c) && k <= |BLOCK|
  {
    if k == 0 then 0.0
    else
      var cell := g[r + BLOCK[k - 1].0][c + BLOCK[k - 1].1];
      BlockVariance(g, rows, cols, r, c, k - 1) + if cell.state == Surface then Square(cell.z - g[r][c].z) else 0.0
  }

  function Square(x: real): (s: real)
    ensures s >= 0.0
  {
    x * x
  }

  /** A cell that may be picked: Surface, with points, and at least six Surface cells in its block. */
  ghost predicate Eligible(g: Grid, rows: nat, cols: nat, r: int, c: int)
    requires Rect(g, rows, cols)
  {
    && Interior(rows, cols, r, c)
    && g[r][c].state == Surface && g[r][c].ptsNum >= 1
    && BlockCount(g, rows, cols, r, c, |BLOCK|) >= 6
  }

  function HeightScore(z: real, minZ: real, maxZ: real): real
    requires minZ <= maxZ
  {
    (z - minZ) / (maxZ - minZ + 0.000001)
  }

  function Flatness(variance: real, cnt: nat): real
    requires variance >= 0.0
  {
    Ratio(variance, cnt as real + 0.000001);
    1.0 / (1.0 + variance / (cnt as real + 0.000001))
  }

  lemma Ratio(x: real, y: real)
    requires x >= 0.0 && y > 0.0
    ensures x / y >= 0.0
  {
  }

  function ScoreOf(z: real, minZ: real, maxZ: real, variance: real, cnt: nat): real
    requires minZ <= maxZ && variance >= 0.0
  {
    HeightScore(z, minZ, maxZ) * 0.3 + Flatness(variance, cnt) * 0.7
  }

  lemma Quotient(x: real, y: real)
    requires 0.0 <= x < y
    ensures 0.0 <= x / y < 1.0
  {
  }

  lemma Inverse(y: real)
    requires y >= 1.0
    ensures 0.0 < 1.0 / y <= 1.0
  {
  }

  /** Every score lies strictly between 0 and 1. */
  lemma ScoreInUnit(z: real, minZ: real, maxZ: real, variance: real, cnt: nat)
    requires minZ <= z <= maxZ && variance >= 0.0
    ensures 0.0 < ScoreOf(z, minZ, maxZ, variance, cnt) < 1.0
  {
    Quotient(z - minZ, maxZ - minZ + 0.000001);
    Ratio(variance, cnt as real + 0.000001);
    Inverse(1.0 + variance / (cnt as real + 0.000001));
  }

  lemma {:induction false} VarianceNonnegative(g: Grid, rows: nat, cols: nat, r: int, c: int, k: nat)
    requires Rect(g, rows, cols) && Interior(rows, cols, r, c) && k <= |BLOCK|
    ensures BlockVariance(g, rows, cols, r, c, k) >= 0.0
  {
    if k > 0 {
      VarianceNonnegative(g, rows, cols, r, c, k - 1);
    }
  }

  ghost function CellScore(g: Grid, rows: nat, cols: nat, r: int, c: int, minZ: real, maxZ: real): real
    requires Rect(g, rows, cols) && Interior(rows, cols, r, c) && minZ <= maxZ
  {
    VarianceNonnegative(g, rows, cols, r, c, |BLOCK|);
    ScoreOf(g[r][c].z, minZ, maxZ, BlockVariance(g, rows, cols, r, c, |BLOCK|), BlockCount(g, rows, cols, r, c, |BLOCK|))
  }

  /** The candidates of the cells before (r, c), row by row. */
  ghost predicate CandidatesUpTo(g: Grid, rows: nat, cols: nat, minZ: real, maxZ: real, r: int, c: int, cs: seq<Candidate>)
    requires Rect(g, rows, cols)
  {
    && (forall i :: 0 <= i < |cs| ==>
          CandidateOf(g, rows, cols, minZ, maxZ, cs[i]) && Earlier(cs[i].row, cs[i].col, r, c))
    && (forall i, j :: 0 <= i < j < |cs| ==> Earlier(cs[i].row, cs[i].col, cs[j].row, cs[j].col))
    && (forall a, b :: Eligible(g, rows, cols, a, b) && Earlier(a, b, r, c) ==> Listed(cs, a, b))
  }

  /** x is the candidate of its cell. */
  ghost predicate CandidateOf(g: Grid, rows: nat, cols: nat, minZ: real, maxZ: real, x: Candidate)
    requires Rect(g, rows, cols)
  {
    && Eligible(g, rows, cols, x.row, x.col)
    && minZ <= maxZ && x.score == CellScore(g, rows, cols, x.row, x.col, minZ, maxZ)
    && x.surfaceZ == g[x.row][x.col].z
  }

  ghost predicate Listed(cs: seq<Candidate>, r: int, c: int) {
    exists i :: 0 <= i < |cs| && cs[i].row == r && cs[i].col == c
  }

  lemma ListOne(g: Grid, rows: nat, cols: nat, minZ: real, maxZ: real, cs: seq<Candidate>, cp: Candidate)
    requires Rect(g, rows, cols) && CandidatesUpTo(g, rows, cols, minZ, maxZ, cp.row, cp.col, cs)
    requires CandidateOf(g, rows, cols, minZ, maxZ, cp)
    ensures CandidatesUpTo(g, rows, cols, minZ, maxZ, cp.row, cp.col + 1, cs + [cp])
  {
    var t := cs + [cp];
    assert t[|cs|] == cp;
    forall a, b | Eligible(g, rows, cols, a, b) && Earlier(a, b, cp.row, cp.col + 1)
      ensures Listed(t, a, b)
    {
      if (a, b) != (cp.row, cp.col) {
        var i :| 0 <= i < |cs| && cs[i].row == a && cs[i].col == b;
        assert t[i] == cs[i];
      }
    }
  }

  lemma NextCell(g: Grid, rows: nat, cols: nat, minZ: real, maxZ: real, r: int, c: int, cs: seq<Candidate>)
    requires Rect(g, rows, cols) && CandidatesUpTo(g, rows, cols, minZ, maxZ, r, c, cs) && !Eligible(g, rows, cols, r, c)
    ensures CandidatesUpTo(g, rows, cols, minZ, maxZ, r, c + 1, cs)
  {
    forall a, b | Eligible(g, rows, cols, a, b) && Earlier(a, b, r, c + 1)
      ensures Listed(cs, a, b)
    {
      assert Earlier(a, b, r, c);
    }
  }

  lemma NextGridRow(g: Grid, rows: nat, cols: nat, minZ: real, maxZ: real, r: int, c: int, cs: seq<Candidate>)
    requires Rect(g, rows, cols) && CandidatesUpTo(g, rows, cols, minZ, maxZ, r, c, cs) && c >= cols - 1
    ensures CandidatesUpTo(g, rows, cols, minZ, maxZ, r + 1, 0, cs)
  {
    forall i | 0 <= i < |cs|
      ensures Earlier(cs[i].row, cs[i].col, r + 1, 0)
    {
      assert Earlier(cs[i].row, cs[i].col, r, c);
    }
    forall a, b | Eligible(g, rows, cols, a, b) && Earlier(a, b, r + 1, 0)
      ensures Listed(cs, a, b)
    {
      assert Earlier(a, b, r, c);
    }
  }

  /** The Surface cells of the block around a cell; the two nested loops over offsets are one loop over BLOCK. */
  method CountBlock(grid: array2<Cell>, r: int, c: int) returns (cnt: nat)
    requires Interior(grid.Length0, grid.Length1, r, c)
    ensures cnt == BlockCount(Rows(grid), grid.Length0, grid.Length1, r, c, |BLOCK|)
  {
    cnt := 0;
    for k := 0 to |BLOCK|
      invariant cnt == BlockCount(Rows(grid), grid.Length0, grid.Length1, r, c, k)
    {
      if grid[r + BLOCK[k].0, c + BLOCK[k].1].state == Surface {
        cnt := cnt + 1;
      }
    }
  }

  /** The squared height differences of the Surface cells of the block. */
  method VarianceBlock(grid: array2<Cell>, r: int, c: int) returns (variance: real)
    requires Interior(grid.Length0, grid.Length1, r, c)
    ensures variance == BlockVariance(Rows(grid), grid.Length0, grid.Length1, r, c, |BLOCK|)
  {
    variance := 0.0;
    for k := 0 to |BLOCK|
      invariant variance == BlockVariance(Rows(grid), grid.Length0, grid.Length1, r, c, k)
    {
      var cell := grid[r + BLOCK[k].0, c + BLOCK[k].1];
      if cell.state == Surface {
        variance := variance + Square(cell.z - grid[r, c].z);
      }
    }
  }

  /** The candidate of one interior cell, if it is eligible. */
  method EvaluateCell(grid: array2<Cell>, r: int, c: int, minZ: real, maxZ: real) returns (cp: Option<Candidate>)
    requires Interior(grid.Length0, grid.Length1, r, c)
    requires grid[r, c].state == Surface ==> minZ <= grid[r, c].z <= maxZ
    ensures var g := Rows(grid);
      if Eligible(g, grid.Length0, grid.Length1, r, c) then
        minZ <= maxZ &&
        cp == Some(Candidate(c, r, CellScore(g, grid.Length0, grid.Length1, r, c, minZ, maxZ), g[r][c].z))
      else cp == None
  {
    cp := None;
    if grid[r, c].state == Surface && grid[r, c].ptsNum >= 1 {
      var z := grid[r, c].z;
      var neighbors := CountBlock(grid, r, c);
      if neighbors >= 6 {
        var variance := VarianceBlock(grid, r, c);
        VarianceNonnegative(Rows(grid), grid.Length0, grid.Length1, r, c, |BLOCK|);
        cp := Some(Candidate(c, r, ScoreOf(z, minZ, maxZ, variance, neighbors), z));
      }
    }
  }

  /** One candidate per eligible cell, with its score. */
  method FindCandidates(grid: array2<Cell>, minZ: real, maxZ: real) returns (candidates: seq<Candidate>)
    requires forall r, c :: 0 <= r < grid.Length0 && 0 <= c < grid.Length1 && grid[r, c].state == Surface ==>
      minZ <= grid[r, c].z <= maxZ
    ensures CandidatesUpTo(Rows(grid), grid.Length0, grid.Length1, minZ, maxZ, grid.Length0 - 1, 0, candidates)
  {
    candidates := [];
    var rows, cols := grid.Length0, grid.Length1;
    ghost var g := Rows(grid);
    var r := 1;
    while r < rows - 1
      invariant 1 <= r && (r <= rows - 1 || r == 1)
      invariant CandidatesUpTo(g, rows, cols, minZ, maxZ, r, 0, candidates)
    {
      var c := 1;
      while c < cols - 1
        invariant 1 <= c && (c <= cols - 1 || c == 1)
        invariant CandidatesUpTo(g, rows, cols, minZ, maxZ, r, c, candidates)
      {
        var cp := EvaluateCell(grid, r, c, minZ, maxZ);
        if cp.Some? {
          ListOne(g, rows, cols, minZ, maxZ, candidates, cp.value);
          candidates := candidates + [cp.value];
        } else {
          NextCell(g, rows, cols, minZ, maxZ, r, c, candidates);
        }
        c := c + 1;
      }
      NextGridRow(g, rows, cols, minZ, maxZ, r, c, candidates);
      r := r + 1;
    }
  }

  // ----- choosing -----

  ghost predicate BestFirst(cs: seq<Candidate>) {
    forall i, j :: 0 <= i < j < |cs| ==> cs[i].score >= cs[j].score
  }

  lemma InsertBest(sorted: seq<Candidate>, k: nat, x: Candidate)
    requires BestFirst(sorted) && k <= |sorted|
    requires forall i :: 0 <= i < k ==> sorted[i].score >= x.score
    requires k < |sorted| ==> sorted[k].score < x.score
    ensures BestFirst(sorted[..k] + [x] + sorted[k..])
  {
    var t := sorted[..k] + [x] + sorted[k..];
    assert forall i :: 0 <= i < k ==> t[i] == sorted[i];
    assert forall i :: k < i < |t| ==> t[i] == sorted[i - 1];
  }

  lemma InsertSame(sorted: seq<Candidate>, k: nat, x: Candidate)
    requires k <= |sorted|
    ensures multiset(sorted[..k] + [x] + sorted[k..]) == multiset(sorted) + multiset{x}
  {
    assert sorted == sorted[..k] + sorted[k..];
  }

  method FindPlace(sorted: seq<Candidate>, x: Candidate) returns (k: nat)
    ensures k <= |sorted| && forall i :: 0 <= i < k ==> sorted[i].score >= x.score
    ensures k < |sorted| ==> sorted[k].score < x.score
  {
    k := 0;
    while k < |sorted| && sorted[k].score >= x.score
      invariant k <= |sorted| && forall i :: 0 <= i < k ==> sorted[i].score >= x.score
    {
      k := k + 1;
    }
  }

  /** std::sort with the source's comparison: some order of the candidates, best first. */
  method SortByScore(cs: seq<Candidate>) returns (sorted: seq<Candidate>)
    ensures multiset(sorted) == multiset(cs) && BestFirst(sorted)
  {
    sorted := [];
    for n := 0 to |cs|
      invariant multiset(sorted) == multiset(cs[..n]) && BestFirst(sorted)
    {
      var k := FindPlace(sorted, cs[n]);
      InsertBest(sorted, k, cs[n]);
      InsertSame(sorted, k, cs[n]);
      assert cs[..n + 1] == cs[..n] + [cs[n]];
      sorted := sorted[..k] + [cs[n]] + sorted[k..];
    }
    assert cs[..|cs|] == cs;
  }

  predicate Close(a: Candidate, b: Candidate) {
    -3 < a.col - b.col < 3 && -3 < a.row - b.row < 3
  }

  /** Any two are at least three columns or three rows apart. */
  ghost predicate Apart(sel: seq<Candidate>) {
    forall i, j :: 0 <= i < j < |sel| ==>
      var dc, dr := sel[i].col - sel[j].col, sel[i].row - sel[j].row; dc <= -3 || dc >= 3 || dr <= -3 || dr >= 3
  }

  ghost predicate Displaces(y: Candidate, x: Candidate) {
    y.score >= x.score && -3 < x.col - y.col < 3 && -3 < x.row - y.row < 3
  }

  /** x is out for a reason: a selected candidate less than three columns and three rows away scores at least as high, or three selected ones all do. */
  ghost predicate Outdone(sel: seq<Candidate>, x: Candidate) {
    || (exists i :: 0 <= i < |sel| && Displaces(sel[i], x))
    || (|sel| == 3 && forall i :: 0 <= i < 3 ==> sel[i].score >= x.score)
  }

  /** What the choice promises of any list of candidates. */
  ghost predicate GoodChoice(cs: seq<Candidate>, sel: seq<Candidate>) {
    && |sel| <= 3 && Apart(sel)
    && (forall i :: 0 <= i < |sel| ==> sel[i] in cs)
    && (forall x :: x in cs ==> x in sel || Outdone(sel, x))
    && (cs != [] ==> sel != [] && forall x :: x in cs ==> sel[0].score >= x.score)
  }

  /** The choice made among the first n candidates; up to the last test fewer than three are in it. */
  ghost predicate ChosenSoFar(cs: seq<Candidate>, n: nat, sel: seq<Candidate>) {
    && n <= |cs|
    && Apart(sel)
    && (forall i :: 0 <= i < |sel| ==> sel[i] in cs[..n])
    && (forall k :: 0 <= k < n ==> cs[k] in sel || Outdone(sel, cs[k]))
    && (n > 0 ==> sel != [] && sel[0] == cs[0])
  }

  ghost predicate ClearOf(sel: seq<Candidate>, x: Candidate) {
    forall i :: 0 <= i < |sel| ==> !Close(x, sel[i])
  }

  lemma SelectedScoreHigher(cs: seq<Candidate>, n: nat, sel: seq<Candidate>, x: Candidate)
    requires BestFirst(cs) && ChosenSoFar(cs, n, sel) && x in cs[n..]
    ensures forall i :: 0 <= i < |sel| ==> sel[i].score >= x.score
  {
    var k :| 0 <= k < |cs[n..]| && cs[n..][k] == x;
    forall i | 0 <= i < |sel|
      ensures sel[i].score >= x.score
    {
      assert sel[i] in cs[..n];
      var l :| 0 <= l < |cs[..n]| && cs[..n][l] == sel[i];
      assert cs[l].score >= cs[n + k].score;
    }
  }

  lemma PassOver(cs: seq<Candidate>, n: nat, sel: seq<Candidate>)
    requires BestFirst(cs) && ChosenSoFar(cs, n, sel) && n < |cs| && !ClearOf(sel, cs[n])
    ensures ChosenSoFar(cs, n + 1, sel)
  {
    assert cs[n] == cs[n..][0];
    SelectedScoreHigher(cs, n, sel, cs[n]);
    assert cs[..n + 1] == cs[..n] + [cs[n]];
    assert Outdone(sel, cs[n]);
  }

  lemma ApartOneMore(sel: seq<Candidate>, x: Candidate)
    requires Apart(sel) && ClearOf(sel, x)
    ensures Apart(sel + [x])
  {
    assert forall i :: 0 <= i < |sel| ==> (sel + [x])[i] == sel[i] && !Close(x, sel[i]);
  }

  lemma Choose(cs: seq<Candidate>, n: nat, sel: seq<Candidate>)
    requires ChosenSoFar(cs, n, sel) && n < |cs| && ClearOf(sel, cs[n]) && |sel| < 3
    requires n == 0 ==> sel == []
    ensures ChosenSoFar(cs, n + 1, sel + [cs[n]])
  {
    var t := sel + [cs[n]];
    ApartOneMore(sel, cs[n]);
    assert t[|sel|] == cs[n];
    assert cs[..n + 1] == cs[..n] + [cs[n]];
    forall k | 0 <= k < n
      ensures cs[k] in t || Outdone(t, cs[k])
    {
      StillOutdone(sel, cs[n], cs[k]);
    }
  }

  lemma ChoiceGood(cs: seq<Candidate>, n: nat, sel: seq<Candidate>)
    requires BestFirst(cs) && ChosenSoFar(cs, n, sel) && (|sel| == 3 || (|sel| < 3 && n == |cs|))
    ensures GoodChoice(cs, sel)
  {
    forall x | x in cs
      ensures x in sel || Outdone(sel, x)
      ensures sel != [] && sel[0].score >= x.score
    {
      var k :| 0 <= k < |cs| && cs[k] == x;
      if k >= n {
        assert cs[n..][k - n] == x;
        SelectedScoreHigher(cs, n, sel, x);
      }
    }
  }

  method Select(candidates: seq<Candidate>) returns (selected: seq<Candidate>)
    requires BestFirst(candidates)
    ensures GoodChoice(candidates, selected)
  {
    selected := [];
    for n := 0 to |candidates|
      invariant |selected| < 3 && ChosenSoFar(candidates, n, selected) && (n == 0 ==> selected == [])
    {
      var cp := candidates[n];
      var tooClose := false;
      for s := 0 to |selected|
        invariant !tooClose && forall i :: 0 <= i < s ==> !Close(cp, selected[i])
      {
        if Close(cp, selected[s]) {
          tooClose := true;
          break;
        }
      }
      if !tooClose {
        Choose(candidates, n, selected);
        selected := selected + [cp];
      } else {
        PassOver(candidates, n, selected);
      }
      if |selected| >= 3 {
        ChoiceGood(candidates, n + 1, selected);
        return;
      }
    }
    ChoiceGood(candidates, |candidates|, selected);
  }

  lemma StillOutdone(sel: seq<Candidate>, cp: Candidate, x: Candidate)
    requires |sel| < 3 && (x in sel || Outdone(sel, x))
    ensures x in sel + [cp] || Outdone(sel + [cp], x)
  {
    var t := sel + [cp];
    if x !in sel {
      var i :| 0 <= i < |sel| && Displaces(sel[i], x);
      assert t[i] == sel[i];
    }
  }

  /** What the picks promise of a grid: candidates of it, at most three, apart, scoring strictly between 0 and 1, with a
      reason for every candidate left out; one at least when there is a candidate, and the first one is the best. */
  ghost predicate GoodPicks(g: Grid, rows: nat, cols: nat, minZ: real, maxZ: real, sel: seq<Candidate>)
    requires Rect(g, rows, cols)
  {
    && |sel| <= 3 && Apart(sel)
    && (forall i :: 0 <= i < |sel| ==> CandidateOf(g, rows, cols, minZ, maxZ, sel[i]) && 0.0 < sel[i].score < 1.0)
    && (forall x :: CandidateOf(g, rows, cols, minZ, maxZ, x) ==>
          && (x in sel || Outdone(sel, x))
          && sel != [] && sel[0].score >= x.score)
  }

  /** The list holds every candidate of the grid. */
  lemma CandidateListed(g: Grid, rows: nat, cols: nat, minZ: real, maxZ: real, cs: seq<Candidate>, x: Candidate)
    requires Rect(g, rows, cols) && CandidatesUpTo(g, rows, cols, minZ, maxZ, rows - 1, 0, cs)
    requires CandidateOf(g, rows, cols, minZ, maxZ, x)
    ensures x in cs
  {
    assert Eligible(g, rows, cols, x.row, x.col) && Earlier(x.row, x.col, rows - 1, 0);
    assert Listed(cs, x.row, x.col);
    var i :| 0 <= i < |cs| && cs[i].row == x.row && cs[i].col == x.col;
    assert CandidateOf(g, rows, cols, minZ, maxZ, cs[i]);
    assert cs[i] == x;
  }

  lemma ChoicePicks(g: Grid, rows: nat, cols: nat, minZ: real, maxZ: real, cs: seq<Candidate>, sel: seq<Candidate>)
    requires Rect(g, rows, cols) && CandidatesUpTo(g, rows, cols, minZ, maxZ, rows - 1, 0, cs)
    requires GoodChoice(cs, sel) && forall x :: x in cs ==> 0.0 < x.score < 1.0
    ensures GoodPicks(g, rows, cols, minZ, maxZ, sel)
  {
    forall i | 0 <= i < |sel|
      ensures CandidateOf(g, rows, cols, minZ, maxZ, sel[i]) && 0.0 < sel[i].score < 1.0
    {
      assert sel[i] in cs;
    }
    forall x | CandidateOf(g, rows, cols, minZ, maxZ, x)
      ensures (x in sel || Outdone(sel, x)) && sel != [] && sel[0].score >= x.score
    {
      CandidateListed(g, rows, cols, minZ, maxZ, cs, x);
    }
  }

  /** From the grid message to the points picked. */
  method ComputePickPoints(cells: seq<MsgCell>, rows: nat, cols: nat) returns (selected: seq<Candidate>)
    ensures GoodPicks(GridOf(cells, rows, cols), rows, cols, MinZ(cells, rows, cols), MaxZ(cells, rows, cols), selected)
  {
    var grid, minZ, maxZ := ReadGrid(cells, rows, cols);
    ghost var g := GridOf(cells, rows, cols);
    forall r, c | 0 <= r < rows && 0 <= c < cols && grid[r, c].state == Surface
      ensures minZ <= grid[r, c].z <= maxZ
    {
      assert Rows(grid)[r][c] == g[r][c];
      HeightsBetween(cells, rows, cols, r, c);
    }
    var candidates := FindCandidates(grid, minZ, maxZ);
    CandidateScores(cells, rows, cols, candidates);
    var sorted := SortByScore(candidates);
    SameMembers(sorted, candidates);
    selected := Select(sorted);
    ChoicePicks(g, rows, cols, minZ, maxZ, candidates, selected);
  }

  lemma CandidateScores(cells: seq<MsgCell>, rows: nat, cols: nat, cs: seq<Candidate>)
    requires CandidatesUpTo(GridOf(cells, rows, cols), rows, cols, MinZ(cells, rows, cols), MaxZ(cells, rows, cols), rows - 1, 0, cs)
    ensures forall x :: x in cs ==> 0.0 < x.score < 1.0
  {
    var g, lo, hi := GridOf(cells, rows, cols), MinZ(cells, rows, cols), MaxZ(cells, rows, cols);
    forall x | x in cs
      ensures 0.0 < x.score < 1.0
    {
      assert CandidateOf(g, rows, cols, lo, hi, x);
      HeightsBetween(cells, rows, cols, x.row, x.col);
      VarianceNonnegative(g, rows, cols, x.row, x.col, |BLOCK|);
      ScoreInUnit(g[x.row][x.col].z, lo, hi, BlockVariance(g, rows, cols, x.row, x.col, |BLOCK|),
                  BlockCount(g, rows, cols, x.row, x.col, |BLOCK|));
    }
  }

  lemma SameMembers(a: seq<Candidate>, b: seq<Candidate>)
    requires multiset(a) == multiset(b)
    ensures forall x :: x in a <==> x in b
    ensures a == [] <==> b == []
  {
    forall x
      ensures x in a <==> x in b
    {
      assert x in a <==> x in multiset(a);
      assert x in b <==> x in multiset(b);
    }
    assert |multiset(a)| == |a| && |multiset(b)| == |b|;
  }
}
