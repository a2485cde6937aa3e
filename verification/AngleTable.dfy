/** Interpolation of a block's angles in the calibration table of the polygon's position. */
module AngleTable {

  const POLYGON_MIN_ANGLE: int := -8192
  const ENCODER_TABLE_SHIFT_STEP: int := 256
  const POLYGON_TABLE_SIZE: nat := 65
  const POLYGON_MAX_FACETS: nat := 4
  const MAX_RECEIVER_IN_SET: nat := 8
  const ROBIN_E1X_V_RES: int := 18

  type Int16 = x: int | -0x8000 <= x < 0x8000

  datatype AngleHV = AngleHV(h: Int16, v: Int16)

  datatype Angles = Angles(h: int, v: int)

  /** Where the polygon angle falls: total offset from the table's start, row, and offset inside the row's cell. */
  function OffsetTotal(pAngle: Int16): nat {
    if pAngle - POLYGON_MIN_ANGLE < 0 then 0 else pAngle - POLYGON_MIN_ANGLE
  }

  function Row(pAngle: Int16): nat {
    var h := OffsetTotal(pAngle) / ENCODER_TABLE_SHIFT_STEP;
    if h > POLYGON_TABLE_SIZE - 2 then POLYGON_TABLE_SIZE - 2 else h
  }

  function Offset(pAngle: Int16): nat {
    OffsetTotal(pAngle) % ENCODER_TABLE_SHIFT_STEP
  }

  /** The weighted mean of two entries, rounded down as the arithmetic shift does. */
  function Mean(a: int, b: int, offset: int): int {
    (a * (ENCODER_TABLE_SHIFT_STEP - offset) + b * offset) / ENCODER_TABLE_SHIFT_STEP
  }

  /** Position in the flat table of facet, row, set and receiver. */
  function FlatIndex(sets: nat, facet: nat, row: nat, s: nat, r: nat): nat {
    ((facet * POLYGON_TABLE_SIZE + row) * sets + s) * MAX_RECEIVER_IN_SET + r
  }

  lemma FlatBounds(sets: nat, facet: nat, row: nat, s: nat, r: nat)
    requires facet < POLYGON_MAX_FACETS && row < POLYGON_TABLE_SIZE && s < sets && r < MAX_RECEIVER_IN_SET
    ensures FlatIndex(sets, facet, row, s, r) < POLYGON_MAX_FACETS * POLYGON_TABLE_SIZE * sets * MAX_RECEIVER_IN_SET
  {
    var a := facet * POLYGON_TABLE_SIZE + row;
    assert a + 1 <= POLYGON_MAX_FACETS * POLYGON_TABLE_SIZE;
    Widen(a, POLYGON_MAX_FACETS * POLYGON_TABLE_SIZE, sets);
  }

  lemma NonNegative(x: int, y: int)
    requires x >= 0 && y >= 0
    ensures x * y >= 0
  {
  }

  lemma Widen(a: nat, b: nat, sets: nat)
    requires a + 1 <= b
    ensures a * sets + sets <= b * sets
  {
    NonNegative(b - a - 1, sets);
    assert (b - a - 1) * sets == b * sets - a * sets - sets;
  }

  /** A step of one set of receivers per set lands on the same place of the next row. */
  lemma NextRow(sets: nat, facet: nat, row: nat, s: nat, r: nat)
    ensures FlatIndex(sets, facet, row, s, r) + sets * MAX_RECEIVER_IN_SET == FlatIndex(sets, facet, row + 1, s, r)
  {
    assert (facet * POLYGON_TABLE_SIZE + (row + 1)) * sets == (facet * POLYGON_TABLE_SIZE + row) * sets + sets;
  }

  lemma SamePlace(a: nat, b: nat, n: nat, x: nat, y: nat)
    requires x < n && y < n && a * n + x == b * n + y
    ensures a == b && x == y
  {
    if a < b {
      Widen(a, b, n);
    } else if b < a {
      Widen(b, a, n);
    }
  }

  /** Different places of the table have different positions. */
  lemma FlatInjective(sets: nat, facet: nat, row: nat, s: nat, r: nat, facet': nat, row': nat, s': nat, r': nat)
    requires row < 65 && s < sets && r < 8 && row' < 65 && s' < sets && r' < 8
    requires FlatIndex(sets, facet, row, s, r) == FlatIndex(sets, facet', row', s', r')
    ensures (facet, row, s, r) == (facet', row', s', r')
  {
    SamePlace((facet * 65 + row) * sets + s, (facet' * 65 + row') * sets + s', 8, r, r');
    SamePlace(facet * 65 + row, facet' * 65 + row', sets, s, s');
    SamePlace(facet, facet', 65, row, row');
  }

  /** Lists one after the other. */
  ghost function Flat<T>(lists: seq<seq<T>>): seq<T> {
    if lists == [] then [] else Flat(lists[..|lists| - 1]) + lists[|lists| - 1]
  }

  ghost predicate AllOf<T>(lists: seq<seq<T>>, n: nat) {
    forall i :: 0 <= i < |lists| ==> |lists[i]| == n
  }

  lemma {:induction false} FlatAt<T>(lists: seq<seq<T>>, n: nat, i: nat, j: nat)
    requires AllOf(lists, n) && i < |lists| && j < n
    ensures |Flat(lists)| == |lists| * n
    ensures i * n + j < |Flat(lists)| && Flat(lists)[i * n + j] == lists[i][j]
  {
    var m := |lists| - 1;
    FlatLength(lists[..m], n);
    FlatLength(lists, n);
    if i < m {
      FlatAt(lists[..m], n, i, j);
    } else {
      assert m * n + n == |lists| * n;
    }
  }

  lemma {:induction false} FlatLength<T>(lists: seq<seq<T>>, n: nat)
    requires AllOf(lists, n)
    ensures |Flat(lists)| == |lists| * n
  {
    if lists != [] {
      var m := |lists| - 1;
      FlatLength(lists[..m], n);
      assert m * n + n == |lists| * n;
    }
  }

  /** The table by facet, row, set and receiver. */
  type Nested = seq<seq<seq<seq<AngleHV>>>>

  ghost predicate IsTable(t: Nested, sets: nat) {
    && |t| == 4 && AllOf(t, 65) && (forall f :: 0 <= f < 4 ==> AllOf(t[f], sets))
    && forall f, row :: 0 <= f < 4 && 0 <= row < 65 ==> AllOf(t[f][row], 8)
  }

  lemma {:induction false} FlatAllOf<T>(lists: seq<seq<seq<T>>>, n: nat)
    requires forall i :: 0 <= i < |lists| ==> AllOf(lists[i], n)
    ensures AllOf(Flat(lists), n)
  {
    if lists != [] { FlatAllOf(lists[..|lists| - 1], n); }
  }

  /** The position is that of the entry when facets, rows, sets and receivers are laid out one after the other. */
  lemma FlatIsLayout(t: Nested, sets: nat, facet: nat, row: nat, s: nat, r: nat)
    requires IsTable(t, sets) && facet < 4 && row < 65 && s < sets && r < 8
    ensures var table := Flat(Flat(Flat(t)));
      |table| == 4 * 65 * sets * 8 && Holds(table, FlatIndex(sets, facet, row, s, r), t[facet][row][s][r])
  {
    var u := Flat(t);
    FlatAllOf(t, sets);
    FlatAt(t, 65, facet, row);
    var v := Flat(u);
    RowsAllOf(t, sets);
    FlatAllOf(u, 8);
    FlatAt(u, sets, facet * 65 + row, s);
    FlatAt(v, 8, (facet * 65 + row) * sets + s, r);
  }

  ghost predicate Holds(table: seq<AngleHV>, place: nat, entry: AngleHV) {
    place < |table| && table[place] == entry
  }

  lemma RowsAllOf(t: Nested, sets: nat)
    requires IsTable(t, sets)
    ensures forall i :: 0 <= i < |Flat(t)| ==> AllOf(Flat(t)[i], 8)
  {
    FlatLength(t, 65);
    forall i | 0 <= i < |Flat(t)|
      ensures AllOf(Flat(t)[i], 8)
    {
      FlatAt(t, 65, i / 65, i % 65);
      assert AllOf(t[i / 65][i % 65], 8);
    }
  }

  /** The table's entry, and the angles a block gets for one receiver. */
  function Entry(table: seq<AngleHV>, sets: nat, facet: nat, row: nat, s: nat, r: nat): AngleHV
    requires facet < POLYGON_MAX_FACETS && row < POLYGON_TABLE_SIZE && s < sets && r < MAX_RECEIVER_IN_SET
    requires |table| == POLYGON_MAX_FACETS * POLYGON_TABLE_SIZE * sets * MAX_RECEIVER_IN_SET
  {
    FlatBounds(sets, facet, row, s, r);
    table[FlatIndex(sets, facet, row, s, r)]
  }

  function Interpolated(table: seq<AngleHV>, sets: nat, facet: nat, scanId: nat, pAngle: Int16, r: nat): Angles
    requires facet < POLYGON_MAX_FACETS && sets > 0 && r < MAX_RECEIVER_IN_SET
    requires |table| == POLYGON_MAX_FACETS * POLYGON_TABLE_SIZE * sets * MAX_RECEIVER_IN_SET
  {
    var row, s := Row(pAngle), scanId % sets;
    var b1, b2 := Entry(table, sets, facet, row, s, r), Entry(table, sets, facet, row + 1, s, r);
    var off := Offset(pAngle);
    Angles(Mean(b1.h, b2.h, off), Mean(b1.v, b2.v, off) + if scanId >= sets then ROBIN_E1X_V_RES else 0)
  }

  method GetBlockFullAnglesInterpolate(table: seq<AngleHV>, maxSetNumber: nat, facet: nat, scanId: nat, pAngle: Int16)
    returns (full: seq<Angles>)
    requires facet < POLYGON_MAX_FACETS && maxSetNumber > 0
    requires |table| == POLYGON_MAX_FACETS * POLYGON_TABLE_SIZE * maxSetNumber * MAX_RECEIVER_IN_SET
    ensures |full| == MAX_RECEIVER_IN_SET
    ensures forall r :: 0 <= r < MAX_RECEIVER_IN_SET ==> full[r] == Interpolated(table, maxSetNumber, facet, scanId, pAngle, r)
  {
    var setNum := scanId % maxSetNumber;
    var hOffsetTotal := pAngle - POLYGON_MIN_ANGLE;
    if hOffsetTotal < 0 {
      hOffsetTotal := 0;
    }
    var hIdx := hOffsetTotal / ENCODER_TABLE_SHIFT_STEP;
    var hOffset := hOffsetTotal % ENCODER_TABLE_SHIFT_STEP;
    var hOffset2 := ENCODER_TABLE_SHIFT_STEP - hOffset;
    if hIdx > POLYGON_TABLE_SIZE - 2 {
      hIdx := POLYGON_TABLE_SIZE - 2;
    }
    full := [];
    var b1 := FlatIndex(maxSetNumber, facet, hIdx, setNum, 0);
    for r := 0 to MAX_RECEIVER_IN_SET
      invariant |full| == r && b1 == FlatIndex(maxSetNumber, facet, Row(pAngle), setNum, r)
      invariant forall i :: 0 <= i < r ==> full[i] == Interpolated(table, maxSetNumber, facet, scanId, pAngle, i)
    {
      FlatBounds(maxSetNumber, facet, Row(pAngle), setNum, r);
      FlatBounds(maxSetNumber, facet, Row(pAngle) + 1, setNum, r);
      NextRow(maxSetNumber, facet, Row(pAngle), setNum, r);
      var b2 := b1 + maxSetNumber * MAX_RECEIVER_IN_SET;
      var hAngle := (table[b1].h * hOffset2 + table[b2].h * hOffset) / ENCODER_TABLE_SHIFT_STEP;
      var vAngle := (table[b1].v * hOffset2 + table[b2].v * hOffset) / ENCODER_TABLE_SHIFT_STEP;
      if scanId >= maxSetNumber {
        vAngle := vAngle + ROBIN_E1X_V_RES;
      }
      full := full + [Angles(hAngle, vAngle)];
      b1 := b1 + 1;
    }
  }

  // ----- one column of the table -----

  /** The value interpolated in a column of the table. */
  function At(col: seq<int>, pAngle: Int16): int
    requires |col| == POLYGON_TABLE_SIZE
  {
    Mean(col[Row(pAngle)], col[Row(pAngle) + 1], Offset(pAngle))
  }

  /** The block's angles are two columns' values, the vertical one shifted for an inset scan line. */
  lemma AnglesAreColumns(table: seq<AngleHV>, sets: nat, facet: nat, scanId: nat, pAngle: Int16, r: nat)
    requires facet < POLYGON_MAX_FACETS && sets > 0 && r < MAX_RECEIVER_IN_SET
    requires |table| == POLYGON_MAX_FACETS * POLYGON_TABLE_SIZE * sets * MAX_RECEIVER_IN_SET
    ensures var hs := seq(POLYGON_TABLE_SIZE, k requires 0 <= k < POLYGON_TABLE_SIZE => Entry(table, sets, facet, k, scanId % sets, r).h as int);
      var vs := seq(POLYGON_TABLE_SIZE, k requires 0 <= k < POLYGON_TABLE_SIZE => Entry(table, sets, facet, k, scanId % sets, r).v as int);
      Interpolated(table, sets, facet, scanId, pAngle, r) ==
      Angles(At(hs, pAngle), At(vs, pAngle) + if scanId >= sets then 18 else 0)
  {
  }

  /** An angle 256 k + offset past the table's start is in cell k: its value is the linear interpolation of entries k and
      k + 1, rounded down. Before the table's start the value is entry 0, and past its last cell that cell is used with the
      angle's own offset. */
  lemma ValueExact(col: seq<int>, pAngle: Int16)
    requires |col| == 65
    ensures pAngle < -8192 ==> At(col, pAngle) == col[0]
    ensures pAngle >= -8192 ==>
      var k, offset := (pAngle + 8192) / 256, (pAngle + 8192) % 256;
      Rounded(At(col, pAngle), col[if k < 64 then k else 63], col[if k < 64 then k + 1 else 64], offset)
  {
    if pAngle < -8192 {
      assert Row(pAngle) == 0 && Offset(pAngle) == 0;
    } else {
      var k, offset := (pAngle + 8192) / 256, (pAngle + 8192) % 256;
      assert Row(pAngle) == (if k < 64 then k else 63) && Offset(pAngle) == offset;
    }
  }

  ghost predicate Rounded(value: int, a: int, b: int, offset: int) {
    256 * value <= 256 * a + (b - a) * offset < 256 * value + 256
  }

  lemma WeightedSum(a: int, b: int, x: int, y: int)
    requires a <= b && x >= 0 && y >= 0
    ensures a * (x + y) <= a * x + b * y <= b * (x + y)
  {
    assert (b - a) * y >= 0 && (b - a) * x >= 0;
  }

  lemma MeanBetween(a: int, b: int, offset: int)
    requires 0 <= offset < ENCODER_TABLE_SHIFT_STEP
    ensures (if a <= b then a else b) <= Mean(a, b, offset) <= (if a <= b then b else a)
  {
    if a <= b {
      WeightedSum(a, b, ENCODER_TABLE_SHIFT_STEP - offset, offset);
    } else {
      WeightedSum(b, a, offset, ENCODER_TABLE_SHIFT_STEP - offset);
    }
  }

  lemma MeanMonotone(a: int, b: int, x: int, y: int)
    requires a <= b && x <= y
    ensures Mean(a, b, x) <= Mean(a, b, y)
  {
    var u := a * (ENCODER_TABLE_SHIFT_STEP - x) + b * x;
    var v := a * (ENCODER_TABLE_SHIFT_STEP - y) + b * y;
    assert v - u == (b - a) * (y - x);
    assert (b - a) * (y - x) >= 0;
  }

  /** The interpolated value always lies between the two table entries it is taken from. */
  lemma ValueBetweenEntries(col: seq<int>, pAngle: Int16)
    requires |col| == POLYGON_TABLE_SIZE
    ensures var a, b := col[Row(pAngle)], col[Row(pAngle) + 1];
      (if a <= b then a else b) <= At(col, pAngle) <= (if a <= b then b else a)
  {
    MeanBetween(col[Row(pAngle)], col[Row(pAngle) + 1], Offset(pAngle));
  }

  ghost predicate Nondecreasing(col: seq<int>) {
    forall i, j :: 0 <= i <= j < |col| ==> col[i] <= col[j]
  }

  /** Inside the table's range the value follows a nondecreasing column, across cell borders too. */
  lemma MonotoneInside(col: seq<int>, p: Int16, q: Int16)
    requires |col| == POLYGON_TABLE_SIZE && Nondecreasing(col) && p <= q < -POLYGON_MIN_ANGLE
    ensures At(col, p) <= At(col, q)
  {
    if Row(p) == Row(q) {
      MeanMonotone(col[Row(p)], col[Row(p) + 1], Offset(p), Offset(q));
    } else {
      ValueBetweenEntries(col, p);
      ValueBetweenEntries(col, q);
    }
  }

  /** Past the range the row stays at the last cell while the offset keeps running round. */
  lemma OutsideRange(col: seq<int>, p: Int16)
    requires |col| == POLYGON_TABLE_SIZE && Nondecreasing(col) && p >= -POLYGON_MIN_ANGLE
    ensures Row(p) == POLYGON_TABLE_SIZE - 2 && col[POLYGON_TABLE_SIZE - 2] <= At(col, p)
    ensures p == -POLYGON_MIN_ANGLE ==> At(col, p) == col[POLYGON_TABLE_SIZE - 2]
  {
    ValueBetweenEntries(col, p);
  }

  /** The values of a nondecreasing column are nondecreasing over every angle exactly when its last step is at most
      one unit: at 8192 the clamped row meets offset 0 and the value falls back to the last but one entry. */
  lemma MonotoneEverywhereIff(col: seq<int>)
    requires |col| == POLYGON_TABLE_SIZE && Nondecreasing(col)
    ensures (forall p: Int16, q: Int16 :: p <= q ==> At(col, p) <= At(col, q)) <==>
            col[POLYGON_TABLE_SIZE - 1] - col[POLYGON_TABLE_SIZE - 2] <= 1
  {
    var a, b := col[POLYGON_TABLE_SIZE - 2], col[POLYGON_TABLE_SIZE - 1];
    if b - a <= 1 {
      forall p: Int16, q: Int16 | p <= q
        ensures At(col, p) <= At(col, q)
      {
        if q < -POLYGON_MIN_ANGLE {
          MonotoneInside(col, p, q);
        } else {
          OutsideRange(col, q);
          SmallStep(a, b, Offset(p));
          if Row(p) < POLYGON_TABLE_SIZE - 2 { ValueBetweenEntries(col, p); }
        }
      }
    } else {
      var p: Int16, q: Int16 := 8191, 8192;
      OutsideRange(col, q);
      assert Row(p) == 63 && Offset(p) == 255;
      assert At(col, p) == (a + 255 * b) / 256;
      assert At(col, p) > At(col, q);
    }
  }

  lemma SmallStep(a: int, b: int, offset: int)
    requires a <= b <= a + 1 && 0 <= offset < ENCODER_TABLE_SHIFT_STEP
    ensures Mean(a, b, offset) == a
  {
  }
}
