/** Argument permutation of the bundled getopt: the block of non-options and the block of options that
    follows it are exchanged in place by following gcd-many cycles. */
module Getopt {

  // ----- greatest common divisor -----

  ghost predicate Divides(d: int, x: int)
    requires d > 0
  {
    exists q :: q * d == x
  }

  /** g divides both numbers and is an integer combination of them, hence it is their greatest common divisor. */
  ghost predicate IsGcd(g: int, a: int, b: int) {
    && g > 0
    && Divides(g, a)
    && Divides(g, b)
    && exists u, v :: Combination(u, a, v, b) == g
  }

  ghost function Combination(u: int, a: int, v: int, b: int): int {
    u * a + v * b
  }

  lemma GcdIsGreatest(g: int, a: int, b: int, d: int)
    requires IsGcd(g, a, b) && d > 0 && Divides(d, a) && Divides(d, b)
    ensures Divides(d, g) && d <= g
  {
    var u, v :| Combination(u, a, v, b) == g;
    var p, q :| p * d == a && q * d == b;
    CommonFactor(u, p, v, q, d);
    MulBounds(u * p + v * q, d);
  }

  lemma CommonFactor(u: int, p: int, v: int, q: int, d: int)
    ensures Combination(u, p * d, v, q * d) == (u * p + v * q) * d
  {
  }

  lemma RemainderAlgebra(a: int, b: int, t: int, r: int, g: int, p: int, q: int, u: int, v: int)
    requires a == t * b + r && p * g == b && q * g == r
    ensures (t * p + q) * g == a
    ensures Combination(v, a, u - v * t, b) == Combination(u, b, v, r)
  {
    assert (t * p + q) * g == t * (p * g) + q * g;
    assert v * a == v * (t * b) + v * r;
    assert (u - v * t) * b == u * b - v * (t * b);
  }

  lemma GcdOfRemainder(g: int, a: int, b: int)
    requires b > 0 && IsGcd(g, b, a % b)
    ensures IsGcd(g, a, b)
  {
    var t, r := a / b, a % b;
    var p, q :| p * g == b && q * g == r;
    var u, v :| Combination(u, b, v, r) == g;
    RemainderAlgebra(a, b, t, r, g, p, q, u, v);
    assert Divides(g, a);
    assert Combination(v, a, u - v * t, b) == g;
  }

  /** Euclid's loop.  C's `%` agrees with Dafny's on the non-negative block lengths it is given. */
  method Gcd(a0: int, b0: int) returns (g: int)
    requires a0 >= 0 && b0 > 0
    ensures IsGcd(g, a0, b0)
  {
    var a, b := a0, b0;
    var c := a % b;
    while c != 0
      invariant b > 0 && a >= 0 && c == a % b
      invariant forall g :: IsGcd(g, a, b) ==> IsGcd(g, a0, b0)
      decreases c
    {
      forall g | IsGcd(g, b, c)
        ensures IsGcd(g, a0, b0)
      {
        GcdOfRemainder(g, a, b);
      }
      a := b;
      b := c;
      c := a % b;
    }
    assert (a / b) * b == a;
    assert 1 * b == b;
    assert Combination(0, a, 1, b) == b;
    return b;
  }

  // ----- orbits of the exchange, in units of the greatest common divisor -----

  /** Lengths of the two blocks divided by their gcd, with the coefficients of a Bezout identity. */
  ghost predicate Coprime(k: int, m: int, u: int, v: int) {
    k >= 0 && m > 0 && Combination(u, k, v, m) == 1
  }

  /** One move of the cycle that starts at the first element of the second block. */
  ghost function Step(k: int, m: int, x: int): int {
    if x >= k then x - k else x + m
  }

  /** The place reached after j moves. */
  ghost function Orbit(k: int, m: int, j: nat): int {
    if j == 0 then k else Step(k, m, Orbit(k, m, j - 1))
  }

  /** The number of moves, from 1 to k + m, after which place y is reached. */
  ghost function Rank(k: int, m: int, u: int, v: int, y: int): int
    requires k >= 0 && m > 0
  {
    (-(u - v) * y) % (k + m) + 1
  }

  lemma {:induction false} OrbitForm(k: int, m: int, j: nat) returns (c: int)
    requires k >= 0 && m > 0
    ensures Orbit(k, m, j) == k - j * k + c * (k + m)
    ensures 0 <= Orbit(k, m, j) < k + m
  {
    if j == 0 {
      c := 0;
    } else {
      var c' := OrbitForm(k, m, j - 1);
      c := if Orbit(k, m, j - 1) >= k then c' else c' + 1;
      assert (j - 1) * k == j * k - k;
      assert (c' + 1) * (k + m) == c' * (k + m) + (k + m);
    }
  }

  lemma MulBounds(z: int, n: int)
    requires n > 0
    ensures z >= 1 ==> z * n >= n
    ensures z <= -1 ==> z * n <= -n
  {
    assert (z - 1) * n == z * n - n;
    assert (z + 1) * n == z * n + n;
  }

  lemma Distribute(x: int, y: int, d: int)
    ensures (x + y) * d == x * d + y * d
  {
  }

  lemma ModUnique(n: int, x: int, r: int, q: int)
    requires n > 0 && x == q * n + r && 0 <= r < n
    ensures x / n == q && x % n == r
  {
    var q' := x / n;
    assert x == q' * n + x % n;
    assert (q - q') * n == q * n - q' * n;
    MulBounds(q - q', n);
  }

  lemma RankAlgebra(k: int, n: int, w: int, v: int, j: int, c: int, x: int)
    requires w * k == 1 - v * n && x == k - j * k + c * n
    ensures -w * x == (-(j - 1) * v - w * c) * n + (j - 1)
  {
    calc {
      -w * x;
      -w * (k - j * k + c * n);
      (j - 1) * (w * k) - w * (c * n);
      (j - 1) * (1 - v * n) - w * (c * n);
      (j - 1) - (j - 1) * (v * n) - w * (c * n);
      (-(j - 1) * v - w * c) * n + (j - 1);
    }
  }

  lemma OrbitAlgebra(k: int, n: int, w: int, v: int, j: int, c: int, x: int, y: int, q: int)
    requires w * k == 1 - v * n && x == k - j * k + c * n && -w * y == q * n + (j - 1)
    ensures x == (q * k - y * v + c) * n + y
  {
    calc {
      x;
      (1 - j) * k + c * n;
      (w * y + q * n) * k + c * n;
      y * (w * k) + (q * k) * n + c * n;
      y * (1 - v * n) + (q * k) * n + c * n;
      (q * k - y * v + c) * n + y;
    }
  }

  lemma InverseModulo(k: int, m: int, u: int, v: int)
    requires Coprime(k, m, u, v)
    ensures (u - v) * k == 1 - v * (k + m)
  {
  }

  lemma RankOfOrbit(k: int, m: int, u: int, v: int, j: int)
    requires Coprime(k, m, u, v) && 1 <= j <= k + m
    ensures Rank(k, m, u, v, Orbit(k, m, j)) == j
  {
    var n, w := k + m, u - v;
    var c := OrbitForm(k, m, j);
    InverseModulo(k, m, u, v);
    RankAlgebra(k, n, w, v, j, c, Orbit(k, m, j));
    ModUnique(n, -w * Orbit(k, m, j), j - 1, -(j - 1) * v - w * c);
  }

  lemma OrbitOfRank(k: int, m: int, u: int, v: int, y: int)
    requires Coprime(k, m, u, v) && 0 <= y < k + m
    ensures 1 <= Rank(k, m, u, v, y) <= k + m
    ensures Orbit(k, m, Rank(k, m, u, v, y)) == y
  {
    var n, w, j := k + m, u - v, Rank(k, m, u, v, y);
    var q := (-w * y) / n;
    assert -w * y == q * n + (j - 1);
    var c := OrbitForm(k, m, j);
    var x := Orbit(k, m, j);
    InverseModulo(k, m, u, v);
    OrbitAlgebra(k, n, w, v, j, c, x, y, q);
    ModUnique(n, x, y, q * k - y * v + c);
    ModUnique(n, x, x, 0);
  }

  // ----- the cycles of the exchange -----

  lemma Scaled(d: int, x: int, c: int)
    requires d > 0 && 0 <= c < d
    ensures (x * d + c) / d == x && (x * d + c) % d == c
  {
    ModUnique(d, x * d + c, c, x);
  }

  lemma ScaleOrder(d: int, x: int, y: int, c: int)
    requires 0 <= c < d
    ensures x < y <==> x * d + c < y * d
  {
    assert (y - x) * d == y * d - x * d;
    MulBounds(y - x, d);
  }

  /** Relative position reached after j moves of cycle i, for blocks of lengths a and b. */
  ghost function Walk(a: int, b: int, i: int, j: nat): int {
    if j == 0 then a + i else Step(a, b, Walk(a, b, i, j - 1))
  }

  /** Where the element that ends at relative position p comes from. */
  ghost function Source(a: int, b: int, p: int): int {
    if p < b then p + a else p - b
  }

  /** Walking in steps of block length is walking the orbit of the reduced lengths, scaled back. */
  lemma {:induction false} WalkIsOrbit(k: int, m: int, d: int, i: int, j: nat)
    requires 0 <= i < d && k >= 0 && m > 0
    ensures Walk(k * d, m * d, i, j) == Orbit(k, m, j) * d + i
  {
    if j > 0 {
      WalkIsOrbit(k, m, d, i, j - 1);
      var x := Orbit(k, m, j - 1);
      ScaleOrder(d, x, k, i);
      assert (x - k) * d == x * d - k * d;
      assert (x + m) * d == x * d + m * d;
    }
  }

  /** For every relative position: the cycle it belongs to and the move that reaches it. */
  datatype Plan = Plan(a: int, b: int, cycles: nat, length: nat, cycle: seq<int>, move: seq<int>)

  ghost predicate Covers(pl: Plan) {
    && pl.a >= 0 && pl.b > 0 && pl.length > 0
    && |pl.cycle| == |pl.move| == pl.a + pl.b
    && forall p :: 0 <= p < pl.a + pl.b ==> Reached(pl, p)
  }

  ghost predicate Reached(pl: Plan, p: int)
    requires 0 <= p < |pl.cycle| == |pl.move|
  {
    && 0 <= pl.cycle[p] < pl.cycles
    && 1 <= pl.move[p] <= pl.length
    && Walk(pl.a, pl.b, pl.cycle[p], pl.move[p]) == p
  }

  /** The cycles never meet and no position is reached twice. */
  ghost predicate Disjoint(pl: Plan)
    requires |pl.cycle| == |pl.move| == pl.a + pl.b
  {
    forall i, j: nat :: 0 <= i < pl.cycles && j <= pl.length ==> ReachedBy(pl, i, j)
  }

  ghost predicate ReachedBy(pl: Plan, i: int, j: nat)
    requires |pl.cycle| == |pl.move| == pl.a + pl.b
  {
    var p := Walk(pl.a, pl.b, i, j);
    && 0 <= p < pl.a + pl.b
    && pl.cycle[p] == i
    && pl.move[p] == if j == 0 then pl.length else j
  }

  lemma WalkReached(k: int, m: int, u: int, v: int, d: int, i: int, j: nat)
    requires Coprime(k, m, u, v) && 0 <= i < d && j <= k + m
    ensures var p := Walk(k * d, m * d, i, j);
      && 0 <= p < k * d + m * d && p % d == i
      && Rank(k, m, u, v, p / d) == if j == 0 then k + m else j
  {
    var n := k + m;
    WalkIsOrbit(k, m, d, i, j);
    var c := OrbitForm(k, m, j);
    var x := Orbit(k, m, j);
    Scaled(d, x, i);
    ScaleOrder(d, x, n, i);
    ScaleOrder(d, -1, x, i);
    MulBounds(x, d);
    Distribute(k, m, d);
    if j == 0 {
      OrbitCloses(k, m);
      RankOfOrbit(k, m, u, v, n);
    } else {
      RankOfOrbit(k, m, u, v, j);
    }
  }

  lemma OrbitCloses(k: int, m: int)
    requires k >= 0 && m > 0
    ensures Orbit(k, m, k + m) == k
  {
    var n := k + m;
    var c := OrbitForm(k, m, n);
    assert k - n * k + c * n == (c - k) * n + k;
    ModUnique(n, Orbit(k, m, n), k, c - k);
    ModUnique(n, Orbit(k, m, n), Orbit(k, m, n), 0);
  }

  lemma PositionReached(k: int, m: int, u: int, v: int, d: int, p: int)
    requires Coprime(k, m, u, v) && d > 0 && 0 <= p < k * d + m * d
    ensures var j := Rank(k, m, u, v, p / d);
      1 <= j <= k + m && Walk(k * d, m * d, p % d, j) == p
  {
    var y, c := p / d, p % d;
    assert p == y * d + c;
    Distribute(k, m, d);
    ScaleOrder(d, y, k + m, c);
    MulBounds(y, d);
    OrbitOfRank(k, m, u, v, y);
    WalkIsOrbit(k, m, d, c, Rank(k, m, u, v, y));
  }

  /** Gcd-many cycles, each of length (a + b) / gcd, partition the positions. */
  lemma MakePlan(a: int, b: int, d: int) returns (pl: Plan)
    requires a >= 0 && b > 0 && IsGcd(d, a, b)
    ensures pl.a == a && pl.b == b && pl.cycles == d && pl.length == (a + b) / d
    ensures Covers(pl) && Disjoint(pl)
  {
    var k, m, u, v := Reduce(a, b, d);
    var cycle := seq(a + b, p => p % d);
    var move := seq(a + b, p => Rank(k, m, u, v, p / d));
    pl := Plan(a, b, d, k + m, cycle, move);
    forall p | 0 <= p < a + b
      ensures Reached(pl, p)
    {
      PositionReached(k, m, u, v, d, p);
    }
    forall i, j: nat | 0 <= i < d && j <= k + m
      ensures ReachedBy(pl, i, j)
    {
      WalkReached(k, m, u, v, d, i, j);
    }
  }

  lemma Reduce(a: int, b: int, d: int) returns (k: int, m: int, u: int, v: int)
    requires a >= 0 && b > 0 && IsGcd(d, a, b)
    ensures k * d == a && m * d == b && Coprime(k, m, u, v) && (a + b) / d == k + m
  {
    k :| k * d == a;
    m :| m * d == b;
    u, v :| Combination(u, a, v, b) == d;
    MulBounds(k, d);
    MulBounds(m, d);
    CommonFactor(u, k, v, m, d);
    MulBounds(u * k + v * m - 1, d);
    Distribute(k, m, d);
    ModUnique(d, a + b, 0, k + m);
  }

  // ----- the in-place exchange -----

  ghost predicate Fits(pl: Plan, n: int, s: int) {
    Covers(pl) && Disjoint(pl) && 0 <= s && s + pl.a + pl.b <= n
  }

  /** What index q holds after i whole cycles and j moves of the next one. */
  ghost function Content<T>(pl: Plan, was: seq<T>, s: int, i: int, j: nat, q: int): T
    requires Fits(pl, |was|, s) && 0 <= q < |was| && j <= pl.length
  {
    var p := q - s;
    if !(0 <= p < pl.a + pl.b) then was[q]
    else if pl.cycle[p] < i || (pl.cycle[p] == i && pl.move[p] <= j) then was[s + Source(pl.a, pl.b, p)]
    else if pl.cycle[p] == i && pl.move[p] == pl.length then
      assert Reached(pl, p) && ReachedBy(pl, i, j);
      was[s + Walk(pl.a, pl.b, i, j)]
    else was[q]
  }

  /** The whole vector after i cycles and j moves of the next one. */
  ghost function Snapshot<T>(pl: Plan, was: seq<T>, s: int, i: int, j: nat): seq<T>
    requires Fits(pl, |was|, s) && j <= pl.length
  {
    seq(|was|, q requires 0 <= q < |was| => Content(pl, was, s, i, j, q))
  }

  /** The positions of one move: the place reached, which takes what the move before it left, and the cycle's start. */
  lemma MovePositions(pl: Plan, i: int, j: nat)
    requires Covers(pl) && Disjoint(pl) && 0 <= i < pl.cycles && j < pl.length
    ensures var pos, c := Walk(pl.a, pl.b, i, j + 1), pl.a + i;
      && 0 <= pos < pl.a + pl.b && 0 <= c < pl.a + pl.b
      && pl.cycle[pos] == pl.cycle[c] == i && pl.move[pos] == j + 1 && pl.move[c] == pl.length
      && Source(pl.a, pl.b, pos) == Walk(pl.a, pl.b, i, j)
      && 0 <= Walk(pl.a, pl.b, i, j) < pl.a + pl.b
  {
    assert ReachedBy(pl, i, j) && ReachedBy(pl, i, j + 1);
    assert ReachedBy(pl, i, 0);
    assert Walk(pl.a, pl.b, i, 0) == pl.a + i;
  }

  /** What one move changes at index q. */
  lemma MoveContent<T>(pl: Plan, was: seq<T>, s: int, i: int, j: nat, q: int)
    requires Fits(pl, |was|, s) && 0 <= i < pl.cycles && j < pl.length && 0 <= q < |was|
    ensures var pos, c := s + Walk(pl.a, pl.b, i, j + 1), s + pl.a + i;
      && 0 <= pos < |was| && 0 <= c < |was|
      && Content(pl, was, s, i, j + 1, q) ==
         if q == c then Content(pl, was, s, i, j, pos)
         else if q == pos then Content(pl, was, s, i, j, c)
         else Content(pl, was, s, i, j, q)
  {
    MovePositions(pl, i, j);
    if 0 <= q - s < pl.a + pl.b {
      assert Reached(pl, q - s) && Reached(pl, pl.a + i);
    }
  }

  /** One move settles the position it reaches; the cycle's start holds what is to be placed next. */
  lemma Move<T>(pl: Plan, was: seq<T>, s: int, i: int, j: nat)
    requires Fits(pl, |was|, s) && 0 <= i < pl.cycles && j < pl.length
    ensures var pos := s + Walk(pl.a, pl.b, i, j + 1); var c := s + pl.a + i; var now := Snapshot(pl, was, s, i, j);
      && s <= pos < s + pl.a + pl.b && s <= c < s + pl.a + pl.b
      && now[pos := now[c]][c := now[pos]] == Snapshot(pl, was, s, i, j + 1)
  {
    MovePositions(pl, i, j);
    var pos, c, now := s + Walk(pl.a, pl.b, i, j + 1), s + pl.a + i, Snapshot(pl, was, s, i, j);
    var moved := now[pos := now[c]][c := now[pos]];
    forall q | 0 <= q < |was|
      ensures moved[q] == Content(pl, was, s, i, j + 1, q)
    {
      MoveContent(pl, was, s, i, j, q);
    }
  }

  lemma CycleDone<T>(pl: Plan, was: seq<T>, s: int, i: int)
    requires Fits(pl, |was|, s) && 0 <= i < pl.cycles
    ensures Snapshot(pl, was, s, i, pl.length) == Snapshot(pl, was, s, i + 1, 0)
  {
    forall q | 0 <= q < |was|
      ensures Content(pl, was, s, i, pl.length, q) == Content(pl, was, s, i + 1, 0, q)
    {
      if 0 <= q - s < pl.a + pl.b { StartOfCycle(pl, i + 1, q - s); }
    }
  }

  lemma StartOfCycle(pl: Plan, i: int, p: int)
    requires Covers(pl) && Disjoint(pl) && 0 <= p < pl.a + pl.b && 0 <= i
    ensures Reached(pl, p)
    ensures pl.cycle[p] == i && pl.move[p] == pl.length ==> p == Walk(pl.a, pl.b, i, 0)
  {
    assert Reached(pl, p);
    if pl.cycle[p] == i && pl.move[p] == pl.length {
      assert ReachedBy(pl, i, 0);
      assert Reached(pl, Walk(pl.a, pl.b, i, 0));
    }
  }

  lemma NothingDone<T>(pl: Plan, was: seq<T>, s: int)
    requires Fits(pl, |was|, s)
    ensures Snapshot(pl, was, s, 0, 0) == was
  {
    forall q | 0 <= q < |was|
      ensures Content(pl, was, s, 0, 0, q) == was[q]
    {
      if 0 <= q - s < pl.a + pl.b { StartOfCycle(pl, 0, q - s); }
    }
  }

  /** The vector with its blocks [s, e) and [e, o) exchanged. */
  ghost function Exchanged<T>(v: seq<T>, s: int, e: int, o: int): seq<T>
    requires 0 <= s <= e <= o <= |v|
  {
    v[..s] + v[e..o] + v[s..e] + v[o..]
  }

  /** Exchanging the blocks back restores the vector, so nothing is lost or doubled. */
  lemma ExchangedBack<T>(v: seq<T>, s: int, e: int, o: int)
    requires 0 <= s <= e <= o <= |v|
    ensures |Exchanged(v, s, e, o)| == |v|
    ensures Exchanged(Exchanged(v, s, e, o), s, s + (o - e), o) == v
  {
    var a, b, c, d := v[..s], v[s..e], v[e..o], v[o..];
    assert v == a + b + c + d;
    var x := Exchanged(v, s, e, o);
    assert x == a + c + b + d;
    assert x[..s] == a && x[s..s + (o - e)] == c;
    assert x[s + (o - e)..o] == b && x[o..] == d;
  }

  lemma SameArguments<T>(v: seq<T>, s: int, e: int, o: int)
    requires 0 <= s <= e <= o <= |v|
    ensures multiset(Exchanged(v, s, e, o)) == multiset(v)
  {
    assert v == v[..s] + v[s..e] + v[e..o] + v[o..];
  }

  lemma AllDone<T>(pl: Plan, was: seq<T>, s: int, e: int, o: int)
    requires Fits(pl, |was|, s) && e == s + pl.a && o == e + pl.b
    ensures Snapshot(pl, was, s, pl.cycles, 0) == Exchanged(was, s, e, o)
  {
    forall q | s <= q < s + pl.a + pl.b
      ensures Content(pl, was, s, pl.cycles, 0, q) == was[s + Source(pl.a, pl.b, q - s)]
    {
      assert Reached(pl, q - s);
    }
  }

  method Swap<T>(nargv: array<T>, pos: int, cstart: int)
    requires 0 <= pos < nargv.Length && 0 <= cstart < nargv.Length
    modifies nargv
    ensures nargv[..] == old(nargv[..])[pos := old(nargv[cstart])][cstart := old(nargv[pos])]
  {
    var swap := nargv[pos];
    nargv[pos] := nargv[cstart];
    nargv[cstart] := swap;
  }

  /** The inner loop: follows one cycle round to its start. */
  method FollowCycle<T>(nonoptStart: int, nonoptEnd: int, optEnd: int, nargv: array<T>, i: nat, cyclelen: nat,
                        ghost pl: Plan, ghost was: seq<T>)
    requires 0 <= nonoptStart <= nonoptEnd < optEnd <= nargv.Length == |was|
    requires Fits(pl, |was|, nonoptStart) && pl.a == nonoptEnd - nonoptStart && pl.b == optEnd - nonoptEnd
    requires i < pl.cycles && cyclelen == pl.length && nargv[..] == Snapshot(pl, was, nonoptStart, i, 0)
    modifies nargv
    ensures nargv[..] == Snapshot(pl, was, nonoptStart, i, cyclelen)
  {
    var cstart := nonoptEnd + i;
    var pos := cstart;
    assert ReachedBy(pl, i, 0);
    for j := 0 to cyclelen
      invariant pos == nonoptStart + Walk(pl.a, pl.b, i, j) && nonoptStart <= pos < optEnd
      invariant nargv[..] == Snapshot(pl, was, nonoptStart, i, j)
    {
      Move(pl, was, nonoptStart, i, j);
      if pos >= nonoptEnd {
        pos := pos - (nonoptEnd - nonoptStart);
      } else {
        pos := pos + (optEnd - nonoptEnd);
      }
      Swap(nargv, pos, cstart);
    }
  }

  /** Exchanges the block [nonoptStart, nonoptEnd) with the block [nonoptEnd, optEnd), each keeping its order.
      The first block may be empty; an empty second block would make the source divide by zero. */
  method PermuteArgs<T>(nonoptStart: int, nonoptEnd: int, optEnd: int, nargv: array<T>)
    requires 0 <= nonoptStart <= nonoptEnd < optEnd <= nargv.Length
    modifies nargv
    ensures nargv[..] == Exchanged(old(nargv[..]), nonoptStart, nonoptEnd, optEnd)
  {
    var nnonopts := nonoptEnd - nonoptStart;
    var nopts := optEnd - nonoptEnd;
    var ncycle := Gcd(nnonopts, nopts);
    var cyclelen := (optEnd - nonoptStart) / ncycle;

    ghost var was := nargv[..];
    ghost var pl := MakePlan(nnonopts, nopts, ncycle);
    NothingDone(pl, was, nonoptStart);

    for i := 0 to ncycle
      invariant nargv[..] == Snapshot(pl, was, nonoptStart, i, 0)
    {
      FollowCycle(nonoptStart, nonoptEnd, optEnd, nargv, i, cyclelen, pl, was);
      CycleDone(pl, was, nonoptStart, i);
    }
    AllDone(pl, was, nonoptStart, nonoptEnd, optEnd);
  }
}
