/** Weighted counts over sequences, and counts of distinct numbers. */
module Sums {

  ghost function Sum<T>(s: seq<T>, f: T -> nat): nat {
    if s == [] then 0 else f(s[0]) + Sum(s[1..], f)
  }

  lemma {:induction false} SumAppend<T>(s: seq<T>, x: T, f: T -> nat)
    ensures Sum(s + [x], f) == Sum(s, f) + f(x)
  {
    if s == [] {
      assert (s + [x])[1..] == [];
    } else {
      assert (s + [x])[1..] == s[1..] + [x];
      SumAppend(s[1..], x, f);
    }
  }

  lemma {:induction false} SumUpdate<T>(s: seq<T>, i: nat, x: T, f: T -> nat)
    requires i < |s|
    ensures Sum(s[i := x], f) + f(s[i]) == Sum(s, f) + f(x)
  {
    if i == 0 {
      assert s[i := x][1..] == s[1..];
    } else {
      assert s[i := x][1..] == s[1..][i - 1 := x];
      SumUpdate(s[1..], i - 1, x, f);
    }
  }

  lemma {:induction false} SumElement<T>(s: seq<T>, i: nat, f: T -> nat)
    requires i < |s|
    ensures f(s[i]) <= Sum(s, f)
  {
    if i > 0 { SumElement(s[1..], i - 1, f); }
  }

  lemma {:induction false} SumPair<T>(s: seq<T>, i: nat, j: nat, f: T -> nat)
    requires i < j < |s|
    ensures f(s[i]) + f(s[j]) <= Sum(s, f)
  {
    if i == 0 {
      SumElement(s[1..], j - 1, f);
    } else {
      SumPair(s[1..], i - 1, j - 1, f);
    }
  }

  lemma {:induction false} SumZero<T>(s: seq<T>, f: T -> nat)
    ensures Sum(s, f) == 0 <==> forall i :: 0 <= i < |s| ==> f(s[i]) == 0
  {
    if s != [] {
      SumZero(s[1..], f);
      assert forall i :: 1 <= i < |s| ==> s[i] == s[1..][i - 1];
      if forall i :: 0 <= i < |s| ==> f(s[i]) == 0 {
        assert forall i :: 0 <= i < |s[1..]| ==> s[1..][i] == s[i + 1];
      } else if Sum(s[1..], f) == 0 {
        assert f(s[0]) != 0;
      }
    }
  }

  // ----- distinct numbers -----

  ghost predicate Distinct(ts: seq<int>) {
    forall i, j :: 0 <= i < j < |ts| ==> ts[i] != ts[j]
  }

  ghost function Elements(ts: seq<int>): set<int> {
    set x | x in ts
  }

  lemma {:induction false} DistinctCount(ts: seq<int>)
    requires Distinct(ts)
    ensures |Elements(ts)| == |ts|
  {
    if ts != [] {
      var n := |ts| - 1;
      DistinctCount(ts[..n]);
      assert Elements(ts) == Elements(ts[..n]) + {ts[n]};
    }
  }

  lemma {:induction false} RangeCount(s: set<int>, lo: int, hi: int)
    requires lo <= hi + 1 && forall x :: x in s ==> lo <= x <= hi
    ensures |s| <= hi - lo + 1
    decreases hi - lo + 1
  {
    if lo > hi {
      assert forall x :: x !in s;
      assert s == {};
    } else {
      var rest := s - {hi};
      RangeCount(rest, lo, hi - 1);
      assert s <= rest + {hi};
      if hi in s { assert s == rest + {hi}; } else { assert s == rest; }
    }
  }

  lemma DistinctBelow(ts: seq<nat>, n: nat)
    requires Distinct(ts) && forall i :: 0 <= i < |ts| ==> ts[i] < n
    ensures |ts| <= n
  {
    DistinctCount(ts);
    RangeCount(Elements(ts), 0, n - 1);
  }
}
