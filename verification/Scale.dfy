/** The scales of the cells of a bucket, and what splitting a value by them gives (matrix/distance.go). */
module Scales {
  import opened Seqs
  import opened Partition
  import opened Weights

  function FirstAt(t: seq<nat>, d: nat): (i: nat)
    requires d in t
    ensures i < |t| && t[i] == d
  {
    if t[0] == d then 0 else FirstAt(t[1..], d) + 1
  }

  /** The weight of a distance among the sorted distances of a bucket. */
  function WeightOf(s: Strategy, t: seq<nat>, d: nat): real {
    if d in t then Weight(s, t, FirstAt(t, d)) else 0.0
  }

  lemma WeightOfAt(s: Strategy, t: seq<nat>, i: nat)
    requires s.Valid() && Ordered(t) && i < |t|
    ensures WeightOf(s, t, t[i]) == Weight(s, t, i)
  {
    var j := FirstAt(t, t[i]);
    WeightFalls(s, t, if i < j then i else j, if i < j then j else i);
  }

  /** The scale of every cell, given the cells' distances. */
  function Scaled(s: Strategy, ds: seq<nat>): (scale: seq<real>)
    requires ds != [] && Total(s, Sorted(ds), |ds|) != 0.0
    ensures |scale| == |ds|
  {
    var t := Sorted(ds);
    seq(|ds|, k requires 0 <= k < |ds| => WeightOf(s, t, ds[k]) / Total(s, t, |t|))
  }

  function RealSum(xs: seq<real>): real {
    if xs == [] then 0.0 else RealSum(xs[..|xs| - 1]) + Last(xs)
  }

  function WeightsOf(s: Strategy, t: seq<nat>, ds: seq<nat>): real {
    if ds == [] then 0.0 else WeightsOf(s, t, ds[..|ds| - 1]) + WeightOf(s, t, Last(ds))
  }

  lemma {:induction false} WeightsOfConcat(s: Strategy, t: seq<nat>, a: seq<nat>, b: seq<nat>)
    ensures WeightsOf(s, t, a + b) == WeightsOf(s, t, a) + WeightsOf(s, t, b)
  {
    if b == [] {
      assert a + b == a;
    } else {
      var c := b[..|b| - 1];
      WeightsOfConcat(s, t, a, c);
      assert (a + b)[..|a + b| - 1] == a + c;
    }
  }

  lemma TakeOut(b: seq<nat>, left: seq<nat>, x: nat, right: seq<nat>)
    requires b == left + ([x] + right)
    ensures multiset(left + right) == multiset(b) - multiset{x}
  {
  }

  /** It does not matter where among the distances one stands. */
  lemma {:induction false} WeightsOfMoved(s: Strategy, t: seq<nat>, b: seq<nat>, left: seq<nat>, x: nat,
                                          right: seq<nat>)
    requires b == left + ([x] + right)
    ensures WeightsOf(s, t, b) == WeightsOf(s, t, left + right) + WeightOf(s, t, x)
  {
    WeightsOfConcat(s, t, left, right);
    WeightsOfConcat(s, t, left, [x] + right);
    WeightsOfConcat(s, t, [x], right);
    assert WeightsOf(s, t, [x]) == WeightOf(s, t, x) by {
      assert [x][..0] == [];
    }
  }

  /** The order in which weights are added does not matter. */
  lemma {:induction false} WeightsOfPermuted(s: Strategy, t: seq<nat>, a: seq<nat>, b: seq<nat>)
    requires multiset(a) == multiset(b)
    ensures WeightsOf(s, t, a) == WeightsOf(s, t, b)
    decreases |a|
  {
    assert |a| == |multiset(a)| == |multiset(b)| == |b|;
    if a != [] {
      hide WeightOf;
      assert Last(a) in multiset(b);
      var j :| 0 <= j < |b| && b[j] == Last(a);
      WeightsOfSplit(s, t, a, b, j);
    }
  }

  /** Taking equal distances out of equal collections leaves equal collections. */
  lemma RestsMatch(a: seq<nat>, b: seq<nat>, j: nat)
    requires a != [] && multiset(a) == multiset(b) && j < |b| && b[j] == Last(a)
    ensures multiset(a[..|a| - 1]) == multiset(b[..j] + b[j + 1..])
  {
    var x, rest, left, right := Last(a), a[..|a| - 1], b[..j], b[j + 1..];
    assert a == rest + ([x] + []) && rest + [] == rest;
    assert b == left + ([x] + right);
    TakeOut(a, rest, x, []);
    TakeOut(b, left, x, right);
  }

  lemma {:induction false} WeightsOfSplit(s: Strategy, t: seq<nat>, a: seq<nat>, b: seq<nat>, j: nat)
    requires a != [] && multiset(a) == multiset(b) && j < |b| && b[j] == Last(a)
    ensures WeightsOf(s, t, a) == WeightsOf(s, t, b)
    decreases |a|, 0
  {
    var left, right := b[..j], b[j + 1..];
    RestsMatch(a, b, j);
    WeightsOfPermuted(s, t, a[..|a| - 1], left + right);
    assert b == left + ([b[j]] + right);
    WeightsOfMoved(s, t, b, left, b[j], right);
  }

  lemma {:induction false} WeightsOfSorted(s: Strategy, t: seq<nat>, n: nat)
    requires s.Valid() && Ordered(t) && n <= |t|
    ensures WeightsOf(s, t, t[..n]) == WeightSum(s, t, n)
  {
    if n > 0 {
      WeightsOfSorted(s, t, n - 1);
      WeightOfAt(s, t, n - 1);
      assert t[..n][..n - 1] == t[..n - 1];
    }
  }

  lemma {:induction false} SumOfQuotients(s: Strategy, t: seq<nat>, ds: seq<nat>, scale: seq<real>, total: real)
    requires total > 0.0 && |scale| == |ds| && forall k :: 0 <= k < |ds| ==> scale[k] == WeightOf(s, t, ds[k]) / total
    ensures RealSum(scale) == WeightsOf(s, t, ds) / total
  {
    if ds == [] {
      assert 0.0 / total == 0.0;
    } else {
      hide WeightOf;
      var n := |ds| - 1;
      SumOfQuotients(s, t, ds[..n], scale[..n], total);
      AddQuotients(WeightsOf(s, t, ds[..n]), WeightOf(s, t, ds[n]), total);
    }
  }

  lemma AddQuotients(a: real, b: real, total: real)
    requires total > 0.0
    ensures a / total + b / total == (a + b) / total
  {
  }

  lemma Quotient(x: real, y: real)
    requires 0.0 <= x <= y && y > 0.0
    ensures 0.0 <= x / y <= 1.0 && (x / y == 1.0 <==> x == y)
  {
  }

  lemma {:induction false} TotalPositive(s: Strategy, ds: seq<nat>)
    requires s.Valid() && ds != []
    ensures Total(s, Sorted(ds), |ds|) >= 1.0
  {
    WeightsWithinTotal(s, Sorted(ds), |ds|);
  }

  /** The scales of a bucket's cells sum to at most one, and to exactly one just when no distance in the
      bucket is cut off. */
  lemma {:induction false} ScaledSum(s: Strategy, ds: seq<nat>)
    requires s.Valid() && ds != []
    ensures Total(s, Sorted(ds), |ds|) != 0.0 && 0.0 <= RealSum(Scaled(s, ds)) <= 1.0
    ensures s.ratio > 0.0 ==>
      (RealSum(Scaled(s, ds)) == 1.0
       <==> forall i :: 0 <= i < |ds| && Rises(Sorted(ds), i) ==> !Beyond(s, Sorted(ds), i))
  {
    var t, n := Sorted(ds), |ds|;
    SortedIs(ds);
    WeightsWithinTotal(s, t, n);
    WeightsOfPermuted(s, t, ds, t);
    WeightsOfSorted(s, t, n);
    assert t[..n] == t;
    SumOfQuotients(s, t, ds, Scaled(s, ds), Total(s, t, n));
    Quotient(WeightSum(s, t, n), Total(s, t, n));
    CleanExactly(s, t, n - 1);
  }

  lemma Divided(x: real, y: real, total: real)
    requires 0.0 <= x <= y && y <= total && total > 0.0
    ensures 0.0 <= x / total <= y / total <= 1.0
  {
  }

  /** A cell farther away has no greater scale. */
  lemma {:induction false} ScaledFalls(s: Strategy, ds: seq<nat>, a: nat, b: nat)
    requires s.Valid() && a < |ds| && b < |ds| && ds[a] <= ds[b]
    ensures Total(s, Sorted(ds), |ds|) != 0.0
    ensures 0.0 <= Scaled(s, ds)[b] <= Scaled(s, ds)[a] <= 1.0
    ensures ds[a] == ds[b] ==> Scaled(s, ds)[b] == Scaled(s, ds)[a]
  {
    var t := Sorted(ds);
    SortedIs(ds);
    TotalPositive(s, ds);
    assert ds[a] in multiset(ds) && ds[b] in multiset(ds);
    var i, j := FirstAt(t, ds[a]), FirstAt(t, ds[b]);
    RunningIs(s, t, i);
    RunningIs(s, t, j);
    if j < i {
      OrderedBetween(t, j, i);
      WeightFalls(s, t, j, i);
    } else {
      WeightFalls(s, t, i, j);
    }
    Divided(Weight(s, t, j), Weight(s, t, i), Total(s, t, |t|));
  }

  /** A bucket with one cell keeps its value. */
  lemma ScaledSingle(s: Strategy, d: nat)
    ensures Total(s, Sorted([d]), 1) != 0.0 && Scaled(s, [d]) == [1.0]
  {
    assert Sorted([d]) == [d];
    assert Clean(s, [d], 0) && Running(s, [d], 0) == 1.0;
    assert Total(s, [d], 1) == 1.0;
  }

  // ---------------------------------------------------------------- sharing a value out

  /** What each cell gets of a value. */
  function Shares(value: nat, scale: seq<real>): (shares: seq<nat>)
    requires forall k :: 0 <= k < |scale| ==> scale[k] >= 0.0
    ensures |shares| == |scale|
  {
    seq(|scale|, k requires 0 <= k < |scale| => Share(value, scale[k]))
  }

  function Share(value: nat, scale: real): (share: nat)
    requires scale >= 0.0
    ensures share as real <= value as real * scale < share as real + 1.0
  {
    assert value as real * scale >= 0.0;
    (value as real * scale).Floor
  }

  /** The cells of a bucket get no more than the scales' sum of what it held, and lose less than one each. */
  lemma {:induction false} SharesWithinValue(value: nat, scale: seq<real>)
    requires forall k :: 0 <= k < |scale| ==> scale[k] >= 0.0
    ensures Sum(Shares(value, scale)) as real <= value as real * RealSum(scale)
    ensures value as real * RealSum(scale) <= (Sum(Shares(value, scale)) + |scale|) as real
    ensures scale != [] ==> value as real * RealSum(scale) < (Sum(Shares(value, scale)) + |scale|) as real
  {
    hide Sum, Shares, RealSum, Share;
    NoShares(value);
    if scale != [] {
      var front, x := scale[..|scale| - 1], Last(scale);
      SharesWithinValue(value, front);
      LastShare(value, scale);
      AddShare(value as real, RealSum(front), x, Sum(Shares(value, front)), |front|, Share(value, x));
    }
  }

  lemma NoShares(value: nat)
    ensures Sum(Shares(value, [])) == 0 && RealSum([]) == 0.0
  {
  }

  lemma LastShare(value: nat, scale: seq<real>)
    requires scale != [] && forall k :: 0 <= k < |scale| ==> scale[k] >= 0.0
    ensures var front, x := scale[..|scale| - 1], Last(scale);
      && Sum(Shares(value, scale)) == Sum(Shares(value, front)) + Share(value, x)
      && RealSum(scale) == RealSum(front) + x
  {
    var front, x := scale[..|scale| - 1], Last(scale);
    assert Shares(value, scale) == Shares(value, front) + [Share(value, x)];
    SumConcat(Shares(value, front), [Share(value, x)]);
    assert Sum([Share(value, x)]) == Share(value, x);
  }

  lemma AddShare(v: real, whole: real, x: real, sum: nat, n: nat, share: nat)
    requires sum as real <= v * whole <= (sum + n) as real && share as real <= v * x < share as real + 1.0
    ensures (sum + share) as real <= v * (whole + x) < (sum + share + (n + 1)) as real
  {
    Distribute(v, whole, x);
  }

  lemma {:induction false} SharesOfWhole(value: nat, scale: seq<real>)
    requires (forall k :: 0 <= k < |scale| ==> scale[k] >= 0.0) && RealSum(scale) <= 1.0
    ensures Sum(Shares(value, scale)) <= value
    ensures RealSum(scale) == 1.0 ==> scale != [] && value <= Sum(Shares(value, scale)) + (|scale| - 1)
  {
    assert RealSum([]) == 0.0;
    hide Sum, Shares, RealSum;
    SharesWithinValue(value, scale);
    AtMostPart(Sum(Shares(value, scale)), value, RealSum(scale));
  }

  lemma AtMostPart(a: int, v: nat, x: real)
    requires a as real <= v as real * x && x <= 1.0
    ensures a <= v
  {
    AtMostWhole(v as real, x);
  }

  lemma Distribute(v: real, a: real, b: real)
    ensures v * (a + b) == v * a + v * b
  {
  }

  lemma {:induction false} ScaledShares(s: Strategy, value: nat, ds: seq<nat>)
    requires s.Valid() && ds != []
    ensures Total(s, Sorted(ds), |ds|) != 0.0
    ensures forall k :: 0 <= k < |ds| ==> 0.0 <= Scaled(s, ds)[k] <= 1.0
    ensures Sum(Shares(value, Scaled(s, ds))) <= value
    ensures RealSum(Scaled(s, ds)) == 1.0 ==> value <= Sum(Shares(value, Scaled(s, ds))) + (|ds| - 1)
  {
    hide Scaled, RealSum, Sum, Sorted, Total, Shares;
    ScaledSum(s, ds);
    var scale := Scaled(s, ds);
    forall k | 0 <= k < |ds|
      ensures 0.0 <= scale[k] <= 1.0
    {
      ScaledFalls(s, ds, k, k);
    }
    SharesOfWhole(value, scale);
  }

  lemma AtMostWhole(v: real, x: real)
    requires x <= 1.0 && v >= 0.0
    ensures v * x <= v
  {
  }
}
