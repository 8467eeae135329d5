/** What the scales of a bucket's cells are, said of the cells' distances alone (matrix/distance.go). */
module ScaleLaws {
  import opened Seqs
  import opened Weights
  import opened Scales

  // ---------------------------------------------------------------- along the sorted distances

  lemma FirstWeight(s: Strategy, t: seq<nat>)
    requires t != []
    ensures Weight(s, t, 0) == 1.0
  {
  }

  /** The next greater distance weighs the ratio times as much, unless it is cut off. */
  lemma NextWeight(s: Strategy, t: seq<nat>, i: nat)
    requires i < |t| && Rises(t, i)
    ensures Clean(s, t, i) ==> Weight(s, t, i) == s.ratio * Weight(s, t, i - 1)
    ensures !Clean(s, t, i) ==> Weight(s, t, i) == 0.0
  {
  }

  /** The smaller ones of some distances, each once. */
  function Smaller(ds: seq<nat>, d: nat): set<nat> {
    set x | x in ds && x < d
  }

  /** How many of some distances are smaller. */
  function Nearer(ds: seq<nat>, d: nat): nat {
    if ds == [] then 0 else Nearer(ds[..|ds| - 1], d) + if Last(ds) < d then 1 else 0
  }

  /** The distance is not cut off: it is the least, or few enough distances, and few enough cells, are nearer. */
  predicate Reached(s: Strategy, ds: seq<nat>, d: nat) {
    Smaller(ds, d) == {} || (|Smaller(ds, d)| < s.level && Nearer(ds, d) < s.count)
  }

  lemma {:induction false} LevelIs(t: seq<nat>, i: nat)
    requires Ordered(t) && i < |t|
    ensures Level(t, i) == |Smaller(t, t[i])|
  {
    SmallerGrows(t, i);
    if i > 0 {
      LevelIs(t, i - 1);
    }
  }

  /** With a greater distance, the one before it joins the smaller ones. */
  lemma SmallerGrows(t: seq<nat>, i: nat)
    requires Ordered(t) && i < |t|
    ensures i == 0 ==> Smaller(t, t[i]) == {}
    ensures i > 0 && !Rises(t, i) ==> Smaller(t, t[i]) == Smaller(t, t[i - 1])
    ensures i > 0 && Rises(t, i)
      ==> Smaller(t, t[i]) == Smaller(t, t[i - 1]) + {t[i - 1]} && t[i - 1] !in Smaller(t, t[i - 1])
  {
    forall x | x in t && x < t[i]
      ensures i > 0 && x <= t[i - 1]
    {
      var j :| 0 <= j < |t| && t[j] == x;
      if i <= j {
        OrderedBetween(t, i, j);
      }
      OrderedBetween(t, j, i - 1);
    }
    if i > 0 {
      OrderedBetween(t, i - 1, i);
    }
  }

  lemma {:induction false} NearerIs(t: seq<nat>, f: nat, n: nat)
    requires Ordered(t) && f < |t| && (f > 0 ==> t[f - 1] < t[f]) && n <= |t|
    ensures Nearer(t[..n], t[f]) == if n <= f then n else f
  {
    if n > 0 {
      NearerIs(t, f, n - 1);
      assert t[..n][..n - 1] == t[..n - 1];
      if n - 1 < f {
        OrderedBetween(t, n - 1, f - 1);
      } else {
        OrderedBetween(t, f, n - 1);
      }
    }
  }

  /** A distance is read clean just when it is reached. */
  lemma {:induction false} CleanIsReached(s: Strategy, t: seq<nat>, f: nat, i: nat)
    requires Ordered(t) && f <= i < |t| && t[f] == t[i] && (f > 0 ==> t[f - 1] < t[f])
    ensures Clean(s, t, i) <==> Reached(s, t, t[i])
  {
    LevelIs(t, f);
    NearerIs(t, f, |t|);
    assert t[..|t|] == t;
    SameClean(s, t, f, i);
    hide Smaller, Nearer;
    if f == 0 {
      SmallerGrows(t, 0);
    } else {
      SmallerGrows(t, f);
      if !Clean(s, t, f - 1) {
        CutStays(s, t, f - 1);
      }
    }
  }

  lemma {:induction false} SameClean(s: Strategy, t: seq<nat>, f: nat, i: nat)
    requires Ordered(t) && f <= i < |t| && t[f] == t[i]
    ensures Clean(s, t, i) <==> Clean(s, t, f)
    ensures Running(s, t, i) == Running(s, t, f) && Weight(s, t, i) == Weight(s, t, f)
    decreases i
  {
    if f < i {
      OrderedBetween(t, f, i - 1);
      OrderedBetween(t, i - 1, i);
      SameClean(s, t, f, i - 1);
    }
  }

  // ---------------------------------------------------------------- among the cells

  lemma {:induction false} NearerPlaced(x: nat, t: seq<nat>, d: nat)
    ensures Nearer(Placed(x, t), d) == Nearer(t, d) + if x < d then 1 else 0
  {
    if t == [] || x <= t[0] {
      NearerFirst([x] + t, d);
      assert ([x] + t)[1..] == t;
    } else {
      NearerPlaced(x, t[1..], d);
      NearerFirst(t, d);
      NearerFirst([t[0]] + Placed(x, t[1..]), d);
      assert ([t[0]] + Placed(x, t[1..]))[1..] == Placed(x, t[1..]);
    }
  }

  lemma {:induction false} NearerFirst(ds: seq<nat>, d: nat)
    requires ds != []
    ensures Nearer(ds, d) == Nearer(ds[1..], d) + if ds[0] < d then 1 else 0
  {
    if |ds| > 1 {
      NearerFirst(ds[..|ds| - 1], d);
      assert ds[..|ds| - 1][1..] == ds[1..][..|ds| - 2];
    } else {
      assert ds[..0] == [] && ds[1..] == [];
    }
  }

  lemma {:induction false} NearerSorted(ds: seq<nat>, d: nat)
    ensures Nearer(Sorted(ds), d) == Nearer(ds, d)
  {
    if ds != [] {
      NearerSorted(ds[..|ds| - 1], d);
      NearerPlaced(Last(ds), Sorted(ds[..|ds| - 1]), d);
    }
  }

  /** Sorting does not change which distances are reached. */
  lemma ReachedSorted(s: Strategy, ds: seq<nat>, d: nat)
    ensures Reached(s, Sorted(ds), d) <==> Reached(s, ds, d)
  {
    SortedIs(ds);
    NearerSorted(ds, d);
    forall x
      ensures x in Sorted(ds) <==> x in ds
    {
      assert x in multiset(Sorted(ds)) <==> x in multiset(ds);
    }
    assert Smaller(Sorted(ds), d) == Smaller(ds, d);
  }

  /** Where a distance first stands among the sorted ones. */
  lemma {:induction false} FirstPlace(t: seq<nat>, d: nat)
    requires Ordered(t) && d in t
    ensures var f := FirstAt(t, d); t[f] == d && (f > 0 ==> t[f - 1] < d)
  {
    if t[0] != d {
      TailOrdered(t);
      FirstPlace(t[1..], d);
      var f := FirstAt(t, d);
      OrderedBetween(t, f - 1, f);
      if f - 1 > 0 {
        assert t[f - 1] == t[1..][f - 2];
      }
    }
  }

  /** Cell `b` has the next greater distance after cell `a`. */
  ghost predicate NextFarther(ds: seq<nat>, a: nat, b: nat)
    requires a < |ds| && b < |ds|
  {
    ds[a] < ds[b] && forall x :: x in ds ==> x <= ds[a] || ds[b] <= x
  }

  /** A cell's scale is its weight over the divisor. */
  lemma {:induction false} ScaleOfCell(s: Strategy, ds: seq<nat>, k: nat)
    requires s.Valid() && k < |ds|
    ensures Total(s, Sorted(ds), |ds|) >= 1.0 && Ordered(Sorted(ds)) && ds[k] in Sorted(ds)
    ensures var t := Sorted(ds);
      var f := FirstAt(t, ds[k]);
      && Scaled(s, ds)[k] == Weight(s, t, f) / Total(s, t, |t|)
      && (Clean(s, t, f) <==> Reached(s, ds, ds[k])) && (f > 0 ==> t[f - 1] < t[f])
  {
    var t := Sorted(ds);
    SortedIs(ds);
    TotalPositive(s, ds);
    assert ds[k] in multiset(ds);
    FirstPlace(t, ds[k]);
    CleanIsReached(s, t, FirstAt(t, ds[k]), FirstAt(t, ds[k]));
    ReachedSorted(s, ds, ds[k]);
  }

  /** From one distance to the next greater one, scales shrink by the ratio, until the distances are cut off; then
      they are 0. */
  lemma {:induction false} ScalesShrink(s: Strategy, ds: seq<nat>, a: nat, b: nat)
    requires s.Valid() && a < |ds| && b < |ds| && NextFarther(ds, a, b)
    ensures Total(s, Sorted(ds), |ds|) != 0.0
    ensures Scaled(s, ds)[b] == if Reached(s, ds, ds[b]) then s.ratio * Scaled(s, ds)[a] else 0.0
  {
    hide Total, Sorted, Level, Smaller, Nearer;
    var t := Sorted(ds);
    ScaleOfCell(s, ds, a);
    ScaleOfCell(s, ds, b);
    var f, g := FirstAt(t, ds[a]), FirstAt(t, ds[b]);
    NeighbourPlaces(ds, t, a, b, f, g);
    SameClean(s, t, f, g - 1);
    NextWeight(s, t, g);
    TimesQuotient(s.ratio, Weight(s, t, f), Total(s, t, |t|));
  }

  lemma NeighbourPlaces(ds: seq<nat>, t: seq<nat>, a: nat, b: nat, f: nat, g: nat)
    requires t == Sorted(ds) && a < |ds| && b < |ds| && NextFarther(ds, a, b)
    requires f < |t| && g < |t| && t[f] == ds[a] && t[g] == ds[b] && (g > 0 ==> t[g - 1] < t[g])
    ensures Ordered(t) && f < g && t[g - 1] == t[f] && Rises(t, g)
  {
    hide Sorted, Ordered;
    SortedIs(ds);
    if g <= f {
      OrderedBetween(t, g, f);
    }
    OrderedBetween(t, f, g - 1);
    assert t[g - 1] in multiset(t);
    assert t[g - 1] in ds;
  }

  lemma TimesQuotient(r: real, x: real, y: real)
    requires y != 0.0
    ensures r * x / y == r * (x / y) && 0.0 / y == 0.0
  {
  }

  // ---------------------------------------------------------------- the divisor

  function SumOver(f: nat -> real, ds: seq<nat>): real {
    if ds == [] then 0.0 else SumOver(f, ds[..|ds| - 1]) + f(Last(ds))
  }

  lemma {:induction false} SumOverFirst(f: nat -> real, ds: seq<nat>)
    requires ds != []
    ensures SumOver(f, ds) == f(ds[0]) + SumOver(f, ds[1..])
  {
    if |ds| > 1 {
      SumOverFirst(f, ds[..|ds| - 1]);
      assert ds[..|ds| - 1][1..] == ds[1..][..|ds| - 2];
    } else {
      assert ds[..0] == [] && ds[1..] == [];
    }
  }

  lemma {:induction false} SumOverPlaced(f: nat -> real, x: nat, t: seq<nat>)
    ensures SumOver(f, Placed(x, t)) == SumOver(f, t) + f(x)
  {
    if t == [] || x <= t[0] {
      SumOverFirst(f, [x] + t);
      assert ([x] + t)[1..] == t;
    } else {
      SumOverPlaced(f, x, t[1..]);
      SumOverFirst(f, t);
      SumOverFirst(f, [t[0]] + Placed(x, t[1..]));
      assert ([t[0]] + Placed(x, t[1..]))[1..] == Placed(x, t[1..]);
    }
  }

  lemma {:induction false} SumOverSorted(f: nat -> real, ds: seq<nat>)
    ensures SumOver(f, Sorted(ds)) == SumOver(f, ds)
  {
    if ds != [] {
      SumOverSorted(f, ds[..|ds| - 1]);
      SumOverPlaced(f, Last(ds), Sorted(ds[..|ds| - 1]));
    }
  }

  /** What a distance counts for in the divisor. */
  function CountsFor(s: Strategy, t: seq<nat>): nat -> real {
    (d: nat) => if d in t then Running(s, t, FirstAt(t, d)) else 0.0
  }

  lemma {:induction false} TotalIsSum(s: Strategy, t: seq<nat>, n: nat)
    requires Ordered(t) && n <= |t|
    ensures Total(s, t, n) == SumOver(CountsFor(s, t), t[..n])
  {
    if n > 0 {
      TotalIsSum(s, t, n - 1);
      assert t[..n][..n - 1] == t[..n - 1];
      var f := FirstAt(t, t[n - 1]);
      FirstPlace(t, t[n - 1]);
      if n - 1 < f {
        OrderedBetween(t, n - 1, f - 1);
      }
      SameClean(s, t, f, n - 1);
    }
  }

  /** Beyond the farthest distance that is reached, the running value stays. */
  lemma {:induction false} RunningStays(s: Strategy, t: seq<nat>, l: nat, i: nat)
    requires Ordered(t) && l <= i < |t| && forall j :: l < j <= i ==> t[j] == t[l] || !Clean(s, t, j)
    ensures Running(s, t, i) == Running(s, t, l)
    decreases i
  {
    if l < i {
      RunningStays(s, t, l, i - 1);
      if t[i] == t[l] {
        SameClean(s, t, l, i);
      } else {
        CutStays(s, t, i);
      }
    }
  }

  /** Cell `last` is among the farthest of the cells that are reached. */
  ghost predicate IsFarthest(s: Strategy, ds: seq<nat>, last: nat) {
    && last < |ds| && Reached(s, ds, ds[last])
    && forall x :: x in ds && Reached(s, ds, x) ==> x <= ds[last]
  }

  /** The scales, with the scale of cell `last` in place of those of the cells that are cut off. */
  function FilledUp(s: Strategy, ds: seq<nat>, scale: seq<real>, last: nat): (r: seq<real>)
    requires last < |ds| == |scale|
    ensures |r| == |ds|
  {
    seq(|ds|, k requires 0 <= k < |ds| => if Reached(s, ds, ds[k]) then scale[k] else scale[last])
  }

  lemma {:induction false} CountsAs(s: Strategy, ds: seq<nat>, last: nat, k: nat)
    requires s.Valid() && IsFarthest(s, ds, last) && k < |ds|
    ensures Total(s, Sorted(ds), |ds|) >= 1.0
    ensures FilledUp(s, ds, Scaled(s, ds), last)[k]
      == CountsFor(s, Sorted(ds))(ds[k]) / Total(s, Sorted(ds), |ds|)
  {
    hide Total, Sorted, Level, Smaller, Nearer, Running, Weight, Clean, Reached;
    var t := Sorted(ds);
    ScaleOfCell(s, ds, k);
    ScaleOfCell(s, ds, last);
    var f, l := FirstAt(t, ds[k]), FirstAt(t, ds[last]);
    RunningIs(s, t, f);
    RunningIs(s, t, l);
    if !Reached(s, ds, ds[k]) {
      CutAbove(s, ds, t, last, k, l, f);
      RunningStays(s, t, l, f);
    }
  }

  /** From the farthest distance reached up to one that is cut off, nothing new is read clean. */
  lemma {:induction false} CutAbove(s: Strategy, ds: seq<nat>, t: seq<nat>, last: nat, k: nat, l: nat, f: nat)
    requires t == Sorted(ds) && Ordered(t) && IsFarthest(s, ds, last) && k < |ds| && !Reached(s, ds, ds[k])
    requires l < |t| && f < |t| && t[l] == ds[last] && t[f] == ds[k]
    requires (l > 0 ==> t[l - 1] < t[l]) && (f > 0 ==> t[f - 1] < t[f])
    ensures l <= f && forall j :: l < j <= f ==> t[j] == t[l] || !Clean(s, t, j)
  {
    hide Sorted, Level, Smaller, Nearer, Running, Weight, Clean, Reached;
    SortedIs(ds);
    ReachedSorted(s, ds, ds[last]);
    ReachedSorted(s, ds, ds[k]);
    CleanIsReached(s, t, f, f);
    CleanIsReached(s, t, l, l);
    if f < l {
      OrderedBetween(t, f, l);
      ReachedBelow(s, t, f, l);
    }
    forall j | l < j <= f
      ensures t[j] == t[l] || !Clean(s, t, j)
    {
      OrderedBetween(t, l, j);
      assert t[j] in multiset(t);
      assert t[j] in ds;
      ReachedSorted(s, ds, t[j]);
      FirstPlace(t, t[j]);
      var g := FirstAt(t, t[j]);
      if j < g {
        OrderedBetween(t, j, g - 1);
      }
      CleanIsReached(s, t, g, j);
    }
  }

  /** What is read clean has everything before it read clean. */
  lemma {:induction false} ReachedBelow(s: Strategy, t: seq<nat>, i: nat, j: nat)
    requires i <= j < |t| && Clean(s, t, j)
    ensures Clean(s, t, i)
    decreases j
  {
    if i < j {
      ReachedBelow(s, t, i, j - 1);
    }
  }

  lemma {:induction false} SumOfFilled(ds: seq<nat>, f: nat -> real, total: real, xs: seq<real>)
    requires total != 0.0 && |xs| == |ds| && forall k :: 0 <= k < |ds| ==> xs[k] == f(ds[k]) / total
    ensures RealSum(xs) == SumOver(f, ds) / total
  {
    if ds != [] {
      var n := |ds| - 1;
      SumOfFilled(ds[..n], f, total, xs[..n]);
      QuotientsAdd(SumOver(f, ds[..n]), f(ds[n]), total);
    }
  }

  lemma QuotientsAdd(a: real, b: real, total: real)
    requires total != 0.0
    ensures a / total + b / total == (a + b) / total
  {
  }

  /** The divisor counts a cell that is cut off as if it had the scale of the farthest cell that is not: with these,
      the scales sum to 1. */
  lemma {:induction false} ScalesFillUp(s: Strategy, ds: seq<nat>, last: nat)
    requires s.Valid() && IsFarthest(s, ds, last)
    ensures Total(s, Sorted(ds), |ds|) != 0.0
    ensures RealSum(FilledUp(s, ds, Scaled(s, ds), last)) == 1.0
  {
    hide Total, Sorted, Reached, Scaled, FilledUp, CountsFor, RealSum, SumOver;
    var t, total := Sorted(ds), Total(s, Sorted(ds), |ds|);
    SortedIs(ds);
    TotalPositive(s, ds);
    var xs := FilledUp(s, ds, Scaled(s, ds), last);
    forall k | 0 <= k < |ds|
      ensures xs[k] == CountsFor(s, t)(ds[k]) / total
    {
      CountsAs(s, ds, last, k);
    }
    SumOfFilled(ds, CountsFor(s, t), total, xs);
    SumOverSorted(CountsFor(s, t), ds);
    TotalIsSum(s, t, |t|);
    assert t[..|t|] == t;
  }

  // ---------------------------------------------------------------- the scales of a bucket are these and no others

  /** Equally distant cells have one scale; from each distance to the next the scale shrinks by the ratio until the
      distances are cut off, and is then 0; filled up, the scales sum to 1. */
  ghost predicate AreScales(s: Strategy, ds: seq<nat>, scale: seq<real>) {
    && |scale| == |ds|
    && (forall a, b :: 0 <= a < |ds| && 0 <= b < |ds| ==> ScalesMatch(s, ds, scale, a, b))
    && (forall last: nat :: IsFarthest(s, ds, last) ==> RealSum(FilledUp(s, ds, scale, last)) == 1.0)
  }

  ghost predicate ScalesMatch(s: Strategy, ds: seq<nat>, scale: seq<real>, a: nat, b: nat)
    requires a < |ds| == |scale| && b < |ds|
  {
    && (ds[a] == ds[b] ==> scale[a] == scale[b])
    && (NextFarther(ds, a, b) ==> scale[b] == if Reached(s, ds, ds[b]) then s.ratio * scale[a] else 0.0)
  }

  lemma {:induction false} ScaledAreScales(s: Strategy, ds: seq<nat>)
    requires s.Valid() && ds != []
    ensures Total(s, Sorted(ds), |ds|) != 0.0 && AreScales(s, ds, Scaled(s, ds))
  {
    hide Total, Sorted, Reached, Scaled, FilledUp, RealSum;
    ScalesShrinkOrSame(s, ds);
    var scale := Scaled(s, ds);
    forall last: nat | IsFarthest(s, ds, last)
      ensures RealSum(FilledUp(s, ds, scale, last)) == 1.0
    {
      ScalesFillUp(s, ds, last);
    }
  }

  lemma {:induction false} ScalesShrinkOrSame(s: Strategy, ds: seq<nat>)
    requires s.Valid() && ds != []
    ensures Total(s, Sorted(ds), |ds|) != 0.0
    ensures forall a, b :: 0 <= a < |ds| && 0 <= b < |ds| ==> ScalesMatch(s, ds, Scaled(s, ds), a, b)
  {
    hide Total, Sorted, Reached, Scaled;
    ScaledSum(s, ds);
    forall a, b | 0 <= a < |ds| && 0 <= b < |ds|
      ensures ScalesMatch(s, ds, Scaled(s, ds), a, b)
    {
      if ds[a] == ds[b] {
        ScaledFalls(s, ds, a, b);
      }
      if NextFarther(ds, a, b) {
        ScalesShrink(s, ds, a, b);
      }
    }
  }

  /** The least distance, or the greatest one below another, has a cell. */
  lemma {:induction false} CellBelow(ds: seq<nat>, d: nat) returns (none: bool, a: nat)
    ensures none ==> forall x :: x in ds ==> x >= d
    ensures !none ==> a < |ds| && ds[a] < d && forall x :: x in ds ==> x <= ds[a] || x >= d
  {
    none, a := true, 0;
    if ds != [] {
      var front := ds[..|ds| - 1];
      none, a := CellBelow(front, d);
      if Last(ds) < d && (none || front[a] < Last(ds)) {
        none, a := false, |ds| - 1;
      }
      assert forall x :: x in ds ==> x in front || x == Last(ds);
    }
  }

  /** Of two such lists of scales, each is in proportion to the other. */
  lemma {:induction false} InProportion(s: Strategy, ds: seq<nat>, v: seq<real>, w: seq<real>, m: nat, k: nat)
    requires AreScales(s, ds, v) && AreScales(s, ds, w) && m < |ds| && k < |ds|
    requires forall x :: x in ds ==> x >= ds[m]
    ensures v[k] * w[m] == w[k] * v[m]
    decreases ds[k]
  {
    hide Reached, RealSum, FilledUp;
    var none, a := CellBelow(ds, ds[k]);
    assert ScalesMatch(s, ds, v, m, k) && ScalesMatch(s, ds, w, m, k);
    if none {
      assert ds[m] in ds && ds[k] in ds;
      assert ds[m] == ds[k];
    } else {
      assert NextFarther(ds, a, k);
      assert ScalesMatch(s, ds, v, a, k) && ScalesMatch(s, ds, w, a, k);
      InProportion(s, ds, v, w, m, a);
      if Reached(s, ds, ds[k]) {
        Proportion(s.ratio, v[a], w[m], w[a], v[m]);
      }
    }
  }

  lemma Proportion(r: real, a: real, b: real, c: real, d: real)
    requires a * b == c * d
    ensures r * a * b == r * c * d
  {
    assert r * (a * b) == r * (c * d);
  }

  lemma {:induction false} SumInProportion(xs: seq<real>, ys: seq<real>, p: real, q: real)
    requires |xs| == |ys| && forall k :: 0 <= k < |xs| ==> xs[k] * p == ys[k] * q
    ensures RealSum(xs) * p == RealSum(ys) * q
  {
    if xs != [] {
      var n := |xs| - 1;
      SumInProportion(xs[..n], ys[..n], p, q);
      assert (RealSum(xs[..n]) + xs[n]) * p == RealSum(xs[..n]) * p + xs[n] * p;
      assert (RealSum(ys[..n]) + ys[n]) * q == RealSum(ys[..n]) * q + ys[n] * q;
    }
  }

  /** A cell that is not cut off has a farthest one like it. */
  lemma {:induction false} FarthestReached(s: Strategy, ds: seq<nat>, m: nat) returns (last: nat)
    requires m < |ds| && Reached(s, ds, ds[m])
    ensures IsFarthest(s, ds, last)
  {
    hide Reached;
    last := m;
    for k := 0 to |ds|
      invariant last < |ds| && Reached(s, ds, ds[last])
      invariant forall j :: 0 <= j < k && Reached(s, ds, ds[j]) ==> ds[j] <= ds[last]
    {
      if Reached(s, ds, ds[k]) && ds[last] < ds[k] {
        last := k;
      }
    }
  }

  lemma {:induction false} SameProportion(s: Strategy, ds: seq<nat>, v: seq<real>, w: seq<real>, m: nat)
    requires AreScales(s, ds, v) && AreScales(s, ds, w) && m < |ds| && forall x :: x in ds ==> x >= ds[m]
    ensures |v| == |w| == |ds| && v[m] == w[m]
  {
    hide *;
    NothingNearer(s, ds, m);
    var last := FarthestReached(s, ds, m);
    FilledToOne(s, ds, v, last);
    FilledToOne(s, ds, w, last);
    var vs, ws := FilledUp(s, ds, v, last), FilledUp(s, ds, w, last);
    forall k | 0 <= k < |ds|
      ensures vs[k] * w[m] == ws[k] * v[m]
    {
      FilledInProportion(s, ds, v, w, m, last, k);
    }
    SumInProportion(vs, ws, w[m], v[m]);
    OneTimes(RealSum(vs), w[m], RealSum(ws), v[m]);
  }

  lemma OneTimes(a: real, x: real, b: real, y: real)
    requires a == 1.0 && b == 1.0 && a * x == b * y
    ensures x == y
  {
  }

  lemma NothingNearer(s: Strategy, ds: seq<nat>, m: nat)
    requires m < |ds| && forall x :: x in ds ==> x >= ds[m]
    ensures Reached(s, ds, ds[m])
  {
    assert Smaller(ds, ds[m]) == {};
  }

  lemma FilledToOne(s: Strategy, ds: seq<nat>, scale: seq<real>, last: nat)
    requires AreScales(s, ds, scale) && IsFarthest(s, ds, last)
    ensures last < |ds| == |scale| && RealSum(FilledUp(s, ds, scale, last)) == 1.0
  {
  }

  lemma {:induction false} FilledInProportion(s: Strategy, ds: seq<nat>, v: seq<real>, w: seq<real>, m: nat, last: nat,
                                              k: nat)
    requires AreScales(s, ds, v) && AreScales(s, ds, w) && m < |ds| && last < |ds| && k < |ds|
    requires forall x :: x in ds ==> x >= ds[m]
    ensures |v| == |w| == |ds| && FilledUp(s, ds, v, last)[k] * w[m] == FilledUp(s, ds, w, last)[k] * v[m]
  {
    hide Reached, RealSum, ScalesMatch;
    InProportion(s, ds, v, w, m, if Reached(s, ds, ds[k]) then k else last);
  }

  /** A bucket's scales are the only such list. */
  lemma {:induction false} ScalesExactly(s: Strategy, ds: seq<nat>, scale: seq<real>)
    requires s.Valid() && ds != []
    ensures Total(s, Sorted(ds), |ds|) != 0.0
    ensures scale == Scaled(s, ds) <==> AreScales(s, ds, scale)
  {
    hide Total, Sorted, Reached, Scaled, FilledUp, RealSum, AreScales;
    ScaledAreScales(s, ds);
    var own := Scaled(s, ds);
    if AreScales(s, ds, scale) {
      var m := LeastCell(ds);
      SameProportion(s, ds, own, scale, m);
      LeastScale(s, ds, m);
      SameSize(s, ds, scale);
      forall k | 0 <= k < |ds|
        ensures own[k] == scale[k]
      {
        InProportion(s, ds, own, scale, m, k);
        Cancel(own[k], scale[k], own[m]);
      }
    }
  }

  lemma SameSize(s: Strategy, ds: seq<nat>, scale: seq<real>)
    requires AreScales(s, ds, scale)
    ensures |scale| == |ds|
  {
  }

  lemma Cancel(a: real, b: real, c: real)
    requires a * c == b * c && c > 0.0
    ensures a == b
  {
  }

  lemma LeastCell(ds: seq<nat>) returns (m: nat)
    requires ds != []
    ensures m < |ds| && forall x :: x in ds ==> x >= ds[m]
  {
    m := 0;
    for k := 0 to |ds|
      invariant m < |ds| && forall j :: 0 <= j < k ==> ds[j] >= ds[m]
    {
      if ds[k] < ds[m] {
        m := k;
      }
    }
  }

  /** The nearest cells have a scale greater than 0. */
  lemma {:induction false} LeastScale(s: Strategy, ds: seq<nat>, m: nat)
    requires s.Valid() && m < |ds| && forall x :: x in ds ==> x >= ds[m]
    ensures Total(s, Sorted(ds), |ds|) != 0.0 && Scaled(s, ds)[m] > 0.0
  {
    var t := Sorted(ds);
    ScaleOfCell(s, ds, m);
    SortedIs(ds);
    assert t[0] in multiset(t);
    assert t[0] in ds;
    OrderedBetween(t, 0, FirstAt(t, ds[m]));
    SameClean(s, t, 0, FirstAt(t, ds[m]));
    FirstWeight(s, t);
    OverTotal(Total(s, t, |t|));
  }

  lemma OverTotal(total: real)
    requires total >= 1.0
    ensures 1.0 / total > 0.0
  {
  }
}
