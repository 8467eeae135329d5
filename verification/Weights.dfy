/** How a bucket's value is shared among its cells by their distance (matrix/distance.go). */
module Weights {
  import opened Seqs

  /** The share of a level is the ratio to its power; distances beyond the given number of levels, or of
      cells, get nothing. */
  datatype Strategy = Strategy(ratio: real, level: nat, count: nat) {
    ghost predicate Valid() {
      0.0 <= ratio <= 1.0
    }
  }

  function Pow(r: real, n: nat): real {
    if n == 0 then 1.0 else r * Pow(r, n - 1)
  }

  lemma {:induction false} PowFalls(r: real, n: nat)
    requires 0.0 <= r <= 1.0
    ensures 0.0 <= Pow(r, n + 1) <= Pow(r, n) <= 1.0
    ensures r > 0.0 ==> Pow(r, n) > 0.0
  {
    if n > 0 {
      PowFalls(r, n - 1);
      Shrink(r, Pow(r, n - 1));
    }
    Shrink(r, Pow(r, n));
  }

  lemma Shrink(r: real, x: real)
    requires 0.0 <= r <= 1.0 && x >= 0.0
    ensures 0.0 <= r * x <= x && (r > 0.0 && x > 0.0 ==> r * x > 0.0)
  {
  }

  // ---------------------------------------------------------------- sorting distances

  ghost predicate OrderedAt(t: seq<nat>, i: nat)
    requires 0 < i < |t|
  {
    t[i - 1] <= t[i]
  }

  ghost predicate Ordered(t: seq<nat>) {
    forall i :: 0 < i < |t| ==> OrderedAt(t, i)
  }

  lemma {:induction false} OrderedBetween(t: seq<nat>, i: nat, j: nat)
    requires Ordered(t) && i <= j < |t|
    ensures t[i] <= t[j]
    decreases j
  {
    if i < j {
      assert OrderedAt(t, j);
      OrderedBetween(t, i, j - 1);
    }
  }

  /** `x` put in its place. */
  function Placed(x: nat, t: seq<nat>): (r: seq<nat>)
    ensures |r| == |t| + 1
  {
    if t == [] || x <= t[0] then [x] + t else [t[0]] + Placed(x, t[1..])
  }

  lemma {:induction false} PlacedIs(x: nat, t: seq<nat>)
    ensures multiset(Placed(x, t)) == multiset(t) + multiset{x}
    ensures Ordered(t) ==> Ordered(Placed(x, t))
    ensures Placed(x, t)[0] == x || (t != [] && Placed(x, t)[0] == t[0])
  {
    if t == [] || x <= t[0] {
      PlacedFirst(x, t);
    } else {
      assert t == [t[0]] + t[1..];
      TailOrdered(t);
      PlacedIs(x, t[1..]);
      PlacedLater(x, t, Placed(x, t[1..]));
    }
  }

  lemma PlacedFirst(x: nat, t: seq<nat>)
    requires t == [] || x <= t[0]
    ensures Ordered(t) ==> Ordered([x] + t)
  {
    if Ordered(t) {
      var r := [x] + t;
      forall i | 0 < i < |r|
        ensures OrderedAt(r, i)
      {
        assert i > 1 ==> OrderedAt(t, i - 1);
      }
    }
  }

  lemma TailOrdered(t: seq<nat>)
    requires t != []
    ensures Ordered(t) ==> Ordered(t[1..])
  {
    if Ordered(t) {
      forall i | 0 < i < |t| - 1
        ensures OrderedAt(t[1..], i)
      {
        assert OrderedAt(t, i + 1);
      }
    }
  }

  lemma PlacedLater(x: nat, t: seq<nat>, r: seq<nat>)
    requires t != [] && t[0] < x && r != [] && (r[0] == x || (|t| > 1 && r[0] == t[1]))
    ensures Ordered(t) && Ordered(r) ==> Ordered([t[0]] + r)
  {
    if Ordered(t) && Ordered(r) {
      assert |t| > 1 ==> OrderedAt(t, 1);
      PlacedFirst(t[0], r);
    }
  }

  /** The distances in ascending order. */
  function Sorted(ds: seq<nat>): (t: seq<nat>)
    ensures |t| == |ds|
  {
    if ds == [] then [] else Placed(Last(ds), Sorted(ds[..|ds| - 1]))
  }

  lemma {:induction false} SortedIs(ds: seq<nat>)
    ensures Ordered(Sorted(ds)) && multiset(Sorted(ds)) == multiset(ds)
  {
    if ds != [] {
      SortedIs(ds[..|ds| - 1]);
      PlacedIs(Last(ds), Sorted(ds[..|ds| - 1]));
      assert ds == ds[..|ds| - 1] + [Last(ds)];
    }
  }

  // ---------------------------------------------------------------- weights along the sorted distances

  /** The `i`-th distance is greater than the one before it. */
  predicate Rises(t: seq<nat>, i: nat)
    requires i < |t|
  {
    i > 0 && t[i] != t[i - 1]
  }

  /** How many smaller distances there are. */
  function Level(t: seq<nat>, i: nat): nat
    requires i < |t|
  {
    if i == 0 then 0 else Level(t, i - 1) + if Rises(t, i) then 1 else 0
  }

  predicate Beyond(s: Strategy, t: seq<nat>, i: nat)
    requires i < |t|
  {
    Level(t, i) >= s.level || i >= s.count
  }

  /** No new distance up to the `i`-th has been cut off. */
  predicate Clean(s: Strategy, t: seq<nat>, i: nat)
    requires i < |t|
  {
    if i == 0 then true else Clean(s, t, i - 1) && !(Rises(t, i) && Beyond(s, t, i))
  }

  /** The running value when the `i`-th distance has been read: a distance that is cut off leaves it as it
      was. */
  function Running(s: Strategy, t: seq<nat>, i: nat): real
    requires i < |t|
  {
    if i == 0 then 1.0
    else if Rises(t, i) && !Beyond(s, t, i) then Pow(s.ratio, Level(t, i))
    else Running(s, t, i - 1)
  }

  /** The sum that weights are divided by. */
  function Total(s: Strategy, t: seq<nat>, n: nat): real
    requires n <= |t|
  {
    if n == 0 then 0.0 else Total(s, t, n - 1) + Running(s, t, n - 1)
  }

  /** The weight of the `i`-th distance. */
  function Weight(s: Strategy, t: seq<nat>, i: nat): real
    requires i < |t|
  {
    if Clean(s, t, i) then Pow(s.ratio, Level(t, i)) else 0.0
  }

  function WeightSum(s: Strategy, t: seq<nat>, n: nat): real
    requires n <= |t|
  {
    if n == 0 then 0.0 else WeightSum(s, t, n - 1) + Weight(s, t, n - 1)
  }

  /** Once a distance has been cut off, all greater ones are. */
  lemma {:induction false} CutStays(s: Strategy, t: seq<nat>, i: nat)
    requires i < |t| && !Clean(s, t, i)
    ensures Beyond(s, t, i)
  {
    if Clean(s, t, i - 1) {
    } else {
      CutStays(s, t, i - 1);
    }
  }

  lemma {:induction false} RunningIs(s: Strategy, t: seq<nat>, i: nat)
    requires s.Valid() && i < |t|
    ensures Weight(s, t, i) <= Running(s, t, i) && 0.0 <= Running(s, t, i) && 0.0 <= Weight(s, t, i) <= 1.0
    ensures Clean(s, t, i) ==> Weight(s, t, i) == Running(s, t, i)
    ensures s.ratio > 0.0 ==> Running(s, t, i) > 0.0
  {
    PowFalls(s.ratio, Level(t, i));
    if i > 0 {
      RunningIs(s, t, i - 1);
    }
  }

  /** Greater distances weigh no more. */
  lemma {:induction false} WeightFalls(s: Strategy, t: seq<nat>, i: nat, j: nat)
    requires s.Valid() && i <= j < |t|
    ensures Weight(s, t, j) <= Weight(s, t, i)
    ensures t[i] == t[j] && Ordered(t) ==> Weight(s, t, j) == Weight(s, t, i)
    decreases j
  {
    if i < j {
      WeightFalls(s, t, i, j - 1);
      WeightStep(s, t, j);
      if Ordered(t) {
        OrderedBetween(t, i, j - 1);
        OrderedBetween(t, j - 1, j);
      }
    }
  }

  lemma WeightStep(s: Strategy, t: seq<nat>, j: nat)
    requires s.Valid() && 0 < j < |t|
    ensures Weight(s, t, j) <= Weight(s, t, j - 1)
    ensures t[j] == t[j - 1] ==> Weight(s, t, j) == Weight(s, t, j - 1)
  {
    PowFalls(s.ratio, Level(t, j - 1));
    RunningIs(s, t, j - 1);
  }

  /** The weights sum to no more than what they are divided by, and to less as soon as something is cut off. */
  lemma {:induction false} WeightsWithinTotal(s: Strategy, t: seq<nat>, n: nat)
    requires s.Valid() && n <= |t|
    ensures 0.0 <= WeightSum(s, t, n) <= Total(s, t, n)
    ensures n > 0 ==> Total(s, t, n) >= 1.0
    ensures n > 0 && Clean(s, t, n - 1) ==> WeightSum(s, t, n) == Total(s, t, n)
    ensures n > 0 && !Clean(s, t, n - 1) && s.ratio > 0.0 ==> WeightSum(s, t, n) < Total(s, t, n)
  {
    if n > 0 {
      RunningIs(s, t, n - 1);
      WeightsWithinTotal(s, t, n - 1);
    }
  }

  /** Nothing is cut off just when no new distance is beyond the number of levels or of cells. */
  lemma {:induction false} CleanExactly(s: Strategy, t: seq<nat>, n: nat)
    requires n < |t|
    ensures Clean(s, t, n) <==> forall i :: 0 <= i <= n && Rises(t, i) ==> !Beyond(s, t, i)
  {
    if n > 0 {
      CleanExactly(s, t, n - 1);
    }
  }
}
