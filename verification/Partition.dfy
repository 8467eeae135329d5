/** Merging consecutive rows: the cuts that say where, and the sums that result. */
module Partition {

  function Sum(s: seq<nat>): nat {
    if s == [] then 0 else s[0] + Sum(s[1..])
  }

  lemma {:induction false} SumConcat(a: seq<nat>, b: seq<nat>)
    ensures Sum(a + b) == Sum(a) + Sum(b)
  {
    if a == [] {
      assert a + b == b;
    } else {
      assert (a + b)[1..] == a[1..] + b;
      SumConcat(a[1..], b);
    }
  }

  lemma SumSplit(s: seq<nat>, i: nat, j: nat, k: nat)
    requires i <= j <= k <= |s|
    ensures Sum(s[i..k]) == Sum(s[i..j]) + Sum(s[j..k])
  {
    SumConcat(s[i..j], s[j..k]);
    assert s[i..k] == s[i..j] + s[j..k];
  }

  /** The sum of a run extended by one row. */
  lemma SumExtend(s: seq<nat>, i: nat, j: nat)
    requires i <= j < |s|
    ensures Sum(s[i..j + 1]) == Sum(s[i..j]) + s[j]
  {
    SumSplit(s, i, j, j + 1);
    assert s[j..j + 1] == [s[j]];
  }

  lemma SumWithin(s: seq<nat>, i: nat, j: nat)
    requires i <= j <= |s|
    ensures Sum(s[i..j]) <= Sum(s)
  {
    SumSplit(s, 0, i, |s|);
    SumSplit(s, i, j, |s|);
    assert s[0..|s|] == s;
  }

  lemma ElementWithin(s: seq<nat>, i: nat)
    requires i < |s|
    ensures s[i] <= Sum(s)
  {
    SumExtend(s, i, i);
    SumWithin(s, i, i + 1);
  }

  // ---------------------------------------------------------------- cuts

  ghost predicate Increasing(cuts: seq<nat>) {
    forall i :: 0 <= i < |cuts| - 1 ==> StepsUp(cuts, i)
  }

  ghost predicate StepsUp(cuts: seq<nat>, i: nat)
    requires i < |cuts| - 1
  {
    cuts[i] < cuts[i + 1]
  }

  lemma {:induction false} InOrder(cuts: seq<nat>, i: nat, j: nat)
    requires Increasing(cuts) && i <= j < |cuts|
    ensures cuts[i] + (j - i) <= cuts[j]
    decreases j
  {
    if i < j {
      assert StepsUp(cuts, j - 1);
      InOrder(cuts, i, j - 1);
    }
  }

  lemma ExtendIncreasing(cuts: seq<nat>, x: nat)
    requires cuts != [] && Increasing(cuts) && cuts[|cuts| - 1] < x
    ensures Increasing(cuts + [x])
  {
    var longer := cuts + [x];
    forall i | 0 <= i < |longer| - 1
      ensures StepsUp(longer, i)
    {
      assert i < |cuts| - 1 ==> StepsUp(cuts, i);
    }
  }

  /** `cuts` splits `n` rows into consecutive non-empty buckets. */
  ghost predicate IsPartition(cuts: seq<nat>, n: nat) {
    |cuts| >= 2 && cuts[0] == 0 && cuts[|cuts| - 1] == n && Increasing(cuts)
  }

  lemma CutsBounded(cuts: seq<nat>, n: nat)
    requires IsPartition(cuts, n)
    ensures forall i :: 0 <= i < |cuts| ==> cuts[i] <= n && (i < |cuts| - 1 ==> cuts[i] < n)
    ensures |cuts| <= n + 1
  {
    InOrder(cuts, 0, |cuts| - 1);
    forall i | 0 <= i < |cuts|
      ensures cuts[i] <= n && (i < |cuts| - 1 ==> cuts[i] < n)
    {
      InOrder(cuts, i, |cuts| - 1);
    }
  }

  function EveryRow(n: nat): (cuts: seq<nat>)
    requires n >= 1
    ensures IsPartition(cuts, n) && |cuts| == n + 1 && forall i :: 0 <= i <= n ==> cuts[i] == i
  {
    var cuts := seq(n + 1, i => i);
    assert forall i :: 0 <= i < |cuts| - 1 ==> StepsUp(cuts, i);
    cuts
  }

  /** The chosen elements of `s`. */
  function Pick<T>(s: seq<T>, at: seq<nat>): seq<T>
    requires forall i :: 0 <= i < |at| ==> at[i] < |s|
  {
    seq(|at|, i requires 0 <= i < |at| => s[at[i]])
  }

  /** The sum of rows `i..j`, and 0 where there are no such rows. */
  function SumRange(values: seq<nat>, i: nat, j: nat): nat {
    if i <= j <= |values| then Sum(values[i..j]) else 0
  }

  lemma RangeWithin(values: seq<nat>, i: nat, j: nat)
    ensures SumRange(values, i, j) <= Sum(values)
  {
    if i <= j <= |values| {
      SumWithin(values, i, j);
    }
  }

  /** Growing a run by one row. */
  lemma RunStep(values: seq<nat>, start: nat, i: nat)
    requires start <= i < |values|
    ensures SumRange(values, i, i) == 0
    ensures SumRange(values, start, i + 1) == SumRange(values, start, i) + values[i] <= Sum(values)
  {
    SumExtend(values, start, i);
    SumWithin(values, start, i + 1);
  }

  /** One sum for each bucket. */
  function Merged(values: seq<nat>, cuts: seq<nat>): (r: seq<nat>)
    requires cuts != []
    ensures |r| == |cuts| - 1
  {
    seq(|cuts| - 1, i requires 0 <= i < |cuts| - 1 => SumRange(values, cuts[i], cuts[i + 1]))
  }

  lemma {:induction false} MergedRun(values: seq<nat>, cuts: seq<nat>, i: nat, j: nat)
    requires cuts != [] && Increasing(cuts) && cuts[|cuts| - 1] <= |values|
    requires i <= j < |cuts|
    ensures SumRange(Merged(values, cuts), i, j) == SumRange(values, cuts[i], cuts[j])
    decreases j
  {
    EmptyRange(Merged(values, cuts), i);
    EmptyRange(values, cuts[i]);
    if i < j {
      MergedRun(values, cuts, i, j - 1);
      hide SumRange;
      RunStep(Merged(values, cuts), i, j - 1);
      InOrder(cuts, i, j - 1);
      InOrder(cuts, j - 1, j);
      InOrder(cuts, j, |cuts| - 1);
      SumRangeSplit(values, cuts[i], cuts[j - 1], cuts[j]);
    }
  }

  lemma EmptyRange(values: seq<nat>, i: nat)
    ensures SumRange(values, i, i) == 0
  {
  }

  lemma SumRangeSplit(values: seq<nat>, i: nat, j: nat, k: nat)
    requires i <= j <= k <= |values|
    ensures SumRange(values, i, k) == SumRange(values, i, j) + SumRange(values, j, k)
  {
    SumSplit(values, i, j, k);
  }

  /** Merging rows keeps the total. */
  ghost predicate SumAt(values: seq<nat>, cuts: seq<nat>, r: seq<nat>, i: nat)
    requires i < |r| && i < |cuts| - 1
  {
    cuts[i] <= cuts[i + 1] <= |values| && r[i] == Sum(values[cuts[i]..cuts[i + 1]])
  }

  /** One sum for each bucket, in order. */
  lemma MergedExactly(values: seq<nat>, cuts: seq<nat>, r: seq<nat>)
    requires IsPartition(cuts, |values|)
    ensures r == Merged(values, cuts)
      <==> |r| == |cuts| - 1 && forall i :: 0 <= i < |r| ==> SumAt(values, cuts, r, i)
  {
    hide Sum;
    CutsBounded(cuts, |values|);
    forall i | 0 <= i < |r| && i < |cuts| - 1
      ensures SumAt(values, cuts, r, i) <==> r[i] == Merged(values, cuts)[i]
    {
      assert StepsUp(cuts, i);
    }
  }

  lemma MergedKeepsTotal(values: seq<nat>, cuts: seq<nat>)
    requires IsPartition(cuts, |values|)
    ensures Sum(Merged(values, cuts)) == Sum(values)
  {
    MergedRun(values, cuts, 0, |cuts| - 1);
    assert Merged(values, cuts)[0..|cuts| - 1] == Merged(values, cuts);
    assert values[0..|values|] == values;
  }

  /** Cutting the buckets of a partition again gives a partition. */
  lemma PickIsPartition(n: nat, outer: seq<nat>, inner: seq<nat>)
    requires IsPartition(inner, n) && IsPartition(outer, |inner| - 1)
    ensures forall i :: 0 <= i < |outer| ==> outer[i] < |inner|
    ensures IsPartition(Pick(inner, outer), n)
  {
    CutsBounded(outer, |inner| - 1);
    var cuts := Pick(inner, outer);
    forall i | 0 <= i < |cuts| - 1
      ensures StepsUp(cuts, i)
    {
      assert StepsUp(outer, i);
      InOrder(inner, outer[i], outer[i + 1]);
    }
  }

  /** Merging twice is merging once at the cuts that survive both. */
  lemma MergedComposes(values: seq<nat>, outer: seq<nat>, inner: seq<nat>, cuts: seq<nat>)
    requires IsPartition(inner, |values|) && IsPartition(outer, |inner| - 1) && IsPartition(cuts, |values|)
    requires |cuts| == |outer| && forall i :: 0 <= i < |outer| ==> outer[i] < |inner| && cuts[i] == inner[outer[i]]
    ensures Merged(Merged(values, inner), outer) == Merged(values, cuts)
  {
    hide SumRange;
    forall i | 0 <= i < |cuts| - 1
      ensures Merged(Merged(values, inner), outer)[i] == Merged(values, cuts)[i]
    {
      assert StepsUp(outer, i);
      MergedRun(values, inner, outer[i], outer[i + 1]);
    }
  }
}
