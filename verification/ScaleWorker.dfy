/** Computing the scales, with scratch memory that is kept from axis to axis (matrix/distance.go). */
module ScaleWorkers {
  import opened Keys
  import opened Partition
  import opened Embeddings
  import opened Distances
  import opened Weights
  import opened Scales
  import opened ScaleLaws
  import opened Splitters

  /** The scales of bucket `b`, whose cells are from `at[b]` to `at[b + 1]`, given the cells' distances. */
  ghost predicate BucketScaled(s: Strategy, ds: seq<nat>, at: seq<nat>, scale: seq<real>, b: nat)
    requires b + 1 < |at|
  {
    && at[b] < at[b + 1] <= |ds| == |scale|
    && Total(s, Sorted(ds[at[b]..at[b + 1]]), at[b + 1] - at[b]) != 0.0
    && scale[at[b]..at[b + 1]] == Scaled(s, ds[at[b]..at[b + 1]])
  }

  /** Every bucket of the axis has its scales, and cells outside the axis have none. */
  ghost predicate IsScale(s: Strategy, ds: seq<nat>, at: seq<nat>, scale: seq<real>) {
    && |scale| == |ds|
    && (forall b :: 0 <= b < |at| - 1 ==> BucketScaled(s, ds, at, scale, b))
    && (forall k :: 0 <= k < |scale| && !Inside(at, k) ==> scale[k] == 0.0)
  }

  /** A bucket is scaled exactly if its cells' scales are equal for equal distances, shrink by the ratio from each
      distance to the next until distances are cut off, and fill up to 1. */
  lemma {:induction false} BucketScaledExactly(s: Strategy, ds: seq<nat>, at: seq<nat>, scale: seq<real>, b: nat)
    requires s.Valid() && b + 1 < |at| && at[b] < at[b + 1] <= |ds| == |scale|
    ensures BucketScaled(s, ds, at, scale, b)
      <==> AreScales(s, ds[at[b]..at[b + 1]], scale[at[b]..at[b + 1]])
  {
    hide AreScales, Scaled, Total, Sorted;
    ScalesExactly(s, ds[at[b]..at[b + 1]], scale[at[b]..at[b + 1]]);
  }

  /** The distances leave no choice of the scales. */
  lemma ScaleIsUnique(s: Strategy, ds: seq<nat>, at: seq<nat>, a: seq<real>, b: seq<real>)
    requires IsScale(s, ds, at, a) && IsScale(s, ds, at, b)
    ensures a == b
  {
    forall k | 0 <= k < |ds|
      ensures a[k] == b[k]
    {
      if Inside(at, k) {
        var bucket := BucketOf(at, k);
        assert BucketScaled(s, ds, at, a, bucket) && BucketScaled(s, ds, at, b, bucket);
        var m := k - at[bucket];
        assert a[k] == a[at[bucket]..at[bucket + 1]][m] && b[k] == b[at[bucket]..at[bucket + 1]][m];
      }
    }
  }

  /** Scaled buckets can be split. */
  lemma ScaledCanSplit(s: Strategy, ds: seq<nat>, at: seq<nat>, scale: seq<real>, b: nat)
    requires s.Valid() && b + 1 < |at| && BucketScaled(s, ds, at, scale, b)
    ensures ScalesAt(scale, at, b)
  {
    var from, to := at[b], at[b + 1];
    var cells, column := ds[from..to], scale[from..to];
    ScaledSum(s, cells);
    forall k | from <= k < to
      ensures scale[k] >= 0.0
    {
      ScaledFalls(s, cells, k - from, k - from);
      assert scale[k] == column[k - from];
    }
    if to == from + 1 {
      ScaledSingle(s, cells[0]);
      assert cells == [cells[0]];
      assert column[0] == 1.0;
    }
  }

  class ScaleWorker {
    const strategy: Strategy
    /** The powers of the ratio, one for each level. */
    const pows: seq<real>
    /** From distance to scale; what earlier axes left in it does not matter. */
    var tempMap: array<real>

    ghost predicate Valid()
      reads this
    {
      && strategy.Valid() && tempMap.Length > 0
      && |pows| == strategy.level && forall i :: 0 <= i < |pows| ==> pows[i] == Pow(strategy.ratio, i)
    }

    constructor (strategy: Strategy)
      requires strategy.Valid()
      ensures Valid() && fresh(tempMap) && this.strategy == strategy
    {
      this.strategy := strategy;
      pows := seq(strategy.level, i requires 0 <= i < strategy.level => Pow(strategy.ratio, i));
      tempMap := new real[256](_ => 0.0);
    }

    /** Doubles the scratch map until it can hold the distance. */
    method MakeRoom(maxDis: nat)
      requires Valid()
      modifies this`tempMap
      ensures Valid() && tempMap.Length > maxDis && (tempMap == old(tempMap) || fresh(tempMap))
    {
      while tempMap.Length <= maxDis
        invariant Valid() && (tempMap == old(tempMap) || fresh(tempMap))
        decreases maxDis - tempMap.Length
      {
        tempMap := new real[tempMap.Length * 2](_ => 0.0);
      }
    }

    /** Reads the distances of a bucket's cells in order, mapping each to its weight. */
    method Weigh(ds: seq<nat>) returns (tempSum: real)
      requires Valid() && ds != [] && forall k :: 0 <= k < |ds| ==> ds[k] < tempMap.Length
      modifies tempMap
      ensures tempSum == Total(strategy, Sorted(ds), |ds|)
      ensures forall k :: 0 <= k < |ds| ==> tempMap[ds[k]] == WeightOf(strategy, Sorted(ds), ds[k])
    {
      hide Level, Running, Total, Weight, Clean, Ordered, Sorted;
      var tempDis := Sorted(ds);
      var level := 0;
      SortedIs(ds);
      SortedBounded(ds, tempDis, tempMap.Length);
      WeightBegins(strategy, tempDis);
      tempMap[tempDis[0]] := 1.0;
      var tempValue := 1.0;
      tempSum := 1.0;
      for i := 1 to |tempDis|
        invariant level == Level(tempDis, i - 1) && tempValue == Running(strategy, tempDis, i - 1)
        invariant tempSum == Total(strategy, tempDis, i)
        invariant forall j :: 0 <= j < i ==> tempMap[tempDis[j]] == Weight(strategy, tempDis, j)
      {
        var d := tempDis[i];
        WeightRead(strategy, tempDis, i);
        if d != tempDis[i - 1] {
          level := level + 1;
          if level >= strategy.level || i >= strategy.count {
            tempMap[d] := 0.0;
          } else {
            tempValue := pows[level];
            tempMap[d] := tempValue;
          }
        }
        tempSum := tempSum + tempValue;
      }
      forall k | 0 <= k < |ds|
        ensures tempMap[ds[k]] == WeightOf(strategy, tempDis, ds[k])
      {
        assert ds[k] in multiset(ds);
        var j := FirstAt(tempDis, ds[k]);
      }
    }

    /** Reads the scales of some cells off the scratch map. */
    method ReadScales(dis: seq<nat>, scale: array<real>, from: nat, to: nat, tempSum: real)
      requires Valid() && from < to <= |dis| == scale.Length && scale != tempMap && tempSum != 0.0
      requires forall k :: from <= k < to ==> dis[k] < tempMap.Length
      modifies scale
      ensures forall k :: 0 <= k < scale.Length && !(from <= k < to) ==> scale[k] == old(scale[k])
      ensures forall k :: from <= k < to ==> scale[k] == old(tempMap[dis[k]]) / tempSum
    {
      for start := from to to
        invariant forall k :: 0 <= k < scale.Length && !(from <= k < start) ==> scale[k] == old(scale[k])
        invariant forall k :: from <= k < start ==> scale[k] == old(tempMap[dis[k]]) / tempSum
      {
        scale[start] := tempMap[dis[start]] / tempSum;
      }
    }

    /** Scales the cells of one bucket. */
    method ScaleBucket(dis: seq<nat>, scale: array<real>, from: nat, to: nat)
      requires Valid() && from < to <= |dis| == scale.Length && scale != tempMap
      requires forall k :: 0 <= k < |dis| ==> dis[k] < tempMap.Length
      modifies tempMap, scale
      ensures Total(strategy, Sorted(dis[from..to]), to - from) != 0.0
      ensures scale[..] == old(scale[..from]) + Scaled(strategy, dis[from..to]) + old(scale[to..])
    {
      ghost var before := scale[..];
      var ds := dis[from..to];
      TotalPositive(strategy, ds);
      if from + 1 == to {
        scale[from] := 1.0;
        ScaledSingle(strategy, dis[from]);
        assert ds == [dis[from]];
      } else {
        hide *;
        var tempSum := Weigh(ds);
        forall k | from <= k < to
          ensures tempMap[dis[k]] == WeightOf(strategy, Sorted(ds), dis[k])
        {
          assert ds[k - from] == dis[k];
        }
        ReadScales(dis, scale, from, to, tempSum);
        ScaledIs(strategy, dis, from, to, before, scale[..]);
      }
    }

    /** One column: the scales of an axis's cells, from the distances of the keys around them. */
    method Work(dis: array<nat>, keys: seq<Key>, compactKeys: seq<Key>, ghost at: seq<nat>) returns (scale: seq<real>)
      requires Valid() && dis.Length == |compactKeys| && Embeds(compactKeys, keys, at)
      modifies this`tempMap, tempMap, dis
      ensures Valid() && (tempMap == old(tempMap) || fresh(tempMap))
      ensures IsScale(strategy, BucketDis(old(dis[..])), at, scale)
    {
      var maxDis := ToBucketDis(dis);
      var bucketDis := dis[..][1..];
      MakeRoom(maxDis);
      var column := new real[|bucketDis|](_ => 0.0);
      forall k | 0 <= k < |bucketDis|
        ensures bucketDis[k] < tempMap.Length
      {
        assert bucketDis[k] == dis[k + 1];
      }
      ScaleAll(bucketDis, column, keys, compactKeys, at);
      scale := column[..];
    }

    /** Walks the buckets of the axis, scaling the cells of each. */
    method ScaleAll(bucketDis: seq<nat>, column: array<real>, keys: seq<Key>, compactKeys: seq<Key>, ghost at: seq<nat>)
      requires Valid() && column.Length == |bucketDis| == |compactKeys| - 1 && column != tempMap
        && Embeds(compactKeys, keys, at)
      requires forall k :: 0 <= k < |bucketDis| ==> bucketDis[k] < tempMap.Length
      requires forall k :: 0 <= k < column.Length ==> column[k] == 0.0
      modifies tempMap, column
      ensures IsScale(strategy, bucketDis, at, column[..])
    {
      var start := FindKey(compactKeys, keys, 0, 0, at);
      var end := start + 1;
      for i := 1 to |keys|
        invariant start == at[i - 1] && end == start + 1
        invariant forall b :: 0 <= b < i - 1 ==> BucketScaled(strategy, bucketDis, at, column[..], b)
        invariant forall k :: 0 <= k < column.Length && !(at[0] <= k < start) ==> column[k] == 0.0
      {
        assert StepsUp(at, i - 1);
        end := FindKey(compactKeys, keys, i, end, at);
        ghost var before := column[..];
        ScaleBucket(bucketDis, column, start, end);
        ScaledOneMore(strategy, bucketDis, at, before, column[..], i - 1);
        OthersKept(before, Scaled(strategy, bucketDis[start..end]), column[..], start, end);
        InOrder(at, 0, i - 1);
        start := end;
        end := end + 1;
      }
    }
  }

  lemma OthersKept(before: seq<real>, part: seq<real>, after: seq<real>, from: nat, to: nat)
    requires from <= to <= |before| && |part| == to - from && after == before[..from] + part + before[to..]
    ensures forall k :: 0 <= k < |after| && !(from <= k < to) ==> after[k] == before[k]
  {
  }

  lemma ScaledIs(s: Strategy, dis: seq<nat>, from: nat, to: nat, before: seq<real>, after: seq<real>)
    requires from < to <= |dis| == |before| == |after| && Total(s, Sorted(dis[from..to]), to - from) != 0.0
    requires forall k :: 0 <= k < |after| && !(from <= k < to) ==> after[k] == before[k]
    requires forall k :: from <= k < to ==>
      after[k] == WeightOf(s, Sorted(dis[from..to]), dis[k]) / Total(s, Sorted(dis[from..to]), to - from)
    ensures after == before[..from] + Scaled(s, dis[from..to]) + before[to..]
  {
    hide Sorted, Total, WeightOf;
    var ds := dis[from..to];
    forall m | 0 <= m < to - from
      ensures after[from + m] == Scaled(s, ds)[m]
    {
      assert ds[m] == dis[from + m];
    }
  }

  lemma SortedBounded(ds: seq<nat>, t: seq<nat>, bound: nat)
    requires multiset(ds) == multiset(t) && forall k :: 0 <= k < |ds| ==> ds[k] < bound
    ensures forall k :: 0 <= k < |t| ==> t[k] < bound
  {
    forall k | 0 <= k < |t|
      ensures t[k] < bound
    {
      assert t[k] in multiset(t);
      assert t[k] in ds;
    }
  }

  lemma WeightBegins(s: Strategy, t: seq<nat>)
    requires t != []
    ensures Level(t, 0) == 0 && Running(s, t, 0) == Weight(s, t, 0) == Total(s, t, 1) == 1.0
  {
  }

  /** What reading the next distance of the sorted ones amounts to. */
  lemma WeightRead(s: Strategy, t: seq<nat>, i: nat)
    requires s.Valid() && Ordered(t) && 0 < i < |t|
    ensures Level(t, i) == Level(t, i - 1) + if t[i] != t[i - 1] then 1 else 0
    ensures t[i] == t[i - 1] ==> Weight(s, t, i) == Weight(s, t, i - 1) && Running(s, t, i) == Running(s, t, i - 1)
    ensures t[i] != t[i - 1] && Beyond(s, t, i) ==> Weight(s, t, i) == 0.0 && Running(s, t, i) == Running(s, t, i - 1)
    ensures t[i] != t[i - 1] && !Beyond(s, t, i)
        ==> Weight(s, t, i) == Running(s, t, i) == Pow(s.ratio, Level(t, i)) && Level(t, i) < s.level
    ensures t[i] != t[i - 1] ==> forall j :: 0 <= j < i ==> t[j] < t[i]
    ensures Total(s, t, i + 1) == Total(s, t, i) + Running(s, t, i)
  {
    if !Clean(s, t, i - 1) {
      CutStays(s, t, i - 1);
    }
    forall j | 0 <= j < i && t[i] != t[i - 1]
      ensures t[j] < t[i]
    {
      OrderedBetween(t, j, i - 1);
      OrderedBetween(t, i - 1, i);
    }
  }

  lemma ScaledOneMore(s: Strategy, ds: seq<nat>, at: seq<nat>, before: seq<real>, after: seq<real>, b: nat)
    requires Increasing(at) && b + 1 < |at| && at[b] < at[b + 1] <= |ds| == |before| == |after|
    requires forall c :: 0 <= c < b ==> BucketScaled(s, ds, at, before, c)
    requires Total(s, Sorted(ds[at[b]..at[b + 1]]), at[b + 1] - at[b]) != 0.0
    requires after == before[..at[b]] + Scaled(s, ds[at[b]..at[b + 1]]) + before[at[b + 1]..]
    ensures forall c :: 0 <= c <= b ==> BucketScaled(s, ds, at, after, c)
  {
    hide Scaled, Total, Sorted;
    forall c | 0 <= c <= b
      ensures BucketScaled(s, ds, at, after, c)
    {
      if c < b {
        assert BucketScaled(s, ds, at, before, c);
        InOrder(at, c + 1, b);
        assert after[at[c]..at[c + 1]] == before[at[c]..at[c + 1]];
      } else {
        assert after[at[b]..at[b + 1]] == Scaled(s, ds[at[b]..at[b + 1]]);
      }
    }
  }
}
