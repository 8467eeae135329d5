/** Several columns over the same keys (matrix/axis.go), and their storage forms (storage/region.go). */
module Axes {
  import opened Wrappers
  import Bytes
  import opened Ints
  import opened Keys
  import opened Partition
  import opened Greedy
  import opened FocusPlan
  import opened Chunks

  datatype Axis = Axis(keys: seq<Key>, valuesList: seq<array<nat>>) {

    /** What `CreateAxis` checks. */
    ghost predicate Valid() {
      |keys| >= 2 && |valuesList| > 0 && forall i :: 0 <= i < |valuesList| ==> valuesList[i].Length + 1 == |keys|
    }

    ghost function Column(i: nat): (column: seq<nat>)
      requires i < |valuesList|
      reads valuesList
    {
      valuesList[i][..]
    }

    ghost predicate Bounded(bound: nat)
      reads valuesList
    {
      forall i :: 0 <= i < |valuesList| ==> Sum(Column(i)) < bound
    }

    /** `r` has this axis's columns, every one of them merged at the same cuts. */
    ghost predicate MergedInto(r: Axis, cuts: seq<nat>)
      reads valuesList, r.valuesList
      requires Valid() && IsPartition(cuts, |keys| - 1)
    {
      && r.Valid() && r.keys == PickKeys(keys, cuts) && |r.valuesList| == |valuesList|
      && forall i :: 0 <= i < |valuesList| ==> r.Column(i) == Merged(Column(i), cuts)
    }
  }

  /** No two columns from the `n`-th on share memory. */
  ghost predicate DistinctFrom(valuesList: seq<array<nat>>, n: nat) {
    forall i, j :: n <= i < j < |valuesList| ==> valuesList[i] != valuesList[j]
  }

  /** Reduces every column but the first, which the new chunk already holds, to the new chunk's keys. */
  method ReduceColumns(axis: Axis, newChunk: Chunk, ghost cuts: seq<nat>) returns (r: Axis)
    requires axis.Valid() && IsAxis(axis.keys) && axis.Bounded(TWO_TO_THE_64)
    requires IsPartition(cuts, |axis.keys| - 1)
    requires newChunk.Valid() && newChunk.keys == PickKeys(axis.keys, cuts)
      && newChunk.values[..] == Merged(axis.Column(0), cuts)
    ensures axis.MergedInto(r, cuts)
    ensures forall i :: 0 < i < |r.valuesList| ==> fresh(r.valuesList[i])
    ensures DistinctFrom(r.valuesList, 1)
    ensures r.valuesList[0] == newChunk.values
  {
    var baseChunk := new Chunk(axis.keys, axis.valuesList[0]);
    var newValuesList := [newChunk.values];
    for i := 1 to |axis.valuesList|
      invariant fresh(baseChunk) && baseChunk.Valid() && baseChunk.keys == axis.keys
      invariant |newValuesList| == i && newValuesList[0] == newChunk.values
      invariant forall k :: 0 < k < i ==> fresh(newValuesList[k])
      invariant DistinctFrom(newValuesList, 1)
      invariant forall k :: 0 <= k < i ==>
        newValuesList[k].Length + 1 == |newChunk.keys| && newValuesList[k][..] == Merged(axis.Column(k), cuts)
    {
      assert Sum(axis.Column(i)) < TWO_TO_THE_64;
      baseChunk.SetValues(axis.valuesList[i]);
      var reduced := baseChunk.Reduce(newChunk.keys, cuts);
      newValuesList := newValuesList + [reduced.values];
    }
    r := Axis(newChunk.keys, newValuesList);
  }

  /** Focuses the first column and applies its cuts to all columns. */
  method Focus(axis: Axis, cross: Crossing, threshold: uint64, ratio: int, target: int)
    returns (r: Result<Axis, Panic>)
    requires axis.Valid() && IsAxis(axis.keys) && axis.Bounded(TWO_TO_THE_64)
    ensures target >= |axis.keys| - 1 ==> r == Ok(axis)
    ensures target < 0 ==> r == Err(NegativeCapacity)
    ensures 0 <= target < |axis.keys| - 1 ==>
      (var rule := Rule(threshold, ratio, cross);
       r.Ok? && axis.MergedInto(r.value, FocusCuts(axis.keys, axis.Column(0), rule, target, MergeColdLogicalRange)))
  {
    if target >= |axis.keys| - 1 {
      return Ok(axis);
    }
    var baseChunk := new Chunk(axis.keys, axis.valuesList[0]);
    assert Sum(axis.Column(0)) < TWO_TO_THE_64;
    var newChunk := baseChunk.Focus(cross, threshold, ratio, target, MergeColdLogicalRange);
    if newChunk.Err? {
      return Err(newChunk.error);
    }
    ghost var rule := Rule(threshold, ratio, cross);
    ghost var cuts := FocusCuts(axis.keys, axis.Column(0), rule, target, MergeColdLogicalRange);
    var focused := ReduceColumns(axis, newChunk.value, cuts);
    r := Ok(focused);
  }

  /** Divides the first column and applies its cuts to all columns. */
  method Divide(axis: Axis, cross: Crossing, target: int) returns (r: Result<Axis, Panic>)
    requires axis.Valid() && IsAxis(axis.keys) && axis.Bounded(TWO_TO_THE_63)
    ensures target >= |axis.keys| - 1 ==> r == Ok(axis)
    ensures target < |axis.keys| - 1 ==>
      match DivideRule(axis.keys, axis.Column(0), cross, target)
      case Err(e) => r == Err(e)
      case Ok(rule) =>
        (var cuts := FocusCuts(axis.keys, axis.Column(0), rule, target, MergeColdLogicalRange);
         r.Ok? && axis.MergedInto(r.value, cuts))
    ensures target < |axis.keys| - 1 && r.Ok? ==> forall i :: 0 <= i < |r.value.valuesList| ==>
      fresh(r.value.valuesList[i])
    ensures target < |axis.keys| - 1 && r.Ok? ==> DistinctFrom(r.value.valuesList, 1)
  {
    if target >= |axis.keys| - 1 {
      return Ok(axis);
    }
    var baseChunk := new Chunk(axis.keys, axis.valuesList[0]);
    assert Sum(axis.Column(0)) < TWO_TO_THE_63;
    var newChunk := baseChunk.Divide(cross, target, MergeColdLogicalRange);
    if newChunk.Err? {
      return Err(newChunk.error);
    }
    ghost var rule := DivideRule(axis.keys, axis.Column(0), cross, target).value;
    ghost var cuts := FocusCuts(axis.keys, axis.Column(0), rule, target, MergeColdLogicalRange);
    var divided := ReduceColumns(axis, newChunk.value, cuts);
    r := Ok(divided);
  }

  /** One bucket from `startKey` to `endKey`, in which nothing happened. */
  method CreateEmptyAxis(startKey: Key, endKey: Key, valuesListLen: nat) returns (r: Axis)
    requires valuesListLen > 0
    ensures r.Valid() && r.keys == [startKey, endKey] && |r.valuesList| == valuesListLen
    ensures forall i :: 0 <= i < valuesListLen ==> fresh(r.valuesList[i]) && r.valuesList[i][..] == [0]
  {
    var values := new nat[1](_ => 0);
    r := Axis([startKey, endKey], seq(valuesListLen, i => values));
  }

  /** `r` is the buckets of the axis from `start` to the one before key `end - 1`. */
  ghost predicate IsPartOf(r: Axis, axis: Axis, start: nat, end: nat)
    reads r.valuesList, axis.valuesList
  {
    && axis.Valid() && r.Valid() && start + 2 <= end <= |axis.keys| && r.keys == axis.keys[start..end]
    && |r.valuesList| == |axis.valuesList|
    && forall i :: 0 <= i < |axis.valuesList| ==> r.Column(i) == axis.Column(i)[start..end - 1]
  }

  /** Every bucket shares a key with the window. */
  ghost predicate AllMeet(keys: seq<Key>, startKey: Key, endKey: Key) {
    forall i :: 0 <= i < |keys| - 1 ==> Meets(keys, i, startKey, endKey)
  }

  /** The window itself is an axis, and meets itself. */
  lemma WindowMeets(startKey: Key, endKey: Key)
    requires BoundLess(Fin(startKey), EndBound(endKey))
    ensures IsAxis([startKey, endKey]) && AllMeet([startKey, endKey], startKey, endKey)
  {
    BoundOrder(Fin(startKey), EndBound(endKey), Infinity);
    assert Between(startKey, Fin(startKey), EndBound(endKey));
  }

  lemma PartMeets(keys: seq<Key>, start: nat, end: nat, startKey: Key, endKey: Key)
    requires IsAxis(keys) && start + 2 <= end <= |keys|
    requires forall i :: start <= i < end - 1 ==> Meets(keys, i, startKey, endKey)
    ensures IsAxis(keys[start..end]) && AllMeet(keys[start..end], startKey, endKey)
  {
    PartIsAxis(keys, start, end);
    var part := keys[start..end];
    forall i | 0 <= i < |part| - 1
      ensures Meets(part, i, startKey, endKey)
    {
      assert Meets(keys, start + i, startKey, endKey);
      var k: Key :| Between(k, BoundAt(keys, start + i), BoundAt(keys, start + i + 1))
        && Between(k, Fin(startKey), EndBound(endKey));
      assert Between(k, BoundAt(part, i), BoundAt(part, i + 1));
    }
  }

  /** The part of the axis that meets a window: exactly the buckets that share a key with it. */
  method Range(axis: Axis, startKey: Key, endKey: Key) returns (r: Option<Axis>)
    requires axis.Valid() && IsAxis(axis.keys)
    ensures r == None <==> endKey != [] && !Bytes.Less(startKey, endKey)
    ensures r.Some? ==> IsAxis(r.value.keys) && AllMeet(r.value.keys, startKey, endKey)
    ensures r.Some? && (forall i :: 0 <= i < |axis.keys| - 1 ==> !Meets(axis.keys, i, startKey, endKey))
        ==> r.value.Valid() && r.value.keys == [startKey, endKey] && |r.value.valuesList| == |axis.valuesList|
            && forall i :: 0 <= i < |r.value.valuesList| ==> r.value.Column(i) == [0]
    ensures r.Some? && (exists i :: 0 <= i < |axis.keys| - 1 && Meets(axis.keys, i, startKey, endKey))
        ==> exists start: nat, end: nat :: IsPartOf(r.value, axis, start, end) && IsAxis(r.value.keys)
                              && forall i :: 0 <= i < |axis.keys| - 1 ==>
                                (Meets(axis.keys, i, startKey, endKey) <==> start <= i < end - 1)
  {
    hide Meets, AllMeet;
    var range := KeysRange(axis.keys, startKey, endKey);
    if range == KeyRange.Panic {
      return None;
    }
    if range == Disjoint {
      WindowMeets(startKey, endKey);
      var empty := CreateEmptyAxis(startKey, endKey, |axis.valuesList|);
      return Some(empty);
    }
    var start, end := range.start, range.end;
    var valuesList: seq<array<nat>> := [];
    for i := 0 to |axis.valuesList|
      invariant |valuesList| == i && forall k :: 0 <= k < i ==> valuesList[k].Length == end - 1 - start
      invariant forall k :: 0 <= k < i ==> fresh(valuesList[k]) && valuesList[k][..] == axis.Column(k)[start..end - 1]
    {
      var part := axis.valuesList[i][start..end - 1];
      var values := new nat[|part|](k requires 0 <= k < |part| => part[k]);
      valuesList := valuesList + [values];
    }
    var some := Axis(axis.keys[start..end], valuesList);
    assert Meets(axis.keys, start, startKey, endKey);
    assert IsPartOf(some, axis, start, end);
    PartMeets(axis.keys, start, end, startKey, endKey);
    r := Some(some);
  }

  lemma PartIsAxis(keys: seq<Key>, start: nat, end: nat)
    requires IsAxis(keys) && start + 2 <= end <= |keys|
    ensures IsAxis(keys[start..end])
    ensures forall i :: 0 <= i < end - start ==> BoundAt(keys[start..end], i) == BoundAt(keys, start + i)
  {
    var part := keys[start..end];
    forall i | 0 <= i < |part|
      ensures BoundAt(part, i) == BoundAt(keys, start + i)
    {
      if 0 < start + i < |keys| - 1 {
        assert BoundLess(BoundAt(keys, 0), BoundAt(keys, start + i));
      }
    }
    forall i, j | 0 <= i < j < |part|
      ensures BoundLess(BoundAt(part, i), BoundAt(part, j))
    {
      assert BoundLess(BoundAt(keys, start + i), BoundAt(keys, start + j));
    }
  }
}
