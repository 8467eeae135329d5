/** Converting axes between what is stored and what is shown (storage/region.go). */
module Region {
  import opened Ints
  import opened Keys
  import opened Partition
  import opened Greedy
  import opened FocusPlan
  import opened Axes

  datatype StatTag = Integration | WrittenBytes | ReadBytes | WrittenKeys | ReadKeys

  /** The position of a tag among the response columns. */
  function TagIndex(tag: StatTag): (i: nat)
    ensures i < 5 && [Integration, WrittenBytes, ReadBytes, WrittenKeys, ReadKeys][i] == tag
  {
    match tag
    case Integration => 0
    case WrittenBytes => 1
    case ReadBytes => 2
    case WrittenKeys => 3
    case ReadKeys => 4
  }

  const PRE_TARGET := 3072
  const DIRTY_WRITTEN_BYTES := 0x1_0000_0000

  /** Adds the integration column, then swaps the base tag's column to the front. */
  method IntoResponseAxis(storageAxis: Axis, baseTag: StatTag) returns (r: Axis)
    requires storageAxis.Valid() && |storageAxis.valuesList| == 4
    requires Sum(storageAxis.Column(0)) + Sum(storageAxis.Column(1)) < TWO_TO_THE_64
    ensures r.Valid() && r.keys == storageAxis.keys && |r.valuesList| == 5
    ensures var t := TagIndex(baseTag);
      && fresh(r.valuesList[t])
      && (forall i :: 0 <= i < r.valuesList[t].Length ==>
            r.valuesList[t][i] == storageAxis.valuesList[0][i] + storageAxis.valuesList[1][i])
      && (t > 0 ==> r.valuesList[0] == storageAxis.valuesList[t - 1])
      && (forall k :: 1 <= k < 5 && k != t ==> r.valuesList[k] == storageAxis.valuesList[k - 1])
  {
    var writtenBytes, readBytes := storageAxis.valuesList[0], storageAxis.valuesList[1];
    var integration := new nat[writtenBytes.Length];
    for i := 0 to integration.Length
      invariant forall k :: 0 <= k < i ==> integration[k] == writtenBytes[k] + readBytes[k]
    {
      ElementWithin(storageAxis.Column(0), i);
      ElementWithin(storageAxis.Column(1), i);
      var total: uint64 := writtenBytes[i] + readBytes[i];
      integration[i] := total;
    }
    var valuesList := [integration] + storageAxis.valuesList;
    var t := TagIndex(baseTag);
    valuesList := valuesList[0 := valuesList[t]][t := valuesList[0]];
    r := Axis(storageAxis.keys, valuesList);
  }

  /** Where storing cuts the rows: everywhere, if they are few, else as a division to the storage target does. */
  function StorageCuts(keys: seq<Key>, base: seq<nat>, cross: Crossing): (cuts: seq<nat>)
    requires 1 <= |base| == |keys| - 1
    ensures IsPartition(cuts, |base|)
  {
    DividePanicsExactly(keys, base, cross, PRE_TARGET);
    if PRE_TARGET >= |base| then EveryRow(|base|)
    else FocusCuts(keys, base, DivideRule(keys, base, cross, PRE_TARGET).value, PRE_TARGET, MergeColdLogicalRange)
  }

  /** Storing divides to 3072 rows and merges cold ranges. */
  lemma {:induction false} StorageExactly(keys: seq<Key>, base: seq<nat>, cross: Crossing, cuts: seq<nat>)
    requires 1 <= |base| == |keys| - 1
    ensures cuts == StorageCuts(keys, base, cross)
      <==> IsDivided(keys, base, cross, 3072, MergeColdLogicalRange, cuts)
  {
    hide FocusCuts, DivideRule, IsFocus, IsDivision;
    if PRE_TARGET < |base| {
      DividedExactly(keys, base, cross, PRE_TARGET, MergeColdLogicalRange, cuts);
    }
  }

  /** A stored axis has at most the target's rows, or fewer plus one for each change of class. */
  lemma {:induction false} StorageRowsBounded(keys: seq<Key>, base: seq<nat>, cross: Crossing)
    requires 1 <= |base| == |keys| - 1 && Classifies(cross)
    ensures |StorageCuts(keys, base, cross)| - 1 <= PRE_TARGET + Changes(keys, cross, |base|)
  {
    hide FocusCuts, DivideRule, Changes;
    if PRE_TARGET < |base| {
      DivideMeetsTarget(keys, base, cross, PRE_TARGET, MergeColdLogicalRange);
    }
  }

  /** Keys and columns of `r` are those of `from`, less its first column, merged at `cuts`. */
  ghost predicate Coarsened(from: Axis, r: Axis, cuts: seq<nat>)
    requires from.Valid() && IsPartition(cuts, |from.keys| - 1)
    reads from.valuesList, r.valuesList
  {
    && r.Valid() && r.keys == PickKeys(from.keys, cuts) && |r.valuesList| == |from.valuesList| - 1
    && forall i :: 0 <= i < |r.valuesList| ==> r.Column(i) == Merged(from.Column(i + 1), cuts)
  }

  lemma StoringNeverPanics(keys: seq<Key>, base: seq<nat>, cross: Crossing)
    requires 1 <= |base| < |keys|
    ensures DivideRule(keys, base, cross, PRE_TARGET).Ok?
  {
    DividePanicsExactly(keys, base, cross, PRE_TARGET);
  }

  lemma KeysAtEveryRow(keys: seq<Key>)
    requires |keys| >= 2
    ensures PickKeys(keys, EveryRow(|keys| - 1)) == keys
  {
  }

  /** Divides by the first column and drops it. */
  method IntoStorageAxis(responseAxis: Axis, cross: Crossing) returns (r: Axis)
    requires responseAxis.Valid() && IsAxis(responseAxis.keys) && |responseAxis.valuesList| >= 2
      && responseAxis.Bounded(TWO_TO_THE_63)
    ensures r.Valid() && Coarsened(responseAxis, r, StorageCuts(responseAxis.keys, responseAxis.Column(0), cross))
    ensures r.valuesList == responseAxis.valuesList[1..]
      || (DistinctFrom(r.valuesList, 0) && forall i :: 0 <= i < |r.valuesList| ==> fresh(r.valuesList[i]))
  {
    hide FocusCuts, DivideRule, Sum, Merged, IsAxis, IsPartition, EveryRow, PickKeys;
    ghost var keys, base := responseAxis.keys, responseAxis.Column(0);
    StoringNeverPanics(keys, base, cross);
    var divided := Axes.Divide(responseAxis, cross, PRE_TARGET);
    var axis := divided.value;
    r := Axis(axis.keys, axis.valuesList[1..]);
    if PRE_TARGET >= |base| {
      KeysAtEveryRow(keys);
      forall i | 0 <= i < |r.valuesList|
        ensures r.Column(i) == Merged(responseAxis.Column(i + 1), EveryRow(|base|))
      {
        Chunks.MergedAtEveryRow(responseAxis.Column(i + 1), EveryRow(|base|));
      }
    }
  }

  // ---------------------------------------------------------------- shrinking

  function Shrunk(column: seq<nat>, ratio: nat): (r: seq<nat>)
    requires ratio > 0
    ensures |r| == |column|
  {
    seq(|column|, i requires 0 <= i < |column| => column[i] / ratio)
  }

  method ShrinkColumn(values: array<nat>, ratio: nat)
    requires ratio > 0
    modifies values
    ensures values[..] == Shrunk(old(values[..]), ratio)
  {
    for i := 0 to values.Length
      invariant forall k :: 0 <= k < i ==> values[k] == old(values[k]) / ratio
      invariant forall k :: i <= k < values.Length ==> values[k] == old(values[k])
    {
      values[i] := values[i] / ratio;
    }
  }

  /** Divides all values in place; the columns must not share memory. */
  method Shrink(axis: Axis, ratio: nat)
    requires ratio > 0 && DistinctFrom(axis.valuesList, 0)
    modifies axis.valuesList
    ensures forall i :: 0 <= i < |axis.valuesList| ==> axis.Column(i) == Shrunk(old(axis.Column(i)), ratio)
    ensures forall i, k :: 0 <= i < |axis.valuesList| && 0 <= k < axis.valuesList[i].Length ==>
      axis.valuesList[i][k] == old(axis.valuesList[i][k]) / ratio
  {
    for i := 0 to |axis.valuesList|
      invariant forall k :: 0 <= k < i ==> axis.Column(k) == Shrunk(old(axis.Column(k)), ratio)
      invariant forall k :: i <= k < |axis.valuesList| ==> axis.Column(k) == old(axis.Column(k))
    {
      ShrinkColumn(axis.valuesList[i], ratio);
    }
    forall i, k | 0 <= i < |axis.valuesList| && 0 <= k < axis.valuesList[i].Length
      ensures axis.valuesList[i][k] == old(axis.valuesList[i][k]) / ratio
    {
      assert axis.Column(i)[k] == Shrunk(old(axis.Column(i)), ratio)[k];
    }
  }

  /** Shrinking divides a total, losing less than the ratio for each row. */
  lemma {:induction false} ShrunkTotal(column: seq<nat>, ratio: nat)
    requires ratio > 0
    ensures var shrunk := Sum(Shrunk(column, ratio));
      shrunk * ratio <= Sum(column) <= shrunk * ratio + |column| * (ratio - 1)
  {
    if column != [] {
      ShrunkTotal(column[1..], ratio);
      assert Shrunk(column, ratio)[1..] == Shrunk(column[1..], ratio);
      AddRow(column[0], Sum(column[1..]), Sum(Shrunk(column[1..], ratio)), |column| - 1, ratio);
    }
  }

  lemma AddRow(value: nat, total: nat, shrunk: nat, rows: nat, ratio: nat)
    requires ratio > 0 && shrunk * ratio <= total <= shrunk * ratio + rows * (ratio - 1)
    ensures var more := value / ratio + shrunk;
      more * ratio <= value + total <= more * ratio + (rows + 1) * (ratio - 1)
  {
    var q := value / ratio;
    assert value == q * ratio + value % ratio;
    assert (q + shrunk) * ratio == q * ratio + shrunk * ratio;
    assert (rows + 1) * (ratio - 1) == rows * (ratio - 1) + (ratio - 1);
  }

  // ---------------------------------------------------------------- washing

  method ZeroRow(axis: Axis, i: nat)
    requires axis.Valid() && |axis.valuesList| == 5 && i < |axis.keys| - 1
    modifies axis.valuesList
    ensures forall j :: 0 <= j < 5 ==> axis.valuesList[j][i] == 0
    ensures forall j, k :: 0 <= j < 5 && 0 <= k < axis.valuesList[j].Length && k != i ==>
      axis.valuesList[j][k] == old(axis.valuesList[j][k])
  {
    for j := 0 to 5
      invariant forall m :: 0 <= m < j ==> axis.valuesList[m][i] == 0
      invariant forall m, k :: 0 <= m < 5 && 0 <= k < axis.valuesList[m].Length && k != i ==>
        axis.valuesList[m][k] == old(axis.valuesList[m][k])
    {
      axis.valuesList[j][i] := 0;
    }
  }

  /** Zeroes, in all response columns, the rows whose written bytes are too many to be true. */
  method Wash(axis: Axis)
    requires axis.Valid() && |axis.valuesList| == 5
    modifies axis.valuesList
    ensures forall j, i :: 0 <= j < 5 && 0 <= i < axis.valuesList[j].Length ==>
      axis.valuesList[j][i]
      == if old(axis.valuesList[1][i]) >= 0x1_0000_0000 then 0 else old(axis.valuesList[j][i])
  {
    for i := 0 to axis.valuesList[1].Length
      invariant forall j, k {:trigger axis.valuesList[j][k]} :: 0 <= j < 5 && 0 <= k < axis.valuesList[j].Length ==>
        axis.valuesList[j][k]
        == if k < i && old(axis.valuesList[1][k]) >= DIRTY_WRITTEN_BYTES then 0 else old(axis.valuesList[j][k])
    {
      label before:
      var value := axis.valuesList[1][i];
      if value >= DIRTY_WRITTEN_BYTES {
        ZeroRow(axis, i);
      }
      forall j, k | 0 <= j < 5 && 0 <= k < axis.valuesList[j].Length
        ensures axis.valuesList[j][k]
          == if k < i + 1 && old(axis.valuesList[1][k]) >= DIRTY_WRITTEN_BYTES then 0 else old(axis.valuesList[j][k])
      {
        assert old@before(axis.valuesList[j][k]) ==
          if k < i && old(axis.valuesList[1][k]) >= DIRTY_WRITTEN_BYTES then 0 else old(axis.valuesList[j][k]);
        assert value == old(axis.valuesList[1][i]);
        if k == i {
          assert value >= DIRTY_WRITTEN_BYTES ==> axis.valuesList[j][i] == 0;
        } else {
          assert axis.valuesList[j][k] == old@before(axis.valuesList[j][k]);
        }
      }
    }
  }

  // ---------------------------------------------------------------- feeding the next layer

  /** What a full layer does to a column of the compacted axis it passes on, merging and then shrinking
      it, divides the column's total by the ratio, up to less than one unit for each row. */
  lemma {:induction false} CoarsenAndShrinkTotal(column: seq<nat>, cuts: seq<nat>, ratio: nat)
    requires IsPartition(cuts, |column|) && ratio > 0
    ensures var passed := Shrunk(Merged(column, cuts), ratio);
      Sum(passed) * ratio <= Sum(column) <= Sum(passed) * ratio + (|cuts| - 1) * (ratio - 1)
  {
    MergedKeepsTotal(column, cuts);
    ShrunkTotal(Merged(column, cuts), ratio);
  }

  /** Storing what is shown keeps the total of every column. */
  lemma {:induction false} StorageKeepsTotals(from: Axis, r: Axis, cuts: seq<nat>, i: nat)
    requires from.Valid() && IsPartition(cuts, |from.keys| - 1) && Coarsened(from, r, cuts) && i < |r.valuesList|
    ensures Sum(r.Column(i)) == Sum(from.Column(i + 1))
  {
    MergedKeepsTotal(from.Column(i + 1), cuts);
  }
}
