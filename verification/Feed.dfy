/** What a full layer makes of its oldest axes and passes on (storage/stat.go). */
module Feeding {
  import opened Ints
  import opened Keys
  import opened Partition
  import opened Embeddings
  import opened Unions
  import opened Distances
  import opened Splitters
  import opened Greedy
  import opened FocusPlan
  import opened Axes
  import opened Region
  import opened Planes
  import opened Layers
  import opened Traffic

  /** A stored axis as a value. */
  datatype StoredAxis = StoredAxis(keys: seq<Key>, columns: seq<seq<nat>>)

  const STORED_COLUMNS := 4

  /** An axis as it is stored, no column of which adds up to more than `bound`. */
  ghost predicate IsStored(x: StoredAxis, bound: nat) {
    && IsAxis(x.keys) && |x.columns| == STORED_COLUMNS
    && forall j :: 0 <= j < STORED_COLUMNS ==> |x.columns[j]| == |x.keys| - 1 && Sum(x.columns[j]) <= bound
  }

  ghost predicate AllStored(xs: seq<StoredAxis>, bound: nat) {
    forall a :: 0 <= a < |xs| ==> IsStored(xs[a], bound)
  }

  function AllKeys(xs: seq<StoredAxis>): (keys: seq<seq<Key>>)
    ensures |keys| == |xs|
  {
    seq(|xs|, a requires 0 <= a < |xs| => xs[a].keys)
  }

  function ColumnsAt(xs: seq<StoredAxis>, j: nat): (columns: seq<seq<nat>>)
    ensures |columns| == |xs|
  {
    seq(|xs|, a requires 0 <= a < |xs| => if j < |xs[a].columns| then xs[a].columns[j] else [])
  }

  /** `keys` are the union of the axes' keys, which lie at `ats` among them, and `sp` is the strategy's splitter. */
  ghost predicate Fits(strategy: SplitStrategy, xs: seq<StoredAxis>, keys: seq<Key>, ats: seq<seq<nat>>, sp: Splitter) {
    && |keys| >= 2 && IsUnion(keys, AllKeys(xs)) && AllEmbed(AllKeys(xs), keys, ats)
    && SplitterFor(strategy, ats, |keys|, sp) && AllCanSplit(sp, ats)
    && forall j :: 0 <= j < STORED_COLUMNS ==> Shaped(ColumnsAt(xs, j), ats)
  }

  ghost function CompactColumn(xs: seq<StoredAxis>, j: nat, keys: seq<Key>, ats: seq<seq<nat>>,
                               sp: Splitter): (r: seq<nat>)
    requires keys != [] && AllCanSplit(sp, ats) && Shaped(ColumnsAt(xs, j), ats)
    ensures |r| == |keys| - 1
  {
    Compacted(sp, ColumnsAt(xs, j), ats, |keys| - 1, |ats|)
  }

  /** Where the compacted rows are merged: written and read bytes decide it together. */
  ghost function FoldCuts(strategy: SplitStrategy, cross: Crossing, xs: seq<StoredAxis>, keys: seq<Key>,
                          ats: seq<seq<nat>>, sp: Splitter): (cuts: seq<nat>)
    requires Fits(strategy, xs, keys, ats, sp)
    ensures IsPartition(cuts, |keys| - 1)
  {
    StorageCuts(keys, Plus(CompactColumn(xs, 0, keys, ats, sp), CompactColumn(xs, 1, keys, ats, sp)), cross)
  }

  /** Compacted, merged and divided by the number of axes. */
  ghost predicate FoldedBy(strategy: SplitStrategy, cross: Crossing, xs: seq<StoredAxis>, y: StoredAxis,
                           keys: seq<Key>, ats: seq<seq<nat>>, sp: Splitter)
    requires xs != [] && Fits(strategy, xs, keys, ats, sp)
  {
    var cuts := FoldCuts(strategy, cross, xs, keys, ats, sp);
    && y.keys == PickKeys(keys, cuts) && |y.columns| == STORED_COLUMNS
    && forall j :: 0 <= j < STORED_COLUMNS ==>
      y.columns[j] == Shrunk(Merged(CompactColumn(xs, j, keys, ats, sp), cuts), |xs|)
  }

  ghost predicate IsFolded(strategy: SplitStrategy, cross: Crossing, xs: seq<StoredAxis>, y: StoredAxis)
    requires xs != []
  {
    exists keys, ats, sp :: Fits(strategy, xs, keys, ats, sp) && FoldedBy(strategy, cross, xs, y, keys, ats, sp)
  }

  // ---------------------------------------------------------------- what becomes of the totals

  /** The total of a column passed on, times the number of axes it is made of, is never more than these held.
      Where the shares are whole, all that is missing is at most one for every cell beyond one of each bucket, and
      less than the number of axes for every row. */
  lemma {:induction false} FoldedTotal(strategy: SplitStrategy, cross: Crossing, xs: seq<StoredAxis>, y: StoredAxis,
                                       keys: seq<Key>, ats: seq<seq<nat>>, sp: Splitter, j: nat)
    requires xs != [] && Fits(strategy, xs, keys, ats, sp) && FoldedBy(strategy, cross, xs, y, keys, ats, sp)
    requires j < STORED_COLUMNS
    ensures forall b :: 0 <= b < |ats| ==> |ats[b]| >= 2
    ensures Sum(y.columns[j]) * |xs| <= TotalOf(ColumnsAt(xs, j), |xs|)
    ensures AllWhole(sp, ats) ==>
      TotalOf(ColumnsAt(xs, j), |xs|) <= Sum(y.columns[j]) * |xs| + SpareCells(ats, |ats|) + (|y.keys| - 1) * (|xs| - 1)
  {
    hide *;
    FitPlaces(strategy, xs, keys, ats, sp);
    FitParts(strategy, xs, keys, ats, sp, j);
    FoldedColumn(strategy, cross, xs, y, keys, ats, sp, j);
    ColumnTotal(ColumnsAt(xs, j), ats, sp, |keys| - 1, FoldCuts(strategy, cross, xs, keys, ats, sp), |xs|);
  }

  lemma FoldedColumn(strategy: SplitStrategy, cross: Crossing, xs: seq<StoredAxis>, y: StoredAxis, keys: seq<Key>,
                     ats: seq<seq<nat>>, sp: Splitter, j: nat)
    requires xs != [] && Fits(strategy, xs, keys, ats, sp) && FoldedBy(strategy, cross, xs, y, keys, ats, sp)
    requires j < STORED_COLUMNS
    ensures |y.columns| == STORED_COLUMNS && |ats| == |xs| && Shaped(ColumnsAt(xs, j), ats) && AllCanSplit(sp, ats)
    ensures |keys| >= 2 && IsPartition(FoldCuts(strategy, cross, xs, keys, ats, sp), |keys| - 1)
    ensures var cuts := FoldCuts(strategy, cross, xs, keys, ats, sp);
      && |y.keys| == |cuts| && cuts != []
      && y.columns[j] == Shrunk(Merged(Compacted(sp, ColumnsAt(xs, j), ats, |keys| - 1, |ats|), cuts), |xs|)
  {
    hide Embeds, IsUnion, SplitterFor, CanSplit, Compacted, Merged, Shrunk, StorageCuts, Plus, IsPartition, Shaped;
    CutsExist(FoldCuts(strategy, cross, xs, keys, ats, sp), |keys| - 1);
  }

  lemma CutsExist(cuts: seq<nat>, n: nat)
    requires IsPartition(cuts, n)
    ensures cuts != []
  {
  }

  /** What splitting, merging and dividing leave of a column number's totals. */
  lemma {:induction false} ColumnTotal(columns: seq<seq<nat>>, ats: seq<seq<nat>>, sp: Splitter, n: nat, cuts: seq<nat>,
                                       ratio: nat)
    requires Shaped(columns, ats) && AllCanSplit(sp, ats) && IsPartition(cuts, n) && cuts != [] && ratio == |ats| > 0
    requires forall b :: 0 <= b < |ats| ==> |ats[b]| >= 2 && ats[b][|ats[b]| - 1] <= n
    ensures |columns| == |ats|
    ensures var passed := Sum(Shrunk(Merged(Compacted(sp, columns, ats, n, |ats|), cuts), ratio));
      && passed * ratio <= TotalOf(columns, ratio)
      && (AllWhole(sp, ats)
          ==> TotalOf(columns, ratio) <= passed * ratio + SpareCells(ats, |ats|) + (|cuts| - 1) * (ratio - 1))
  {
    hide CanSplit, Compacted, Merged, Shrunk, Sum, TotalOf, IsPartition, SpareCells, Increasing, AllWhole;
    CompactedKeepsTotal(sp, columns, ats, n, |ats|);
    CoarsenAndShrinkTotal(Compacted(sp, columns, ats, n, |ats|), cuts, ratio);
  }

  lemma FitParts(strategy: SplitStrategy, xs: seq<StoredAxis>, keys: seq<Key>, ats: seq<seq<nat>>, sp: Splitter, j: nat)
    requires Fits(strategy, xs, keys, ats, sp) && j < STORED_COLUMNS
    ensures |keys| >= 2 && AllCanSplit(sp, ats) && Shaped(ColumnsAt(xs, j), ats)
  {
    hide Embeds, IsUnion, CanSplit, Shaped;
  }

  lemma FitPlaces(strategy: SplitStrategy, xs: seq<StoredAxis>, keys: seq<Key>, ats: seq<seq<nat>>, sp: Splitter)
    requires Fits(strategy, xs, keys, ats, sp)
    ensures |ats| == |xs| && forall a :: 0 <= a < |ats| ==> |ats[a]| >= 2 && ats[a][|ats[a]| - 1] <= |keys| - 1
  {
    forall a | 0 <= a < |ats|
      ensures |ats[a]| >= 2 && ats[a][|ats[a]| - 1] <= |keys| - 1
    {
      assert Embeds(keys, AllKeys(xs)[a], ats[a]);
      EmbeddingBounds(keys, AllKeys(xs)[a], ats[a], |ats[a]| - 1);
    }
  }

  lemma {:induction false} TotalWithin(columns: seq<seq<nat>>, n: nat, bound: nat)
    requires n <= |columns| && forall a :: 0 <= a < |columns| ==> Sum(columns[a]) <= bound
    ensures TotalOf(columns, n) <= n * bound
  {
    if n > 0 {
      TotalWithin(columns, n - 1, bound);
      assert n * bound == (n - 1) * bound + bound;
    }
  }

  lemma Quotient(a: nat, n: nat, bound: nat)
    requires n > 0 && a * n <= n * bound
    ensures a <= bound
  {
    if a > bound {
      MoreTimes(bound + 1, a, n);
    }
  }

  lemma MoreTimes(a: nat, b: nat, n: nat)
    requires a <= b
    ensures a * n <= b * n
  {
  }

  /** What is passed on is again an axis as it is stored, within the same bound. */
  lemma {:induction false} FoldedIsStored(strategy: SplitStrategy, cross: Crossing, xs: seq<StoredAxis>, y: StoredAxis,
                                          bound: nat)
    requires xs != [] && AllStored(xs, bound) && IsFolded(strategy, cross, xs, y)
    ensures IsStored(y, bound)
  {
    hide Embeds, SplitterFor, CanSplit, Compacted, Merged, Shrunk, StorageCuts, Plus, IsPartition, Sum, Shaped,
      AllEmbed;
    var keys, ats, sp :| Fits(strategy, xs, keys, ats, sp) && FoldedBy(strategy, cross, xs, y, keys, ats, sp);
    var cuts := FoldCuts(strategy, cross, xs, keys, ats, sp);
    CoarseIsAxis(y.keys, keys, cuts);
    forall j | 0 <= j < STORED_COLUMNS
      ensures |y.columns[j]| == |y.keys| - 1 && Sum(y.columns[j]) <= bound
    {
      FoldedTotal(strategy, cross, xs, y, keys, ats, sp, j);
      TotalWithin(ColumnsAt(xs, j), |xs|, bound);
      Quotient(Sum(y.columns[j]), |xs|, bound);
    }
  }

  /** The axes, the strategy and the labeler leave no choice of what is passed on. */
  lemma FoldIsUnique(strategy: SplitStrategy, cross: Crossing, xs: seq<StoredAxis>, y: StoredAxis, z: StoredAxis)
    requires xs != [] && IsFolded(strategy, cross, xs, y) && IsFolded(strategy, cross, xs, z)
    ensures y == z
  {
    hide Fits, FoldedBy;
    var keys, ats, sp :| Fits(strategy, xs, keys, ats, sp) && FoldedBy(strategy, cross, xs, y, keys, ats, sp);
    var keys2, ats2, sp2 :| Fits(strategy, xs, keys2, ats2, sp2) && FoldedBy(strategy, cross, xs, z, keys2, ats2, sp2);
    FitIsUnique(strategy, xs, keys, ats, sp, keys2, ats2, sp2);
    SameColumns(strategy, cross, xs, y, z, keys, ats, sp);
  }

  lemma FitIsUnique(strategy: SplitStrategy, xs: seq<StoredAxis>, keys: seq<Key>, ats: seq<seq<nat>>, sp: Splitter,
                    keys2: seq<Key>, ats2: seq<seq<nat>>, sp2: Splitter)
    requires Fits(strategy, xs, keys, ats, sp) && Fits(strategy, xs, keys2, ats2, sp2)
    ensures keys == keys2 && ats == ats2 && sp == sp2
  {
    hide Embeds, IsUnion, CanSplit, Shaped, SplitterFor;
    UnionIsUnique(keys, keys2, AllKeys(xs));
    forall a | 0 <= a < |ats|
      ensures ats[a] == ats2[a]
    {
      EmbeddingIsUnique(keys, AllKeys(xs)[a], ats[a], ats2[a]);
    }
    assert ats == ats2;
    SplitterIsUnique(strategy, ats, |keys|, sp, sp2);
  }

  lemma SameColumns(strategy: SplitStrategy, cross: Crossing, xs: seq<StoredAxis>, y: StoredAxis, z: StoredAxis,
                    keys: seq<Key>, ats: seq<seq<nat>>, sp: Splitter)
    requires xs != [] && Fits(strategy, xs, keys, ats, sp)
    requires FoldedBy(strategy, cross, xs, y, keys, ats, sp) && FoldedBy(strategy, cross, xs, z, keys, ats, sp)
    ensures y == z
  {
    hide Fits, FoldCuts, CompactColumn, Merged, Shrunk, PickKeys, IsPartition;
    assert y.columns == z.columns;
  }

  // ---------------------------------------------------------------- computing it

  ghost predicate IsValue(axis: Axis, x: StoredAxis)
    reads axis.valuesList
  {
    && x.keys == axis.keys && |x.columns| == |axis.valuesList|
    && forall j :: 0 <= j < |axis.valuesList| ==> x.columns[j] == axis.valuesList[j][..]
  }

  ghost predicate AreValues(axes: seq<Axis>, xs: seq<StoredAxis>)
    reads set a, j | 0 <= a < |axes| && 0 <= j < |axes[a].valuesList| :: axes[a].valuesList[j]
  {
    |axes| == |xs| && forall a :: 0 <= a < |axes| ==> IsValue(axes[a], xs[a])
  }

  /** The totals that are added up on the way stay below 2^63. */
  ghost predicate LeavesRoom(n: nat, bound: nat) {
    2 * (n * bound) < TWO_TO_THE_63
  }

  lemma ColumnsOfValue(axis: Axis, x: StoredAxis, bound: nat)
    requires IsValue(axis, x) && IsStored(x, bound)
    ensures axis.Valid() && axis.keys == x.keys && IsAxis(axis.keys)
    ensures |x.columns| == |axis.valuesList| == STORED_COLUMNS
    ensures forall j :: 0 <= j < STORED_COLUMNS ==> axis.valuesList[j][..] == x.columns[j]
  {
  }

  ghost function AllColumnsOf(xs: seq<StoredAxis>): (columns: seq<seq<seq<nat>>>)
    ensures |columns| == STORED_COLUMNS && forall j :: 0 <= j < STORED_COLUMNS ==> columns[j] == ColumnsAt(xs, j)
  {
    seq(STORED_COLUMNS, j => if j < 0 then [] else ColumnsAt(xs, j))
  }

  lemma AxesArePlane(axes: seq<Axis>, xs: seq<StoredAxis>, bound: nat)
    requires axes != [] && AreValues(axes, xs) && AllStored(xs, bound) && LeavesRoom(|xs|, bound)
    ensures |axes[0].valuesList| == STORED_COLUMNS && IsPlane(axes, |axes[0].valuesList|) && KeysOf(axes) == AllKeys(xs)
    ensures AllColumns(axes, STORED_COLUMNS, AllColumnsOf(xs)) && Within(AllColumnsOf(xs), TWO_TO_THE_64)
  {
    hide IsAxis, Sum, TotalOf, IsValue, IsStored, LeavesRoom;
    forall a | 0 <= a < |axes|
      ensures axes[a].keys == xs[a].keys && axes[a].Valid() && IsAxis(axes[a].keys)
      ensures |axes[a].valuesList| == |xs[a].columns| == STORED_COLUMNS
      ensures forall j :: 0 <= j < STORED_COLUMNS ==>
        axes[a].valuesList[j][..] == xs[a].columns[j] == ColumnsAt(xs, j)[a]
    {
      ColumnsOfValue(axes[a], xs[a], bound);
    }
    forall j | 0 <= j < STORED_COLUMNS
      ensures TotalOf(ColumnsAt(xs, j), |xs|) < TWO_TO_THE_64
    {
      RoomForTotals(xs, j, bound);
    }
  }

  lemma RoomForTotals(xs: seq<StoredAxis>, j: nat, bound: nat)
    requires AllStored(xs, bound) && LeavesRoom(|xs|, bound) && j < STORED_COLUMNS
    ensures 2 * TotalOf(ColumnsAt(xs, j), |xs|) < TWO_TO_THE_63
  {
    TotalWithin(ColumnsAt(xs, j), |xs|, bound);
  }

  /** The compacted axis holds what the axes put into the cells, which leaves room to add two columns up. */
  lemma CompactedAxis(strategy: SplitStrategy, axes: seq<Axis>, xs: seq<StoredAxis>, r: Axis, ats: seq<seq<nat>>,
                      sp: Splitter, bound: nat)
    requires KeysOf(axes) == AllKeys(xs) && AllStored(xs, bound) && LeavesRoom(|xs|, bound) && r.Valid()
    requires |r.valuesList| == STORED_COLUMNS && IsUnion(r.keys, KeysOf(axes)) && Located(axes, r.keys, ats)
    requires SplitterFor(strategy, ats, |r.keys|, sp) && AllCanSplit(sp, ats)
    requires forall j :: 0 <= j < STORED_COLUMNS ==>
      CompactedInto(r.valuesList[j], sp, AllColumnsOf(xs)[j], ats, |r.keys| - 1)
    ensures Fits(strategy, xs, r.keys, ats, sp) && IsAxis(r.keys)
    ensures forall j :: 0 <= j < STORED_COLUMNS ==>
      r.Column(j) == CompactColumn(xs, j, r.keys, ats, sp) && 2 * Sum(r.Column(j)) < TWO_TO_THE_63
  {
    hide IsAxis, Sum, TotalOf, Compacted, Shaped, Embeds, SplitterFor, CanSplit, LeavesRoom, IsStored, AllStored,
      AllColumnsOf;
    UnionIsAxis(r.keys, KeysOf(axes));
    forall a | 0 <= a < |ats|
      ensures Embeds(r.keys, AllKeys(xs)[a], ats[a])
    {
      assert KeysOf(axes)[a] == axes[a].keys;
    }
    forall j | 0 <= j < STORED_COLUMNS
      ensures Shaped(ColumnsAt(xs, j), ats)
    {
      assert CompactedInto(r.valuesList[j], sp, AllColumnsOf(xs)[j], ats, |r.keys| - 1);
    }
    assert Fits(strategy, xs, r.keys, ats, sp);
    forall j | 0 <= j < STORED_COLUMNS
      ensures r.Column(j) == CompactColumn(xs, j, r.keys, ats, sp) && 2 * Sum(r.Column(j)) < TWO_TO_THE_63
    {
      assert CompactedInto(r.valuesList[j], sp, AllColumnsOf(xs)[j], ats, |r.keys| - 1);
      FitPlaces(strategy, xs, r.keys, ats, sp);
      CompactedKeepsTotal(sp, ColumnsAt(xs, j), ats, |r.keys| - 1, |ats|);
      RoomForTotals(xs, j, bound);
    }
  }

  lemma UnionIsAxis(keys: seq<Key>, axes: seq<seq<Key>>)
    requires IsUnion(keys, axes)
    ensures IsAxis(keys) && |keys| >= 2
  {
  }

  /** The added column is the sum of two others, and leaves room for dividing. */
  lemma ResponseColumns(r: Axis, stored: seq<seq<nat>>)
    requires r.Valid() && |stored| == STORED_COLUMNS && |r.valuesList| == STORED_COLUMNS + 1
    requires forall j :: 0 <= j < STORED_COLUMNS ==> |stored[j]| == |r.keys| - 1 && 2 * Sum(stored[j]) < TWO_TO_THE_63
    requires forall i :: 0 <= i < r.valuesList[0].Length ==> r.valuesList[0][i] == stored[0][i] + stored[1][i]
    requires forall k :: 1 <= k <= STORED_COLUMNS ==> r.valuesList[k][..] == stored[k - 1]
    ensures r.Bounded(TWO_TO_THE_63) && r.Column(0) == Plus(stored[0], stored[1])
    ensures forall j :: 0 <= j < STORED_COLUMNS ==> r.Column(j + 1) == stored[j]
  {
    hide Sum;
    assert r.Column(0) == Plus(stored[0], stored[1]);
    SumOfPlus(stored[0], stored[1]);
    forall j | 0 <= j < |r.valuesList|
      ensures Sum(r.Column(j)) < TWO_TO_THE_63
    {
      if j > 0 {
        assert r.Column(j) == stored[j - 1];
      }
    }
  }

  /** `y` is what merging and dividing leave of the compacted columns. */
  ghost predicate IsStoredFrom(y: StoredAxis, keys: seq<Key>, compacted: seq<seq<nat>>, cross: Crossing, ratio: nat)
    requires ratio > 0 && |keys| >= 2 && |compacted| == STORED_COLUMNS
    requires forall j :: 0 <= j < STORED_COLUMNS ==> |compacted[j]| == |keys| - 1
  {
    var cuts := StorageCuts(keys, Plus(compacted[0], compacted[1]), cross);
    && y.keys == PickKeys(keys, cuts) && |y.columns| == STORED_COLUMNS
    && forall j :: 0 <= j < STORED_COLUMNS ==> y.columns[j] == Shrunk(Merged(compacted[j], cuts), ratio)
  }

  lemma MergedColumns(from: Axis, r: Axis, cuts: seq<nat>, compacted: seq<seq<nat>>)
    requires from.Valid() && IsPartition(cuts, |from.keys| - 1) && cuts != [] && Coarsened(from, r, cuts)
    requires |from.valuesList| == STORED_COLUMNS + 1 && |compacted| == STORED_COLUMNS
    requires forall j :: 0 <= j < STORED_COLUMNS ==> from.Column(j + 1) == compacted[j]
    ensures r.keys == PickKeys(from.keys, cuts) && |r.valuesList| == STORED_COLUMNS
    ensures forall j :: 0 <= j < STORED_COLUMNS ==> r.Column(j) == Merged(compacted[j], cuts)
  {
    hide IsPartition, PickKeys, Merged;
  }

  /** Adds the column that decides where rows are merged, and merges them without it. The columns of the result are
      new, or are those of the compacted axis. */
  method StoreMerged(compactAxis: Axis, cross: Crossing, ghost compacted: seq<seq<nat>>)
    returns (r: Axis, ghost cuts: seq<nat>)
    requires compactAxis.Valid() && IsAxis(compactAxis.keys) && DistinctFrom(compactAxis.valuesList, 0)
    requires IsValue(compactAxis, StoredAxis(compactAxis.keys, compacted)) && |compacted| == STORED_COLUMNS
    requires forall j :: 0 <= j < STORED_COLUMNS ==> 2 * Sum(compacted[j]) < TWO_TO_THE_63
    ensures r.Valid() && |r.valuesList| == STORED_COLUMNS && DistinctFrom(r.valuesList, 0)
    ensures cuts == StorageCuts(compactAxis.keys, Plus(compacted[0], compacted[1]), cross)
    ensures r.keys == PickKeys(compactAxis.keys, cuts) && cuts != []
    ensures forall j :: 0 <= j < STORED_COLUMNS ==> r.Column(j) == Merged(compacted[j], cuts)
    ensures forall j :: 0 <= j < STORED_COLUMNS ==>
      fresh(r.valuesList[j]) || r.valuesList[j] in compactAxis.valuesList
  {
    hide IsAxis, PickKeys, Merged, IsPartition, Sum, StorageCuts, Plus, Increasing, Coarsened, Axis.Bounded;
    var newAxis := IntoResponseAxis(compactAxis, Integration);
    assert newAxis.valuesList[1..] == compactAxis.valuesList;
    ResponseColumns(newAxis, compacted);
    cuts := StorageCuts(newAxis.keys, Plus(compacted[0], compacted[1]), cross);
    CutsExist(cuts, |newAxis.keys| - 1);
    r := IntoStorageAxis(newAxis, cross);
    MergedColumns(newAxis, r, cuts, compacted);
  }

  lemma ColumnLengths(axis: Axis, columns: seq<seq<nat>>)
    requires axis.Valid() && IsValue(axis, StoredAxis(axis.keys, columns))
    ensures forall j :: 0 <= j < |columns| ==> |columns[j]| == |axis.keys| - 1
  {
  }

  ghost function FourColumns(axis: Axis): StoredAxis
    requires |axis.valuesList| == STORED_COLUMNS
    reads axis.valuesList
  {
    StoredAxis(axis.keys, [axis.Column(0), axis.Column(1), axis.Column(2), axis.Column(3)])
  }

  lemma ShrunkColumns(r: Axis, keys: seq<Key>, compacted: seq<seq<nat>>, cross: Crossing, ratio: nat, cuts: seq<nat>)
    requires |r.valuesList| == STORED_COLUMNS && ratio > 0 && |keys| >= 2 && |compacted| == STORED_COLUMNS
    requires forall j :: 0 <= j < STORED_COLUMNS ==> |compacted[j]| == |keys| - 1
    requires cuts == StorageCuts(keys, Plus(compacted[0], compacted[1]), cross) && cuts != []
    requires r.keys == PickKeys(keys, cuts)
    requires forall j :: 0 <= j < STORED_COLUMNS ==> r.Column(j) == Shrunk(Merged(compacted[j], cuts), ratio)
    ensures IsValue(r, FourColumns(r)) && IsStoredFrom(FourColumns(r), keys, compacted, cross, ratio)
  {
    hide PickKeys, Merged, IsPartition, Shrunk, StorageCuts, Plus;
    assert forall j :: 0 <= j < STORED_COLUMNS ==> r.Column(j) == FourColumns(r).columns[j];
  }

  /** Merges the rows of the compacted axis, and divides. */
  method StoreFolded(compactAxis: Axis, cross: Crossing, ratio: nat, ghost compacted: seq<seq<nat>>)
    returns (r: Axis, ghost y: StoredAxis)
    requires compactAxis.Valid() && IsAxis(compactAxis.keys) && DistinctFrom(compactAxis.valuesList, 0) && ratio > 0
    requires IsValue(compactAxis, StoredAxis(compactAxis.keys, compacted)) && |compacted| == STORED_COLUMNS
    requires forall j :: 0 <= j < STORED_COLUMNS ==> 2 * Sum(compacted[j]) < TWO_TO_THE_63
    modifies compactAxis.valuesList
    ensures r.Valid() && IsValue(r, y) && IsStoredFrom(y, compactAxis.keys, compacted, cross, ratio)
  {
    hide IsAxis, PickKeys, Merged, IsPartition, Sum, Shrunk, StorageCuts, Plus, Increasing, DistinctFrom, IsValue,
      IsStoredFrom, FourColumns;
    ColumnLengths(compactAxis, compacted);
    ghost var cuts;
    r, cuts := StoreMerged(compactAxis, cross, compacted);
    Shrink(r, ratio);
    y := FourColumns(r);
    ShrunkColumns(r, compactAxis.keys, compacted, cross, ratio, cuts);
  }

  lemma Folds(strategy: SplitStrategy, cross: Crossing, xs: seq<StoredAxis>, compacted: seq<seq<nat>>, y: StoredAxis,
              keys: seq<Key>, ats: seq<seq<nat>>, sp: Splitter, bound: nat)
    requires xs != [] && AllStored(xs, bound) && Fits(strategy, xs, keys, ats, sp) && |keys| >= 2
    requires |compacted| == STORED_COLUMNS
    requires forall j :: 0 <= j < STORED_COLUMNS ==> |compacted[j]| == |keys| - 1
    requires forall j :: 0 <= j < STORED_COLUMNS ==> compacted[j] == CompactColumn(xs, j, keys, ats, sp)
    requires IsStoredFrom(y, keys, compacted, cross, |xs|)
    ensures IsFolded(strategy, cross, xs, y) && IsStored(y, bound)
  {
    hide AllStored, CompactColumn, StorageCuts, Plus, PickKeys, Merged, Shrunk, IsUnion, AllEmbed, SplitterFor,
      AllCanSplit, Shaped, IsStored, IsPartition;
    assert FoldedBy(strategy, cross, xs, y, keys, ats, sp);
    FoldedIsStored(strategy, cross, xs, y, bound);
  }

  /** Compacts the axes and makes a stored axis of the result. The axes themselves stay as they are. */
  method FoldOldest(strategy: SplitStrategy, cross: Crossing, axes: seq<Axis>, ghost xs: seq<StoredAxis>,
                    ghost bound: nat)
    returns (r: Axis, ghost y: StoredAxis)
    requires axes != [] && AreValues(axes, xs) && AllStored(xs, bound) && LeavesRoom(|xs|, bound)
    requires strategy.DistanceSplitStrategy? ==> strategy.s.Valid()
    ensures r.Valid() && IsValue(r, y) && IsFolded(strategy, cross, xs, y) && IsStored(y, bound)
  {
    hide AllStored, LeavesRoom, IsUnion, Embeds, SplitterFor, CanSplit, Compacted, IsAxis, TotalOf, Shaped,
      Increasing, Sum, IsStored, IsFolded, IsPlane, Located, CompactedInto, AllColumns, Within, AllKeys, KeysOf,
      CompactColumn, AllColumnsOf, Fits, ColumnsAt, AllCanSplit, IsStoredFrom;
    assert |xs| == |axes|;
    hide AreValues;
    AxesArePlane(axes, xs, bound);
    var newAxis, sp, ats := Plane(axes).Compact(strategy, AllColumnsOf(xs));
    CompactedAxis(strategy, axes, xs, newAxis, ats, sp, bound);
    ghost var compacted := [newAxis.Column(0), newAxis.Column(1), newAxis.Column(2), newAxis.Column(3)];
    r, y := StoreFolded(newAxis, cross, |axes|, compacted);
    Folds(strategy, cross, xs, compacted, y, newAxis.keys, ats, sp, bound);
  }

  // ---------------------------------------------------------------- traffic across the layers

  ghost function StoredWithin(bound: nat): StoredAxis -> bool {
    (x: StoredAxis) => IsStored(x, bound)
  }

  /** The traffic that an axis holds in column `j`. */
  function TrafficIn(j: nat): StoredAxis -> nat {
    (x: StoredAxis) => if j < |x.columns| then Sum(x.columns[j]) else 0
  }

  /** The layer makes of its oldest axes what `FoldOldest` makes of them. */
  ghost predicate FoldsAxes(strategy: SplitStrategy, cross: Crossing, c: Config<StoredAxis>, bound: nat) {
    forall xs :: xs != [] && |xs| == c.ratio && AllStored(xs, bound) ==> IsFolded(strategy, cross, xs, c.fold(xs))
  }

  lemma {:induction false} LoadIsTotal(xs: seq<StoredAxis>, j: nat, n: nat)
    requires n <= |xs|
    ensures Load(TrafficIn(j), xs[..n]) == TotalOf(ColumnsAt(xs, j), n)
  {
    if n > 0 {
      LoadIsTotal(xs, j, n - 1);
      assert xs[..n][..n - 1] == xs[..n - 1] && (ColumnsAt(xs, j)[n - 1] == [] ==> Sum(ColumnsAt(xs, j)[n - 1]) == 0);
    }
  }

  /** `keys` are the union of the axes' keys, which lie at `ats` among them. */
  ghost predicate IsMesh(xs: seq<StoredAxis>, keys: seq<Key>, ats: seq<seq<nat>>) {
    && xs != [] && |keys| >= 2 && IsUnion(keys, AllKeys(xs)) && AllEmbed(AllKeys(xs), keys, ats)
    && (forall a :: 0 <= a < |ats| ==> |ats[a]| >= 2)
  }

  lemma {:induction false} SpareIsNat(ats: seq<seq<nat>>, n: nat)
    requires n <= |ats| && forall a :: 0 <= a < |ats| ==> |ats[a]| >= 2 && Increasing(ats[a])
    ensures SpareCells(ats, n) >= 0
  {
    if n > 0 {
      SpareIsNat(ats, n - 1);
      InOrder(ats[n - 1], 0, |ats[n - 1]| - 1);
    }
  }

  lemma MeshPlaces(xs: seq<StoredAxis>, keys: seq<Key>, ats: seq<seq<nat>>)
    requires IsMesh(xs, keys, ats)
    ensures forall a :: 0 <= a < |ats| ==> |ats[a]| >= 2 && Increasing(ats[a])
  {
    forall a | 0 <= a < |ats|
      ensures Increasing(ats[a])
    {
      assert Embeds(keys, AllKeys(xs)[a], ats[a]);
    }
  }

  /** What may be lost when every cell and every row is rounded down: for each axis, one for every cell beyond one of
      each bucket, and less than the number of axes for every cell of the union. */
  ghost function MeshLoss(xs: seq<StoredAxis>, keys: seq<Key>, ats: seq<seq<nat>>): nat
    requires IsMesh(xs, keys, ats)
  {
    MeshPlaces(xs, keys, ats);
    SpareIsNat(ats, |ats|);
    assert (|keys| - 1) * (|xs| - 1) >= 0;
    SpareCells(ats, |ats|) + (|keys| - 1) * (|xs| - 1)
  }

  /** What making one axis of several may lose of column `j` where the shares are whole; else no bound is given. */
  ghost function FoldLoss(strategy: SplitStrategy, j: nat): seq<StoredAxis> -> nat {
    (xs: seq<StoredAxis>) =>
      if exists keys, ats, sp :: FitsWhole(strategy, xs, keys, ats, sp) then
        var keys, ats, sp :| FitsWhole(strategy, xs, keys, ats, sp);
        MeshLoss(xs, keys, ats)
      else Load(TrafficIn(j), xs)
  }

  ghost predicate FitsWhole(strategy: SplitStrategy, xs: seq<StoredAxis>, keys: seq<Key>, ats: seq<seq<nat>>,
                            sp: Splitter) {
    IsMesh(xs, keys, ats) && Fits(strategy, xs, keys, ats, sp) && AllWhole(sp, ats)
  }

  ghost function StoredMeasure(strategy: SplitStrategy, bound: nat, j: nat): Measure<StoredAxis> {
    Measure(StoredWithin(bound), TrafficIn(j), FoldLoss(strategy, j))
  }

  lemma FoldLossIs(strategy: SplitStrategy, j: nat, xs: seq<StoredAxis>, keys: seq<Key>, ats: seq<seq<nat>>,
                   sp: Splitter)
    requires IsMesh(xs, keys, ats) && Fits(strategy, xs, keys, ats, sp)
    ensures FoldLoss(strategy, j)(xs) == if AllWhole(sp, ats) then MeshLoss(xs, keys, ats) else Load(TrafficIn(j), xs)
  {
    hide IsMesh, MeshLoss, Fits, AllWhole, Load;
    assert AllWhole(sp, ats) ==> FitsWhole(strategy, xs, keys, ats, sp);
    if exists keys2, ats2, sp2 :: FitsWhole(strategy, xs, keys2, ats2, sp2) {
      var keys2, ats2, sp2 :| FitsWhole(strategy, xs, keys2, ats2, sp2)
        && FoldLoss(strategy, j)(xs) == MeshLoss(xs, keys2, ats2);
      FitIsUnique(strategy, xs, keys, ats, sp, keys2, ats2, sp2);
    }
  }

  lemma FitIsMesh(strategy: SplitStrategy, xs: seq<StoredAxis>, keys: seq<Key>, ats: seq<seq<nat>>, sp: Splitter)
    requires xs != [] && Fits(strategy, xs, keys, ats, sp)
    ensures IsMesh(xs, keys, ats)
  {
    FitPlaces(strategy, xs, keys, ats, sp);
  }

  lemma {:induction false} FoldedTraffic(strategy: SplitStrategy, cross: Crossing, xs: seq<StoredAxis>, y: StoredAxis,
                                         bound: nat, j: nat)
    requires xs != [] && AllStored(xs, bound) && IsFolded(strategy, cross, xs, y) && j < STORED_COLUMNS
    ensures StoredWithin(bound)(y)
    ensures var passed := TrafficIn(j)(y) * |xs|;
      passed <= Load(TrafficIn(j), xs) <= passed + FoldLoss(strategy, j)(xs)
  {
    hide Fits, FoldedBy, Sum, IsMesh, FoldLoss, TotalOf, IsPartition, ColumnsAt, Load, AllWhole;
    FoldedIsStored(strategy, cross, xs, y, bound);
    var keys, ats, sp :| Fits(strategy, xs, keys, ats, sp) && FoldedBy(strategy, cross, xs, y, keys, ats, sp);
    FoldedTotal(strategy, cross, xs, y, keys, ats, sp, j);
    LoadIsTotal(xs, j, |xs|);
    assert xs[..|xs|] == xs;
    FitIsMesh(strategy, xs, keys, ats, sp);
    FoldLossIs(strategy, j, xs, keys, ats, sp);
    if AllWhole(sp, ats) {
      RowsWithinCells(strategy, cross, xs, y, keys, ats, sp);
      MoreTimes(|y.keys| - 1, |keys| - 1, |xs| - 1);
    }
  }

  lemma RowsWithinCells(strategy: SplitStrategy, cross: Crossing, xs: seq<StoredAxis>, y: StoredAxis, keys: seq<Key>,
                        ats: seq<seq<nat>>, sp: Splitter)
    requires xs != [] && Fits(strategy, xs, keys, ats, sp) && FoldedBy(strategy, cross, xs, y, keys, ats, sp)
    ensures 2 <= |y.keys| <= |keys|
  {
    hide Fits, CompactColumn, Merged, Shrunk;
    CutsBounded(FoldCuts(strategy, cross, xs, keys, ats, sp), |keys| - 1);
  }

  lemma {:induction false} FoldIsThrifty(strategy: SplitStrategy, cross: Crossing, c: Config<StoredAxis>, bound: nat,
                                         j: nat)
    requires FoldsAxes(strategy, cross, c, bound) && c.ratio > 0 && j < STORED_COLUMNS
    ensures Thrifty(c, StoredMeasure(strategy, bound, j))
  {
    hide IsFolded, IsStored, TrafficIn, FoldLoss, Load;
    var m := StoredMeasure(strategy, bound, j);
    forall xs | |xs| == c.ratio && AllGood(m.good, xs)
      ensures FoldsWithin(c, m, xs)
    {
      forall a | 0 <= a < |xs|
        ensures IsStored(xs[a], bound)
      {
        assert StoredWithin(bound)(xs[a]);
      }
      FoldedTraffic(strategy, cross, xs, c.fold(xs), bound, j);
    }
  }

  /** After any run of appends, in each column, the layers and what was dropped stand for no more traffic than was
      appended, each axis weighted by the ratios above it, and for no less than that without what the folds may lose.
      Every axis held is one that can be stored. */
  lemma {:induction false} StoringKeepsTraffic(cfgs: seq<Config<StoredAxis>>, startTime: Time,
                                               stream: seq<Entry<StoredAxis>>, strategy: SplitStrategy,
                                               cross: Crossing, bound: nat, j: nat)
    requires cfgs != [] && WellConfigured(cfgs) && j < STORED_COLUMNS
    requires AllGood(StoredWithin(bound), Layers.Axes(stream))
    requires forall k :: 0 <= k < |cfgs| - 1 ==> FoldsAxes(strategy, cross, cfgs[k], bound)
    ensures var dropped := DroppedLoad(cfgs, stream, TrafficIn(j));
      var carried := Carried(cfgs, Cascade(cfgs, startTime, stream), TrafficIn(j), dropped);
      && carried <= Load(TrafficIn(j), Layers.Axes(stream)) <= carried + AllLost(cfgs, stream, FoldLoss(strategy, j))
      && GoodLayers(StoredWithin(bound), Cascade(cfgs, startTime, stream))
  {
    hide FoldsAxes, Thrifty, StoredWithin, TrafficIn, FoldLoss;
    var m := StoredMeasure(strategy, bound, j);
    forall k | 0 <= k < |cfgs| - 1 && cfgs[k].ratio > 0
      ensures Thrifty(cfgs[k], m)
    {
      FoldIsThrifty(strategy, cross, cfgs[k], bound, j);
    }
    TrafficIsConserved(cfgs, startTime, stream, m);
    AllStayGood(cfgs, startTime, stream, m);
  }
}
