/** Consecutive axes, compacted into one axis or pixelated into a matrix (matrix/plane.go). */
module Planes {
  import opened Wrappers
  import opened Ints
  import opened Seqs
  import opened Keys
  import opened Partition
  import opened Embeddings
  import opened Unions
  import opened Distances
  import opened Weights
  import opened Scales
  import opened Splitters
  import opened ScaleWorkers
  import opened Greedy
  import opened FocusPlan
  import opened Chunks
  import opened Axes

  datatype SplitStrategy = AverageSplitStrategy | DistanceSplitStrategy(s: Strategy)

  ghost predicate AllCanSplit(sp: Splitter, ats: seq<seq<nat>>) {
    forall a :: 0 <= a < |ats| ==> CanSplit(sp, a, ats[a])
  }

  ghost predicate AllWhole(sp: Splitter, ats: seq<seq<nat>>) {
    forall a :: 0 <= a < |ats| ==> Whole(sp, a, ats[a])
  }

  /** The splitter that the strategy calls for, when the axes' keys lie at `ats` among `n` keys: with the
      distance strategy, every bucket is scaled by the exact distances of its cells. */
  ghost predicate SplitterFor(strategy: SplitStrategy, ats: seq<seq<nat>>, n: nat, sp: Splitter)
    requires n > 0
  {
    match strategy
    case AverageSplitStrategy => sp == AverageSplitter
    case DistanceSplitStrategy(s) =>
      && sp.DistanceSplitter? && |sp.scale| == |ats|
      && forall a :: 0 <= a < |ats| ==> IsScale(s, BucketDis(BothColumn(ats, a, n)), ats[a], sp.scale[a])
  }

  lemma SplitterCanSplit(strategy: SplitStrategy, ats: seq<seq<nat>>, n: nat, sp: Splitter)
    requires n > 0 && SplitterFor(strategy, ats, n, sp) && (strategy.DistanceSplitStrategy? ==> strategy.s.Valid())
    ensures AllCanSplit(sp, ats)
  {
    if strategy.DistanceSplitStrategy? {
      forall a | 0 <= a < |ats|
        ensures CanSplit(sp, a, ats[a])
      {
        forall b | 0 <= b < |ats[a]| - 1
          ensures ScalesAt(sp.scale[a], ats[a], b)
        {
          assert BucketScaled(strategy.s, BucketDis(BothColumn(ats, a, n)), ats[a], sp.scale[a], b);
          ScaledCanSplit(strategy.s, BucketDis(BothColumn(ats, a, n)), ats[a], sp.scale[a], b);
        }
      }
    }
  }

  /** No distance in bucket `b` is cut off, by level or by count. */
  ghost predicate NotCutAt(s: Strategy, ds: seq<nat>, at: seq<nat>, b: nat)
    requires b < |at| - 1
  {
    at[b] < at[b + 1] <= |ds| &&
    var t := Sorted(ds[at[b]..at[b + 1]]);
    forall i :: 0 <= i < |t| && Rises(t, i) ==> !Beyond(s, t, i)
  }

  /** The shares of an axis are whole if the axis is split evenly, and with the distance strategy if and only if no
      distance in any of its buckets is cut off. */
  lemma {:induction false} WholeExactly(strategy: SplitStrategy, ats: seq<seq<nat>>, n: nat, sp: Splitter, a: nat)
    requires n > 0 && SplitterFor(strategy, ats, n, sp) && a < |ats|
    requires strategy.DistanceSplitStrategy? ==> strategy.s.Valid() && strategy.s.ratio > 0.0
    ensures strategy.AverageSplitStrategy? ==> Whole(sp, a, ats[a])
    ensures strategy.DistanceSplitStrategy? ==>
      (var ds := BucketDis(BothColumn(ats, a, n));
       Whole(sp, a, ats[a]) <==> forall b :: 0 <= b < |ats[a]| - 1 ==> NotCutAt(strategy.s, ds, ats[a], b))
  {
    if strategy.DistanceSplitStrategy? {
      hide BothColumn, BucketDis, NotCutAt, RealSum, Scaled;
      var s, at, ds := strategy.s, ats[a], BucketDis(BothColumn(ats, a, n));
      assert IsScale(s, ds, at, sp.scale[a]);
      forall b | 0 <= b < |at| - 1
        ensures WholeAt(sp.scale[a], at, b) <==> NotCutAt(s, ds, at, b)
      {
        WholeBucket(s, ds, at, sp.scale[a], b);
      }
    }
  }

  lemma {:induction false} WholeBucket(s: Strategy, ds: seq<nat>, at: seq<nat>, scale: seq<real>, b: nat)
    requires s.Valid() && s.ratio > 0.0 && b < |at| - 1 && IsScale(s, ds, at, scale)
    ensures WholeAt(scale, at, b) <==> NotCutAt(s, ds, at, b)
  {
    hide RealSum, Scaled, Sorted, Beyond, Rises;
    assert BucketScaled(s, ds, at, scale, b);
    ScaledSum(s, ds[at[b]..at[b + 1]]);
  }

  /** Nor do the axes leave a choice of the splitter. */
  lemma SplitterIsUnique(strategy: SplitStrategy, ats: seq<seq<nat>>, n: nat, a: Splitter, b: Splitter)
    requires n > 0 && SplitterFor(strategy, ats, n, a) && SplitterFor(strategy, ats, n, b)
    ensures a == b
  {
    if strategy.DistanceSplitStrategy? {
      forall i | 0 <= i < |ats|
        ensures a.scale[i] == b.scale[i]
      {
        ScaleIsUnique(strategy.s, BucketDis(BothColumn(ats, i, n)), ats[i], a.scale[i], b.scale[i]);
      }
      assert a.scale == b.scale;
    }
  }

  method NewSplitter(strategy: SplitStrategy, axes: seq<seq<Key>>, compactKeys: seq<Key>, ghost ats: seq<seq<nat>>)
    returns (sp: Splitter)
    requires axes != [] && AllEmbed(axes, compactKeys, ats) && compactKeys != []
    requires strategy.DistanceSplitStrategy? ==> strategy.s.Valid()
    ensures SplitterFor(strategy, ats, |compactKeys|, sp) && AllCanSplit(sp, ats)
  {
    match strategy {
      case AverageSplitStrategy =>
        sp := AverageSplitter;
      case DistanceSplitStrategy(s) =>
        var dis := KeyDistances(axes, compactKeys, ats);
        var scale := GenerateScale(s, axes, compactKeys, dis, ats);
        sp := DistanceSplitter(scale);
    }
    SplitterCanSplit(strategy, ats, |compactKeys|, sp);
  }

  /** The columns of all axes, one after the other. */
  method GenerateScale(s: Strategy, axes: seq<seq<Key>>, compactKeys: seq<Key>, dis: seq<array<nat>>,
                       ghost ats: seq<seq<nat>>)
    returns (scale: seq<seq<real>>)
    requires s.Valid() && AllEmbed(axes, compactKeys, ats) && |dis| == |axes| && Columns(dis, |compactKeys|)
      && compactKeys != []
    requires forall a :: 0 <= a < |dis| ==> dis[a][..] == BothColumn(ats, a, |compactKeys|)
    modifies dis
    ensures |scale| == |axes|
    ensures forall a :: 0 <= a < |axes| ==> IsScale(s, BucketDis(BothColumn(ats, a, |compactKeys|)), ats[a], scale[a])
  {
    hide IsScale, BothColumn, BucketDis, Embeds;
    var worker := new ScaleWorker(s);
    scale := [];
    for i := 0 to |axes|
      invariant worker.Valid() && fresh(worker) && fresh(worker.tempMap) && worker.strategy == s && |scale| == i
      invariant forall a :: i <= a < |dis| ==> dis[a][..] == BothColumn(ats, a, |compactKeys|)
      invariant forall a :: 0 <= a < i ==> IsScale(s, BucketDis(BothColumn(ats, a, |compactKeys|)), ats[a], scale[a])
    {
      var column := worker.Work(dis[i], axes[i], compactKeys, ats[i]);
      scale := scale + [column];
    }
  }

  // ---------------------------------------------------------------- compacting

  function Zeros(n: nat): (z: seq<nat>)
    ensures |z| == n
  {
    seq(n, i => 0)
  }

  lemma ZerosAre(s: seq<nat>)
    requires forall i :: 0 <= i < |s| ==> s[i] == 0
    ensures s == Zeros(|s|) && Sum(s) == 0
  {
    SumOfZeros(s);
  }

  /** There is one value for each bucket of each axis. */
  ghost predicate Shaped(columns: seq<seq<nat>>, ats: seq<seq<nat>>) {
    |columns| == |ats| && forall a :: 0 <= a < |ats| ==> |columns[a]| == |ats[a]| - 1 && Increasing(ats[a])
  }

  /** What the cells of the compact chunk hold once the first `a` columns have been split into it. */
  ghost function Compacted(sp: Splitter, columns: seq<seq<nat>>, ats: seq<seq<nat>>, n: nat, a: nat): (cells: seq<nat>)
    requires Shaped(columns, ats) && a <= |ats| && AllCanSplit(sp, ats)
    ensures |cells| == n
  {
    if a == 0 then Zeros(n)
    else Plus(Compacted(sp, columns, ats, n, a - 1), Cells(sp, a - 1, columns[a - 1], ats[a - 1], n))
  }

  function TotalOf(columns: seq<seq<nat>>, a: nat): nat
    requires a <= |columns|
  {
    if a == 0 then 0 else TotalOf(columns, a - 1) + Sum(columns[a - 1])
  }

  lemma {:induction false} TotalGrows(columns: seq<seq<nat>>, a: nat, b: nat)
    requires a <= b <= |columns|
    ensures TotalOf(columns, a) <= TotalOf(columns, b)
    decreases b
  {
    if a < b {
      TotalGrows(columns, a, b - 1);
    }
  }

  lemma {:induction false} SumOfPlus(a: seq<nat>, b: seq<nat>)
    requires |a| == |b|
    ensures Sum(Plus(a, b)) == Sum(a) + Sum(b)
  {
    if a != [] {
      SumOfPlus(a[1..], b[1..]);
      assert Plus(a, b)[1..] == Plus(a[1..], b[1..]);
    }
  }

  /** How many cells the first `a` axes have beyond one for each bucket. */
  ghost function SpareCells(ats: seq<seq<nat>>, a: nat): int
    requires a <= |ats| && forall b :: 0 <= b < |ats| ==> |ats[b]| >= 2
  {
    if a == 0 then 0 else SpareCells(ats, a - 1) + Last(ats[a - 1]) - ats[a - 1][0] - (|ats[a - 1]| - 1)
  }

  /** Compacting never makes more of the columns than they held; where the shares are whole, it loses at most one for
      every cell beyond one of each bucket. */
  lemma {:induction false} CompactedKeepsTotal(sp: Splitter, columns: seq<seq<nat>>, ats: seq<seq<nat>>, n: nat, a: nat)
    requires Shaped(columns, ats) && a <= |ats| && AllCanSplit(sp, ats)
    requires forall b :: 0 <= b < |ats| ==> |ats[b]| >= 2 && Last(ats[b]) <= n
    ensures Sum(Compacted(sp, columns, ats, n, a)) <= TotalOf(columns, a)
    ensures AllWhole(sp, ats) ==> TotalOf(columns, a) <= Sum(Compacted(sp, columns, ats, n, a)) + SpareCells(ats, a)
  {
    if a == 0 {
      SumOfZeros(Zeros(n));
    } else {
      CompactedKeepsTotal(sp, columns, ats, n, a - 1);
      CellsKeepTotal(sp, a - 1, columns[a - 1], ats[a - 1], n);
      SumOfPlus(Compacted(sp, columns, ats, n, a - 1), Cells(sp, a - 1, columns[a - 1], ats[a - 1], n));
    }
  }

  /** `parts` are what each axis puts into empty cells. */
  ghost predicate ArePutIn(sp: Splitter, columns: seq<seq<nat>>, ats: seq<seq<nat>>, n: nat, parts: seq<seq<nat>>) {
    |parts| == |columns| == |ats| && forall a :: 0 <= a < |ats| ==> PutInAt(sp, columns, ats, n, parts, a)
  }

  ghost predicate PutInAt(sp: Splitter, columns: seq<seq<nat>>, ats: seq<seq<nat>>, n: nat, parts: seq<seq<nat>>,
                          a: nat)
    requires a < |parts| && |parts| == |columns| == |ats|
  {
    ats[a] != [] && IsSplit(sp, a, SplitTo, Zeros(n), columns[a], ats[a], parts[a])
  }

  /** A column taken across the axes at cell `k`. */
  function AcrossAxes(parts: seq<seq<nat>>, k: nat): (r: seq<nat>)
    ensures |r| == |parts|
  {
    seq(|parts|, a requires 0 <= a < |parts| => if k < |parts[a]| then parts[a][k] else 0)
  }

  /** A cell of the compact chunk holds the sum of what each axis puts into it. */
  lemma {:induction false} CompactedExactly(sp: Splitter, columns: seq<seq<nat>>, ats: seq<seq<nat>>, n: nat,
                                            parts: seq<seq<nat>>, k: nat)
    requires Shaped(columns, ats) && AllCanSplit(sp, ats) && ArePutIn(sp, columns, ats, n, parts) && k < n
    requires forall b :: 0 <= b < |ats| ==> |ats[b]| >= 2 && Last(ats[b]) <= n
    ensures Compacted(sp, columns, ats, n, |ats|)[k] == Sum(AcrossAxes(parts, k))
  {
    CompactedUpTo(sp, columns, ats, n, parts, k, |ats|);
    assert AcrossAxes(parts, k)[..|ats|] == AcrossAxes(parts, k);
  }

  lemma {:induction false} CompactedUpTo(sp: Splitter, columns: seq<seq<nat>>, ats: seq<seq<nat>>, n: nat,
                                         parts: seq<seq<nat>>, k: nat, a: nat)
    requires Shaped(columns, ats) && AllCanSplit(sp, ats) && ArePutIn(sp, columns, ats, n, parts) && k < n
    requires (forall b :: 0 <= b < |ats| ==> |ats[b]| >= 2 && Last(ats[b]) <= n) && a <= |ats|
    ensures Compacted(sp, columns, ats, n, a)[k] == Sum(AcrossAxes(parts, k)[..a])
  {
    if a > 0 {
      CompactedUpTo(sp, columns, ats, n, parts, k, a - 1);
      assert PutInAt(sp, columns, ats, n, parts, a - 1);
      PutInIs(sp, a - 1, columns[a - 1], ats[a - 1], n, parts[a - 1]);
      hide IsSplit, Cells, Sum;
      assert AcrossAxes(parts, k)[a - 1] == parts[a - 1][k];
      SumExtend(AcrossAxes(parts, k), 0, a - 1);
      assert AcrossAxes(parts, k)[0..a] == AcrossAxes(parts, k)[..a]
        && AcrossAxes(parts, k)[0..a - 1] == AcrossAxes(parts, k)[..a - 1];
    }
  }

  /** What an axis puts into empty cells are its cells. */
  lemma {:induction false} PutInIs(sp: Splitter, a: nat, values: seq<nat>, at: seq<nat>, n: nat, cells: seq<nat>)
    requires |values| == |at| - 1 && |at| >= 2 && Increasing(at) && CanSplit(sp, a, at) && Last(at) <= n
    ensures cells == Cells(sp, a, values, at, n) <==> IsSplit(sp, a, SplitTo, Zeros(n), values, at, cells)
  {
    SplitExactly(sp, a, SplitTo, Zeros(n), values, at, cells);
    AddedEverywhere(sp, a, values, at, Zeros(n));
  }

  /** A cell that an axis does not reach gets nothing from it, so adding is adding everywhere. */
  lemma AddedEverywhere(sp: Splitter, axis: nat, values: seq<nat>, at: seq<nat>, column: seq<nat>)
    requires |values| == |at| - 1 && Increasing(at) && CanSplit(sp, axis, at)
    ensures AfterSplit(SplitAdd, column, Cells(sp, axis, values, at, |column|), at)
         == Plus(column, Cells(sp, axis, values, at, |column|))
    ensures AfterSplit(SplitTo, Zeros(|column|), Cells(sp, axis, values, at, |column|), at)
      == Cells(sp, axis, values, at, |column|)
  {
  }

  function KeysOf(axes: seq<Axis>): (keys: seq<seq<Key>>)
    ensures |keys| == |axes|
  {
    seq(|axes|, a requires 0 <= a < |axes| => axes[a].keys)
  }

  /** Every axis is one, with the given number of columns. */
  ghost predicate IsPlane(axes: seq<Axis>, valuesListLen: nat) {
    axes != [] && forall a :: 0 <= a < |axes| ==>
      axes[a].Valid() && IsAxis(axes[a].keys) && |axes[a].valuesList| == valuesListLen
  }

  /** `columns` are the axes' columns number `j`. */
  ghost predicate HasColumns(axes: seq<Axis>, j: nat, columns: seq<seq<nat>>)
    requires forall a :: 0 <= a < |axes| ==> j < |axes[a].valuesList|
    reads set a | 0 <= a < |axes| :: axes[a].valuesList[j]
  {
    |columns| == |axes| && forall a :: 0 <= a < |axes| ==> columns[a] == axes[a].valuesList[j][..]
  }

  /** Where the axes' keys lie among those of the compact chunk. */
  ghost predicate Located(axes: seq<Axis>, compactKeys: seq<Key>, ats: seq<seq<nat>>) {
    |ats| == |axes| && forall a :: 0 <= a < |axes| ==> Embeds(compactKeys, axes[a].keys, ats[a])
  }

  lemma LocatedColumns(axes: seq<Axis>, compactKeys: seq<Key>, ats: seq<seq<nat>>, columns: seq<seq<nat>>)
    requires Located(axes, compactKeys, ats) && |columns| == |axes|
    requires forall a :: 0 <= a < |axes| ==> |columns[a]| == |axes[a].keys| - 1
    ensures Shaped(columns, ats)
    ensures forall a :: 0 <= a < |ats| ==> |ats[a]| >= 2 && Last(ats[a]) <= |compactKeys| - 1
  {
    forall a | 0 <= a < |ats|
      ensures |ats[a]| >= 2 && Last(ats[a]) <= |compactKeys| - 1
    {
      EmbeddingBounds(compactKeys, axes[a].keys, ats[a], |ats[a]| - 1);
    }
  }

  /** Splits column `j` of every axis into a chunk that holds nothing yet. */
  method SplitAll(sp: Splitter, dst: Chunk, axes: seq<Axis>, j: nat, ghost ats: seq<seq<nat>>,
                  ghost columns: seq<seq<nat>>)
    requires dst.Valid() && dst.values[..] == Zeros(dst.values.Length)
    requires forall a :: 0 <= a < |axes| ==>
      axes[a].Valid() && j < |axes[a].valuesList| && dst.values != axes[a].valuesList[j]
    requires Located(axes, dst.keys, ats) && AllCanSplit(sp, ats) && HasColumns(axes, j, columns)
    requires TotalOf(columns, |columns|) < TWO_TO_THE_64
    modifies dst.values
    ensures Shaped(columns, ats)
    ensures dst.values[..] == Compacted(sp, columns, ats, dst.values.Length, |axes|)
    ensures HasColumns(axes, j, columns)
  {
    hide Embeds, CanSplit, Compacted, Cells, Sum, TotalOf, Plus, AfterSplit, Increasing, Zeros;
    LocatedColumns(axes, dst.keys, ats, columns);
    ghost var n := dst.values.Length;
    CompactedStart(sp, columns, ats, n);
    for i := 0 to |axes|
      invariant dst.values[..] == Compacted(sp, columns, ats, n, i) && HasColumns(axes, j, columns)
    {
      CompactedStep(sp, columns, ats, n, i, dst.values[..]);
      var src := new Chunk(axes[i].keys, axes[i].valuesList[j]);
      assert src.values[..] == columns[i];
      Split(sp, dst, src, SplitAdd, i, ats[i]);
    }
  }

  lemma CompactedStart(sp: Splitter, columns: seq<seq<nat>>, ats: seq<seq<nat>>, n: nat)
    requires Shaped(columns, ats) && AllCanSplit(sp, ats)
    ensures Compacted(sp, columns, ats, n, 0) == Zeros(n)
  {
  }

  /** One more axis split in, within the bounds of the totals. */
  lemma CompactedStep(sp: Splitter, columns: seq<seq<nat>>, ats: seq<seq<nat>>, n: nat, a: nat, held: seq<nat>)
    requires Shaped(columns, ats) && a < |ats| && AllCanSplit(sp, ats)
    requires forall b :: 0 <= b < |ats| ==> |ats[b]| >= 2 && Last(ats[b]) <= n
    requires held == Compacted(sp, columns, ats, n, a)
    ensures Sum(held) + Sum(columns[a]) <= TotalOf(columns, |columns|)
    ensures AfterSplit(SplitAdd, held, Cells(sp, a, columns[a], ats[a], n), ats[a])
      == Compacted(sp, columns, ats, n, a + 1)
  {
    CompactedKeepsTotal(sp, columns, ats, n, a);
    TotalGrows(columns, a + 1, |columns|);
    AddedEverywhere(sp, a, columns[a], ats[a], held);
  }

  /** The union of the axes' keys, with the first columns split into its cells. */
  method CompactFirstColumn(strategy: SplitStrategy, axes: seq<Axis>, ghost columns: seq<seq<nat>>)
    returns (compactChunk: Chunk, sp: Splitter, ghost ats: seq<seq<nat>>)
    requires exists valuesListLen :: IsPlane(axes, valuesListLen)
    requires (strategy.DistanceSplitStrategy? ==> strategy.s.Valid()) && HasColumns(axes, 0, columns)
    requires TotalOf(columns, |columns|) < TWO_TO_THE_64
    ensures compactChunk.Valid() && fresh(compactChunk) && fresh(compactChunk.values)
    ensures IsUnion(compactChunk.keys, KeysOf(axes)) && Located(axes, compactChunk.keys, ats)
    ensures SplitterFor(strategy, ats, |compactChunk.keys|, sp) && AllCanSplit(sp, ats)
    ensures Shaped(columns, ats)
    ensures compactChunk.values[..] == Compacted(sp, columns, ats, compactChunk.values.Length, |axes|)
  {
    var keys := KeysOf(axes);
    var compactKeys := UnionKeys(keys);
    ats := LocateAll(axes, compactKeys);
    UnionIsLong(compactKeys, keys);
    compactChunk := new Chunk.Zero(compactKeys);
    sp := NewSplitter(strategy, keys, compactKeys, ats);
    SplitAll(sp, compactChunk, axes, 0, ats, columns);
  }

  lemma UnionIsLong(compactKeys: seq<Key>, keys: seq<seq<Key>>)
    requires IsUnion(compactKeys, keys)
    ensures |compactKeys| >= 2 && IsAxis(compactKeys)
  {
  }

  lemma LocateAll(axes: seq<Axis>, compactKeys: seq<Key>) returns (ats: seq<seq<nat>>)
    requires IsUnion(compactKeys, KeysOf(axes)) && forall a :: 0 <= a < |axes| ==> IsAxis(axes[a].keys)
    ensures Located(axes, compactKeys, ats) && AllEmbed(KeysOf(axes), compactKeys, ats)
  {
    forall a | 0 <= a < |axes|
      ensures forall i :: 0 <= i < |axes[a].keys| ==> HasBound(compactKeys, BoundAt(axes[a].keys, i))
      ensures Embeds(compactKeys, axes[a].keys, Places(compactKeys, axes[a].keys))
    {
      UnionEmbeds(compactKeys, KeysOf(axes), a);
    }
    ats := seq(|axes|, a requires 0 <= a < |axes| => Places(compactKeys, axes[a].keys));
  }

  /** The cuts at which the rows of a matrix are taken, or the panic that dividing ends in. */
  ghost function PixelCuts(keys: seq<Key>, values: seq<nat>, cross: Crossing, target: int): Result<seq<nat>, Panic>
    requires 1 <= |values| == |keys| - 1
  {
    if target >= |values| then Ok(EveryRow(|values|))
    else
      match DivideRule(keys, values, cross, target)
      case Err(e) => Err(e)
      case Ok(rule) => Ok(FocusCuts(keys, values, rule, target, NotMergeLogicalRange))
  }

  /** The keys of the rows, and for each tag and axis the values of the rows. */
  datatype Matrix = Matrix(keys: seq<Key>, data: seq<seq<seq<nat>>>)

  /** The totals of every column number leave room for adding up. */
  ghost predicate Within(columns: seq<seq<seq<nat>>>, bound: nat) {
    forall j :: 0 <= j < |columns| ==> TotalOf(columns[j], |columns[j]|) < bound
  }

  ghost predicate AllColumns(axes: seq<Axis>, valuesListLen: nat, columns: seq<seq<seq<nat>>>)
    requires forall a :: 0 <= a < |axes| ==> |axes[a].valuesList| == valuesListLen
    reads set a, j | 0 <= a < |axes| && 0 <= j < valuesListLen :: axes[a].valuesList[j]
  {
    |columns| == valuesListLen && forall j :: 0 <= j < valuesListLen ==> HasColumns(axes, j, columns[j])
  }

  /** The matrix has the keys at the cuts, and every axis's columns pixelated. */
  ghost predicate IsPixel(r: Result<Matrix, Panic>, keys: seq<Key>, cuts: seq<nat>, sp: Splitter,
                          columns: seq<seq<seq<nat>>>,
                          ats: seq<seq<nat>>)
    requires |keys| >= 2 && IsPartition(cuts, |keys| - 1) && AllCanSplit(sp, ats)
  {
    && r.Ok? && r.value.keys == PickKeys(keys, cuts) && |r.value.data| == |columns|
    && forall j :: 0 <= j < |columns| ==> Pixelated(r.value.data[j], sp, columns[j], ats, |keys| - 1, cuts)
  }

  /** Consecutive axes. */
  datatype Plane = Plane(axes: seq<Axis>) {

    /** All axes as one: each column of the result is what the axes' columns put into its cells. */
    method Compact(strategy: SplitStrategy, ghost columns: seq<seq<seq<nat>>>)
      returns (r: Axis, ghost sp: Splitter, ghost ats: seq<seq<nat>>)
      requires axes != [] && IsPlane(axes, |axes[0].valuesList|) && AllColumns(axes, |axes[0].valuesList|, columns)
      requires (strategy.DistanceSplitStrategy? ==> strategy.s.Valid()) && Within(columns, TWO_TO_THE_64)
      ensures r.Valid() && |r.valuesList| == |columns|
      ensures DistinctFrom(r.valuesList, 0) && forall j :: 0 <= j < |columns| ==> fresh(r.valuesList[j])
      ensures IsUnion(r.keys, KeysOf(axes)) && Located(axes, r.keys, ats) && SplitterFor(strategy, ats, |r.keys|, sp)
      ensures AllCanSplit(sp, ats)
      ensures forall j :: 0 <= j < |columns| ==> CompactedInto(r.valuesList[j], sp, columns[j], ats, |r.keys| - 1)
    {
      hide IsUnion, Embeds, SplitterFor, CanSplit, Compacted, Zeros, IsAxis, TotalOf, Shaped, Increasing;
      var compactChunk, splitter;
      compactChunk, splitter, ats := CompactFirstColumn(strategy, axes, columns[0]);
      sp := splitter;
      var valuesList := [compactChunk.values];
      ghost var compactKeys, n := compactChunk.keys, |compactChunk.keys| - 1;
      for j := 1 to |axes[0].valuesList|
        invariant compactChunk.Valid() && compactChunk.keys == compactKeys && |valuesList| == j
        invariant forall k :: 0 <= k < j ==> fresh(valuesList[k]) && valuesList[k].Length == n
        invariant DistinctFrom(valuesList, 0)
        invariant forall k :: 0 <= k < j ==> CompactedInto(valuesList[k], sp, columns[k], ats, n)
      {
        compactChunk.SetZeroValues();
        ZerosAre(compactChunk.values[..]);
        assert compactChunk.values !in valuesList;
        assert HasColumns(axes, j, columns[j]);
        SplitAll(splitter, compactChunk, axes, j, ats, columns[j]);
        valuesList := valuesList + [compactChunk.values];
      }
      r := Axis(compactChunk.keys, valuesList);
    }

    /** A matrix with about the target's rows: every axis's columns are split into the cells of the union, and
        summed between the keys that dividing the compact chunk leaves. The union, the places of the axes' keys
        in it and the splitter are what the axes and the strategy determine. */
    method Pixel(strategy: SplitStrategy, cross: Crossing, target: int, ghost keys: seq<Key>, ghost ats: seq<seq<nat>>,
                 ghost sp: Splitter, ghost columns: seq<seq<seq<nat>>>) returns (r: Result<Matrix, Panic>)
      requires axes != [] && IsPlane(axes, |axes[0].valuesList|) && AllColumns(axes, |axes[0].valuesList|, columns)
      requires (strategy.DistanceSplitStrategy? ==> strategy.s.Valid()) && Within(columns, TWO_TO_THE_63)
      requires IsUnion(keys, KeysOf(axes)) && |keys| >= 2 && Located(axes, keys, ats)
        && SplitterFor(strategy, ats, |keys|, sp)
      requires AllCanSplit(sp, ats) && Shaped(columns[0], ats)
      ensures var cuts := PixelCuts(keys, Compacted(sp, columns[0], ats, |keys| - 1, |ats|), cross, target);
        if cuts.Err? then r == Err(cuts.error) else IsPixel(r, keys, cuts.value, sp, columns, ats)
    {
      hide IsUnion, Embeds, SplitterFor, CanSplit, Compacted, Zeros, IsAxis, TotalOf, Shaped, Increasing, PixelCuts,
        PickKeys, Merged,
        IsPartition, Pixelated, Coarsens, Sum;
      ghost var places;
      var compactChunk, splitter;
      compactChunk, splitter, places := CompactFirstColumn(strategy, axes, columns[0]);
      UnionIsUnique(keys, compactChunk.keys, KeysOf(axes));
      PlacesAreUnique(axes, keys, ats, places);
      SplitterIsUnique(strategy, ats, |keys|, sp, splitter);
      var compactKeys := compactChunk.keys;
      ghost var base := compactChunk.values[..];
      CompactedWithin(sp, columns[0], axes, keys, ats, TWO_TO_THE_63);
      UnionIsLong(keys, KeysOf(axes));
      var divided := compactChunk.Divide(cross, target, NotMergeLogicalRange);
      DividedAt(keys, base, cross, target, if divided.Err? then Some(divided.error) else None,
                if divided.Ok? then divided.value.keys else []);
      if divided.Err? {
        return Err(divided.error);
      }
      var baseKeys := divided.value.keys;
      var data := PixelData(splitter, compactKeys, baseKeys, ats, columns, PixelCuts(keys, base, cross, target).value);
      r := Ok(Matrix(baseKeys, data));
    }

    /** The rows of all columns; the source computes the columns concurrently. */
    method PixelData(sp: Splitter, compactKeys: seq<Key>, baseKeys: seq<Key>, ghost ats: seq<seq<nat>>,
                     ghost columns: seq<seq<seq<nat>>>, ghost cuts: seq<nat>) returns (data: seq<seq<seq<nat>>>)
      requires axes != [] && IsPlane(axes, |axes[0].valuesList|) && AllColumns(axes, |axes[0].valuesList|, columns)
      requires Within(columns, TWO_TO_THE_64) && Located(axes, compactKeys, ats) && AllCanSplit(sp, ats)
      requires |compactKeys| >= 2 && IsAxis(compactKeys) && IsPartition(cuts, |compactKeys| - 1)
        && Coarsens(baseKeys, compactKeys, cuts)
      ensures |data| == |columns|
      ensures forall j :: 0 <= j < |columns| ==> Pixelated(data[j], sp, columns[j], ats, |compactKeys| - 1, cuts)
    {
      hide Embeds, CanSplit, IsAxis, TotalOf, IsPartition, Pixelated, Coarsens;
      data := [];
      for j := 0 to |axes[0].valuesList|
        invariant |data| == j && AllColumns(axes, |axes[0].valuesList|, columns)
        invariant forall k :: 0 <= k < j ==> Pixelated(data[k], sp, columns[k], ats, |compactKeys| - 1, cuts)
      {
        assert HasColumns(axes, j, columns[j]);
        var rows := PixelColumns(sp, compactKeys, axes, j, baseKeys, ats, columns[j], cuts);
        data := data + [rows];
      }
    }
  }

  lemma PlacesAreUnique(axes: seq<Axis>, keys: seq<Key>, a: seq<seq<nat>>, b: seq<seq<nat>>)
    requires Located(axes, keys, a) && Located(axes, keys, b)
    ensures a == b
  {
    forall i | 0 <= i < |axes|
      ensures a[i] == b[i]
    {
      EmbeddingIsUnique(keys, axes[i].keys, a[i], b[i]);
    }
  }

  /** What dividing a chunk without merging gives, said of its cuts. */
  lemma DividedAt(keys: seq<Key>, values: seq<nat>, cross: Crossing, target: int, panic: Option<Panic>,
                  newKeys: seq<Key>)
    requires 1 <= |values| == |keys| - 1
    requires target >= |values| ==> panic == None && newKeys == keys
    requires target < |values| ==>
      match DivideRule(keys, values, cross, target)
      case Err(e) => panic == Some(e)
      case Ok(rule) =>
        panic == None && newKeys == PickKeys(keys, FocusCuts(keys, values, rule, target, NotMergeLogicalRange))
    ensures match PixelCuts(keys, values, cross, target)
      case Err(e) => panic == Some(e)
      case Ok(cuts) => panic == None && IsPartition(cuts, |values|) && newKeys == PickKeys(keys, cuts)
  {
    assert PickKeys(keys, EveryRow(|values|)) == keys;
  }

  lemma {:induction false} CompactedWithin(sp: Splitter, columns: seq<seq<nat>>, axes: seq<Axis>, keys: seq<Key>,
                                           ats: seq<seq<nat>>, bound: nat)
    requires Located(axes, keys, ats) && Shaped(columns, ats) && AllCanSplit(sp, ats)
    requires TotalOf(columns, |columns|) < bound
    requires keys != []
    ensures Sum(Compacted(sp, columns, ats, |keys| - 1, |ats|)) < bound
  {
    hide *;
    ColumnsMatch(axes, keys, ats, columns);
    LocatedColumns(axes, keys, ats, columns);
    CompactedKeepsTotal(sp, columns, ats, |keys| - 1, |ats|);
  }

  lemma ColumnsMatch(axes: seq<Axis>, keys: seq<Key>, ats: seq<seq<nat>>, columns: seq<seq<nat>>)
    requires Located(axes, keys, ats) && Shaped(columns, ats)
    ensures |ats| == |columns| == |axes| && forall a :: 0 <= a < |axes| ==> |columns[a]| == |axes[a].keys| - 1
  {
    forall a | 0 <= a < |axes|
      ensures |columns[a]| == |axes[a].keys| - 1
    {
      assert Embeds(keys, axes[a].keys, ats[a]);
    }
  }

  /** One column number of every axis, split into the cells of the union and merged to the base keys. */
  method PixelColumns(sp: Splitter, compactKeys: seq<Key>, axes: seq<Axis>, j: nat, baseKeys: seq<Key>,
                      ghost ats: seq<seq<nat>>,
                      ghost columns: seq<seq<nat>>, ghost cuts: seq<nat>) returns (rows: seq<seq<nat>>)
    requires forall a :: 0 <= a < |axes| ==> axes[a].Valid() && j < |axes[a].valuesList|
    requires Located(axes, compactKeys, ats) && AllCanSplit(sp, ats) && HasColumns(axes, j, columns)
    requires TotalOf(columns, |columns|) < TWO_TO_THE_64 && IsAxis(compactKeys) && Coarsens(baseKeys, compactKeys, cuts)
    ensures Pixelated(rows, sp, columns, ats, |compactKeys| - 1, cuts)
  {
    hide Embeds, CanSplit, Cells, Sum, TotalOf, AfterSplit, Increasing, Zeros, Coarsens, IsAxis, Merged;
    LocatedColumns(axes, compactKeys, ats, columns);
    AxisIsLong(compactKeys);
    CoarsenedCuts(baseKeys, compactKeys, cuts);
    ghost var n := |compactKeys| - 1;
    var compactChunk := new Chunk.Zero(compactKeys);
    rows := [];
    for i := 0 to |axes|
      invariant compactChunk.Valid() && compactChunk.keys == compactKeys && fresh(compactChunk)
      invariant fresh(compactChunk.values)
      invariant |rows| == i && forall a :: 0 <= a < i ==> rows[a] == Merged(Cells(sp, a, columns[a], ats[a], n), cuts)
    {
      compactChunk.Clear();
      ZerosAre(compactChunk.values[..]);
      var src := new Chunk(axes[i].keys, axes[i].valuesList[j]);
      assert src.values[..] == columns[i];
      CellsFromZero(sp, i, columns, ats, n);
      Split(sp, compactChunk, src, SplitTo, i, ats[i]);
      var reduced := compactChunk.Reduce(baseKeys, cuts);
      rows := rows + [reduced.values[..]];
    }
  }

  lemma CoarsenedCuts(coarse: seq<Key>, keys: seq<Key>, cuts: seq<nat>)
    requires Coarsens(coarse, keys, cuts)
    ensures |keys| >= 2 && IsPartition(cuts, |keys| - 1) && cuts != []
  {
  }

  lemma AxisIsLong(keys: seq<Key>)
    requires IsAxis(keys)
    ensures |keys| >= 2
  {
  }

  /** Splitting a column into a cleared chunk leaves its cells, whose total is within the column's. */
  lemma {:induction false} CellsFromZero(sp: Splitter, a: nat, columns: seq<seq<nat>>, ats: seq<seq<nat>>, n: nat)
    requires Shaped(columns, ats) && a < |ats| && AllCanSplit(sp, ats)
    requires forall b :: 0 <= b < |ats| ==> |ats[b]| >= 2 && Last(ats[b]) <= n
    ensures Sum(columns[a]) <= TotalOf(columns, |columns|)
    ensures Sum(Cells(sp, a, columns[a], ats[a], n)) <= Sum(columns[a])
    ensures AfterSplit(SplitTo, Zeros(n), Cells(sp, a, columns[a], ats[a], n), ats[a])
      == Cells(sp, a, columns[a], ats[a], n)
  {
    TotalGrows(columns, a + 1, |columns|);
    CellsKeepTotal(sp, a, columns[a], ats[a], n);
    AddedEverywhere(sp, a, columns[a], ats[a], Zeros(n));
  }

  /** The array holds what the columns put into the cells. */
  ghost predicate CompactedInto(values: array<nat>, sp: Splitter, columns: seq<seq<nat>>, ats: seq<seq<nat>>, n: nat)
    reads values
    requires AllCanSplit(sp, ats)
  {
    Shaped(columns, ats) && values[..] == Compacted(sp, columns, ats, n, |ats|)
  }

  /** Each axis's column, split into the cells of the union and merged at the cuts. */
  ghost predicate Pixelated(rows: seq<seq<nat>>, sp: Splitter, columns: seq<seq<nat>>, ats: seq<seq<nat>>, n: nat,
                            cuts: seq<nat>)
    requires AllCanSplit(sp, ats) && IsPartition(cuts, n)
  {
    && Shaped(columns, ats) && |rows| == |ats|
    && forall a :: 0 <= a < |ats| ==> rows[a] == Merged(Cells(sp, a, columns[a], ats[a], n), cuts)
  }

  /** The rows are the sums, between the cuts, of what each axis puts into empty cells. */
  lemma {:induction false} PixelatedExactly(rows: seq<seq<nat>>, sp: Splitter, columns: seq<seq<nat>>,
                                            ats: seq<seq<nat>>, n: nat, cuts: seq<nat>, parts: seq<seq<nat>>)
    requires Shaped(columns, ats) && AllCanSplit(sp, ats) && ArePutIn(sp, columns, ats, n, parts)
    requires IsPartition(cuts, n)
    requires forall b :: 0 <= b < |ats| ==> |ats[b]| >= 2 && Last(ats[b]) <= n
    ensures Pixelated(rows, sp, columns, ats, n, cuts)
      <==> |rows| == |ats| && forall a :: 0 <= a < |ats| ==> rows[a] == Merged(parts[a], cuts)
  {
    hide IsSplit, Cells, Merged, CanSplit;
    forall a | 0 <= a < |ats|
      ensures parts[a] == Cells(sp, a, columns[a], ats[a], n)
    {
      assert PutInAt(sp, columns, ats, n, parts, a);
      PutInIs(sp, a, columns[a], ats[a], n, parts[a]);
    }
  }

  /** No row of a matrix is made of more than was there; where the shares are whole, an axis loses at most one for
      every cell beyond one of each of its buckets. */
  lemma {:induction false} PixelsKeepTotal(rows: seq<seq<nat>>, sp: Splitter, columns: seq<seq<nat>>,
                                           ats: seq<seq<nat>>, n: nat, cuts: seq<nat>, a: nat)
    requires AllCanSplit(sp, ats) && IsPartition(cuts, n) && Pixelated(rows, sp, columns, ats, n, cuts)
    requires a < |ats| && |ats[a]| >= 2 && Last(ats[a]) <= n
    ensures Sum(rows[a]) <= Sum(columns[a])
    ensures Whole(sp, a, ats[a]) ==> Sum(columns[a]) <= Sum(rows[a]) + (Last(ats[a]) - ats[a][0] - (|ats[a]| - 1))
  {
    MergedKeepsTotal(Cells(sp, a, columns[a], ats[a], n), cuts);
    CellsKeepTotal(sp, a, columns[a], ats[a], n);
  }

  /** The rows of a matrix are those that dividing leaves, and no cold ranges of them are merged. */
  lemma {:induction false} PixelCutsExactly(keys: seq<Key>, values: seq<nat>, cross: Crossing, target: int,
                                            cuts: seq<nat>)
    requires 1 <= |values| == |keys| - 1
    ensures target >= 2 ==>
      (PixelCuts(keys, values, cross, target) == Ok(cuts)
       <==> IsDivided(keys, values, cross, target, NotMergeLogicalRange, cuts))
    ensures target == 0 ==>
      (PixelCuts(keys, values, cross, target) == Ok(cuts)
       <==> AllClosed(keys, values, Rule(Sum(values) + 1, 1 - |values|, cross), cuts))
  {
    hide FocusCuts, DivideRule, IsFocus, IsDivision, Sum, AllClosed;
    if target == 0 {
      var rule := Rule(Sum(values) + 1, 1 - |values|, cross);
      DivideExactly(keys, values, cross, target, rule);
      NotMerged(keys, values, rule, target, cuts);
    } else if 2 <= target < |values| {
      DividedExactly(keys, values, cross, target, NotMergeLogicalRange, cuts);
    } else if target >= |values| && IsDivided(keys, values, cross, target, NotMergeLogicalRange, cuts) {
      assert cuts == EveryRow(|values|);
    }
  }

  lemma NotMerged(keys: seq<Key>, values: seq<nat>, rule: Rule, target: int, cuts: seq<nat>)
    requires 1 <= |values| == |keys| - 1
    ensures cuts == FocusCuts(keys, values, rule, target, NotMergeLogicalRange) <==> AllClosed(keys, values, rule, cuts)
  {
    hide FocusCuts, AllClosed;
    FocusExactly(keys, values, rule, target, NotMergeLogicalRange, cuts);
  }

  /** Pixelating panics just when there are more cells than the target and the target is 1 or negative. With
      a target of at least 2, there are at most as many rows, or fewer plus one for each change of class. */
  lemma {:induction false} PixelRows(keys: seq<Key>, values: seq<nat>, cross: Crossing, target: int)
    requires 1 <= |values| == |keys| - 1
    ensures PixelCuts(keys, values, cross, target).Err? <==> target < |values| && (target == 1 || target < 0)
    ensures target >= 2 && Classifies(cross)
        ==> |PixelCuts(keys, values, cross, target).value| - 1 <= target + Changes(keys, cross, |values|)
  {
    DividePanicsExactly(keys, values, cross, target);
    if target >= 2 && Classifies(cross) {
      DivideMeetsTarget(keys, values, cross, target, NotMergeLogicalRange);
    }
  }

  /** Among the keys of the union, the two passes give every axis the exact distance to the nearest axis that
      has the key. */
  lemma {:induction false} UnionDistances(axes: seq<Axis>, keys: seq<Key>, ats: seq<seq<nat>>, i: nat, k: nat)
    requires IsUnion(keys, KeysOf(axes)) && Located(axes, keys, ats) && i < |axes| && k < |keys|
    ensures IsNearest(ats, i, k, BothDis(ats, i, k))
  {
    var b := BoundAt(keys, k);
    assert HasBound(keys, b);
    assert SomeHasBound(KeysOf(axes), b);
    var a :| 0 <= a < |axes| && HasBound(KeysOf(axes)[a], b);
    var m :| 0 <= m < |axes[a].keys| && BoundAt(axes[a].keys, m) == b;
    assert Embeds(keys, axes[a].keys, ats[a]) && LiesAt(keys, axes[a].keys, ats[a], m);
    PlaceOrder(keys, ats[a][m], k);
    TwoPassesAreExact(ats, i, k, a);
  }
}
