/** Splitting the buckets of a chunk among the cells of a finer one (matrix/average.go, matrix/distance.go). */
module Splitters {
  import opened Ints
  import opened Keys
  import opened Partition
  import opened Embeddings
  import opened Scales
  import opened Chunks

  datatype Tag = SplitTo | SplitAdd

  /** Splits evenly, or by the scale of each cell. */
  datatype Splitter = AverageSplitter | DistanceSplitter(scale: seq<seq<real>>)

  /** The scales of bucket `b` are no more than a whole, and a single cell is a whole. */
  ghost predicate ScalesAt(column: seq<real>, at: seq<nat>, b: nat)
    requires b + 1 < |at|
  {
    && at[b] < at[b + 1] <= |column|
    && (forall k :: at[b] <= k < at[b + 1] ==> column[k] >= 0.0)
    && RealSum(column[at[b]..at[b + 1]]) <= 1.0
    && (at[b + 1] == at[b] + 1 ==> column[at[b]] == 1.0)
  }

  /** The splitter can split an axis whose keys lie at `at`. */
  ghost predicate CanSplit(sp: Splitter, axis: nat, at: seq<nat>) {
    sp.DistanceSplitter? ==> axis < |sp.scale| && forall b :: 0 <= b < |at| - 1 ==> ScalesAt(sp.scale[axis], at, b)
  }

  /** The scales of bucket `b` sum to 1. */
  ghost predicate WholeAt(column: seq<real>, at: seq<nat>, b: nat)
    requires b < |at| - 1
  {
    at[b] < at[b + 1] <= |column| && RealSum(column[at[b]..at[b + 1]]) == 1.0
  }

  /** The splitter gives all of a bucket's value to its cells, but for rounding: it splits evenly, or its scales sum
      to 1 in every bucket. */
  ghost predicate Whole(sp: Splitter, axis: nat, at: seq<nat>) {
    sp.DistanceSplitter? ==> axis < |sp.scale| && forall b :: 0 <= b < |at| - 1 ==> WholeAt(sp.scale[axis], at, b)
  }

  /** What a cell gets of the value of the bucket that it is in, which goes from cell `from` to cell `to`. */
  function CellShare(sp: Splitter, axis: nat, value: nat, from: nat, to: nat, k: nat): nat
    requires from < to
    requires sp.DistanceSplitter? ==> axis < |sp.scale| && k < |sp.scale[axis]| && sp.scale[axis][k] >= 0.0
  {
    match sp
    case AverageSplitter => value / (to - from)
    case DistanceSplitter(scale) => Share(value, scale[axis][k])
  }

  /** The bucket that a cell is in. */
  function BucketOf(at: seq<nat>, k: nat): (b: nat)
    requires |at| >= 2 && at[0] <= k < at[|at| - 1]
    ensures b + 1 < |at| && at[b] <= k < at[b + 1]
  {
    if k >= at[|at| - 2] then |at| - 2 else BucketOf(at[..|at| - 1], k)
  }

  lemma BucketIs(at: seq<nat>, k: nat, b: nat)
    requires |at| >= 2 && Increasing(at) && b + 1 < |at| && at[b] <= k < at[b + 1]
    ensures at[0] <= k < at[|at| - 1] && BucketOf(at, k) == b
  {
    InOrder(at, 0, b);
    InOrder(at, b + 1, |at| - 1);
    var c := BucketOf(at, k);
    if c < b {
      InOrder(at, c + 1, b);
    } else if b < c {
      InOrder(at, b + 1, c);
    }
  }

  ghost predicate Inside(at: seq<nat>, k: nat) {
    |at| >= 2 && at[0] <= k < at[|at| - 1]
  }

  /** What cell `k` gets of a column. */
  ghost function Cell(sp: Splitter, axis: nat, values: seq<nat>, at: seq<nat>, k: nat): nat
    requires |values| == |at| - 1 && Increasing(at) && CanSplit(sp, axis, at)
  {
    if !Inside(at, k) then 0
    else
      var b := BucketOf(at, k);
      assert StepsUp(at, b) && (sp.DistanceSplitter? ==> ScalesAt(sp.scale[axis], at, b));
      CellShare(sp, axis, values[b], at[b], at[b + 1], k)
  }

  ghost function Cells(sp: Splitter, axis: nat, values: seq<nat>, at: seq<nat>, n: nat): (cells: seq<nat>)
    requires |values| == |at| - 1 && Increasing(at) && CanSplit(sp, axis, at)
    ensures |cells| == n
  {
    seq(n, k requires 0 <= k < n => Cell(sp, axis, values, at, k))
  }

  /** What the `m`-th cell of a bucket gets. */
  ghost function ShareAt(sp: Splitter, axis: nat, value: nat, at: seq<nat>, b: nat, m: nat): nat
    requires b + 1 < |at| && Increasing(at) && CanSplit(sp, axis, at) && at[b] + m < at[b + 1]
  {
    assert StepsUp(at, b) && (sp.DistanceSplitter? ==> ScalesAt(sp.scale[axis], at, b));
    CellShare(sp, axis, value, at[b], at[b + 1], at[b] + m)
  }

  /** What the cells of one bucket get. */
  ghost function BucketShares(sp: Splitter, axis: nat, value: nat, at: seq<nat>, b: nat): (shares: seq<nat>)
    requires b + 1 < |at| && Increasing(at) && CanSplit(sp, axis, at)
    ensures |shares| == at[b + 1] - at[b]
  {
    assert StepsUp(at, b);
    seq(at[b + 1] - at[b], m requires 0 <= m < at[b + 1] - at[b] => ShareAt(sp, axis, value, at, b, m))
  }

  lemma CellsOfBucket(sp: Splitter, axis: nat, values: seq<nat>, at: seq<nat>, n: nat, b: nat)
    requires |values| == |at| - 1 && Increasing(at) && CanSplit(sp, axis, at)
    requires b + 1 < |at| && at[|at| - 1] <= n
    ensures at[b] <= at[b + 1] <= n
      && Cells(sp, axis, values, at, n)[at[b]..at[b + 1]] == BucketShares(sp, axis, values[b], at, b)
  {
    assert StepsUp(at, b);
    InOrder(at, b + 1, |at| - 1);
    forall m | 0 <= m < at[b + 1] - at[b]
      ensures Cells(sp, axis, values, at, n)[at[b] + m] == BucketShares(sp, axis, values[b], at, b)[m]
    {
      BucketIs(at, at[b] + m, b);
    }
  }

  /** The cells of a bucket get no more than it holds; where the shares are whole, they lose less than one each but for
      one. */
  lemma {:induction false} BucketSharesSum(sp: Splitter, axis: nat, value: nat, at: seq<nat>, b: nat)
    requires b + 1 < |at| && Increasing(at) && CanSplit(sp, axis, at)
    ensures at[b] < at[b + 1] && Sum(BucketShares(sp, axis, value, at, b)) <= value
    ensures Whole(sp, axis, at) ==> value <= Sum(BucketShares(sp, axis, value, at, b)) + (at[b + 1] - at[b] - 1)
  {
    assert StepsUp(at, b);
    if sp.AverageSplitter? {
      EvenShares(sp, axis, value, at, b);
    } else {
      ScaledSharesSum(sp, axis, value, at, b);
    }
  }

  lemma EvenShares(sp: Splitter, axis: nat, value: nat, at: seq<nat>, b: nat)
    requires b + 1 < |at| && Increasing(at) && sp.AverageSplitter? && at[b] < at[b + 1]
    ensures var total := Sum(BucketShares(sp, axis, value, at, b));
      total <= value <= total + (at[b + 1] - at[b] - 1)
  {
    var shares, width := BucketShares(sp, axis, value, at, b), at[b + 1] - at[b];
    forall m | 0 <= m < width
      ensures shares[m] == value / width
    {
      assert shares[m] == ShareAt(sp, axis, value, at, b, m);
    }
    hide Sum, BucketShares;
    SumOfEqual(shares, value / width);
    DivMod(value, width);
  }

  lemma ScaledSharesSum(sp: Splitter, axis: nat, value: nat, at: seq<nat>, b: nat)
    requires b + 1 < |at| && Increasing(at) && CanSplit(sp, axis, at) && sp.DistanceSplitter?
    ensures at[b] < at[b + 1] && Sum(BucketShares(sp, axis, value, at, b)) <= value
    ensures Whole(sp, axis, at) ==> value <= Sum(BucketShares(sp, axis, value, at, b)) + (at[b + 1] - at[b] - 1)
  {
    assert StepsUp(at, b);
    var shares := BucketShares(sp, axis, value, at, b);
    assert ScalesAt(sp.scale[axis], at, b);
    var column := sp.scale[axis][at[b]..at[b + 1]];
    forall m | 0 <= m < |shares|
      ensures shares[m] == Shares(value, column)[m]
    {
      assert column[m] == sp.scale[axis][at[b] + m] && shares[m] == ShareAt(sp, axis, value, at, b, m);
    }
    assert shares == Shares(value, column) && (Whole(sp, axis, at) ==> WholeAt(sp.scale[axis], at, b));
    hide Sum, BucketShares, Shares;
    SharesOfWhole(value, column);
  }

  lemma {:induction false} SumOfEqual(s: seq<nat>, x: nat)
    requires forall i :: 0 <= i < |s| ==> s[i] == x
    ensures Sum(s) == |s| * x
  {
    if s != [] {
      SumOfEqual(s[1..], x);
      assert |s| * x == x + (|s| - 1) * x;
    }
  }

  lemma DivMod(v: nat, w: nat)
    requires w > 0
    ensures w * (v / w) <= v <= w * (v / w) + (w - 1)
  {
  }

  /** Summing a column's cells between its own keys gives each bucket back, but for what splitting rounds
      off: never more than it held, and where the shares are whole less than one for each further cell. */
  lemma {:induction false} BucketsComeBack(sp: Splitter, axis: nat, values: seq<nat>, at: seq<nat>, n: nat, b: nat)
    requires |values| == |at| - 1 && Increasing(at) && CanSplit(sp, axis, at) && b < |values| && at[|at| - 1] <= n
    ensures at[b] < at[b + 1] <= n
    ensures var back := Sum(Cells(sp, axis, values, at, n)[at[b]..at[b + 1]]);
      back <= values[b] && (Whole(sp, axis, at) ==> values[b] < back + (at[b + 1] - at[b]))
  {
    CellsOfBucket(sp, axis, values, at, n, b);
    BucketSharesSum(sp, axis, values[b], at, b);
  }

  /** Reading the cells of a column bucket by bucket. */
  lemma {:induction false} CellsSum(sp: Splitter, axis: nat, values: seq<nat>, at: seq<nat>, n: nat, b: nat)
    requires |values| == |at| - 1 && Increasing(at) && CanSplit(sp, axis, at) && b < |at| && at[|at| - 1] <= n
    ensures at[0] + b <= at[b] <= n
    ensures Sum(Cells(sp, axis, values, at, n)[at[0]..at[b]]) <= Sum(values[..b])
    ensures Whole(sp, axis, at) ==>
      Sum(values[..b]) <= Sum(Cells(sp, axis, values, at, n)[at[0]..at[b]]) + (at[b] - at[0] - b)
    decreases b
  {
    InOrder(at, 0, b);
    InOrder(at, b, |at| - 1);
    if b == 0 {
      assert Cells(sp, axis, values, at, n)[at[0]..at[0]] == [];
    } else {
      CellsSum(sp, axis, values, at, n, b - 1);
      CellsOfBucket(sp, axis, values, at, n, b - 1);
      BucketSharesSum(sp, axis, values[b - 1], at, b - 1);
      hide Sum, BucketShares, CanSplit, Increasing, Cells, Whole;
      SumSplit(Cells(sp, axis, values, at, n), at[0], at[b - 1], at[b]);
      SumExtend(values, 0, b - 1);
      assert values[0..b] == values[..b] && values[0..b - 1] == values[..b - 1];
    }
  }

  lemma {:induction false} SumOfZeros(s: seq<nat>)
    requires forall i :: 0 <= i < |s| ==> s[i] == 0
    ensures Sum(s) == 0
  {
    if s != [] {
      SumOfZeros(s[1..]);
    }
  }

  /** A column's cells hold no more than the column; where the shares are whole, they lose at most one for every cell
      beyond one of each bucket. */
  lemma {:induction false} CellsKeepTotal(sp: Splitter, axis: nat, values: seq<nat>, at: seq<nat>, n: nat)
    requires values != [] && |values| == |at| - 1 && Increasing(at) && CanSplit(sp, axis, at) && at[|at| - 1] <= n
    ensures Sum(Cells(sp, axis, values, at, n)) <= Sum(values)
    ensures at[0] + |values| <= at[|at| - 1]
    ensures Whole(sp, axis, at)
        ==> Sum(values) <= Sum(Cells(sp, axis, values, at, n)) + (at[|at| - 1] - at[0] - |values|)
  {
    var cells, last := Cells(sp, axis, values, at, n), at[|at| - 1];
    CellsSum(sp, axis, values, at, n, |at| - 1);
    assert values[..|at| - 1] == values;
    SumOfZeros(cells[0..at[0]]);
    SumOfZeros(cells[last..n]);
    SumSplit(cells, 0, at[0], n);
    SumSplit(cells, at[0], last, n);
    assert cells[0..n] == cells;
  }

  /** Where every cell is a bucket of its own, splitting gives the column back. */
  lemma {:induction false} FastPathAgrees(sp: Splitter, axis: nat, values: seq<nat>, at: seq<nat>, n: nat)
    requires |values| == |at| - 1 == n && Increasing(at) && CanSplit(sp, axis, at)
    requires forall i :: 0 <= i < |at| ==> at[i] == i
    ensures Cells(sp, axis, values, at, n) == values
  {
    forall k | 0 <= k < n
      ensures Cell(sp, axis, values, at, k) == values[k]
    {
      BucketIs(at, k, k);
      assert sp.DistanceSplitter? ==> ScalesAt(sp.scale[axis], at, k);
      WholeShare(values[k]);
    }
  }

  lemma WholeShare(v: nat)
    ensures Share(v, 1.0) == v && v / 1 == v
  {
  }

  // ---------------------------------------------------------------- what every cell gets

  /** `c` is the cell's share: an equal one of the bucket's cells, or what the cell's own scale gives, rounded down. */
  ghost predicate IsShare(sp: Splitter, axis: nat, value: nat, from: nat, to: nat, k: nat, c: int)
    requires from <= k < to
  {
    match sp
    case AverageSplitter => c == value / (to - from)
    case DistanceSplitter(scale) =>
      && axis < |scale| && k < |scale[axis]|
      && c as real <= value as real * scale[axis][k] < c as real + 1.0
  }

  /** What a cell has got that held `before` and holds `after`: all of it, or what was added. */
  function Got(tag: Tag, before: int, after: int): int {
    if tag == SplitTo then after else after - before
  }

  /** Every cell of the bucket has got its share. */
  ghost predicate BucketSplit(sp: Splitter, axis: nat, tag: Tag, column: seq<nat>, value: nat, from: nat, to: nat,
                              after: seq<nat>)
  {
    && from < to <= |column| == |after|
    && forall k :: from <= k < to ==>
      IsShare(sp, axis, value, from, to, k, Got(tag, column[k], after[k]))
  }

  /** Bucket by bucket, the cells have got their shares; cells outside the axis are as they were. */
  ghost predicate IsSplit(sp: Splitter, axis: nat, tag: Tag, column: seq<nat>, values: seq<nat>, at: seq<nat>,
                          after: seq<nat>)
  {
    && |after| == |column| && |values| == |at| - 1
    && (forall k :: 0 <= k < |column| && (k < at[0] || k >= at[|at| - 1]) ==> after[k] == column[k])
    && forall b :: 0 <= b < |values| ==> BucketSplit(sp, axis, tag, column, values[b], at[b], at[b + 1], after)
  }

  /** A split is just that. */
  lemma {:induction false} SplitExactly(sp: Splitter, axis: nat, tag: Tag, column: seq<nat>, values: seq<nat>,
                                        at: seq<nat>, after: seq<nat>)
    requires values != [] && |values| == |at| - 1 && Increasing(at) && CanSplit(sp, axis, at)
    requires at[|at| - 1] <= |column|
    ensures after == AfterSplit(tag, column, Cells(sp, axis, values, at, |column|), at)
      <==> IsSplit(sp, axis, tag, column, values, at, after)
  {
    hide CanSplit, Increasing, Cell;
    var own := AfterSplit(tag, column, Cells(sp, axis, values, at, |column|), at);
    forall b | 0 <= b < |values|
      ensures BucketSplit(sp, axis, tag, column, values[b], at[b], at[b + 1], own)
    {
      OwnBucket(sp, axis, tag, column, values, at, b);
    }
    if IsSplit(sp, axis, tag, column, values, at, after) {
      forall k | 0 <= k < |column|
        ensures after[k] == own[k]
      {
        if Inside(at, k) {
          var b := BucketOf(at, k);
          assert BucketSplit(sp, axis, tag, column, values[b], at[b], at[b + 1], after);
          assert BucketSplit(sp, axis, tag, column, values[b], at[b], at[b + 1], own);
          OneShare(sp, axis, values[b], at[b], at[b + 1], k, Got(tag, column[k], after[k]),
            Got(tag, column[k], own[k]));
        }
      }
    }
  }

  lemma OwnBucket(sp: Splitter, axis: nat, tag: Tag, column: seq<nat>, values: seq<nat>, at: seq<nat>, b: nat)
    requires |values| == |at| - 1 && Increasing(at) && CanSplit(sp, axis, at) && at[|at| - 1] <= |column|
    requires b < |values|
    ensures BucketSplit(sp, axis, tag, column, values[b], at[b], at[b + 1],
      AfterSplit(tag, column, Cells(sp, axis, values, at, |column|), at))
  {
    hide CanSplit, Cell;
    assert StepsUp(at, b);
    InOrder(at, b + 1, |at| - 1);
    var own := AfterSplit(tag, column, Cells(sp, axis, values, at, |column|), at);
    forall k | at[b] <= k < at[b + 1]
      ensures IsShare(sp, axis, values[b], at[b], at[b + 1], k, Got(tag, column[k], own[k]))
    {
      ShareBounded(sp, axis, values, at, b, k);
      ShareIs(sp, axis, values[b], at[b], at[b + 1], k);
    }
  }

  lemma ShareIs(sp: Splitter, axis: nat, value: nat, from: nat, to: nat, k: nat)
    requires from <= k < to
    requires sp.DistanceSplitter? ==> axis < |sp.scale| && k < |sp.scale[axis]| && sp.scale[axis][k] >= 0.0
    ensures IsShare(sp, axis, value, from, to, k, CellShare(sp, axis, value, from, to, k))
  {
  }

  lemma OneShare(sp: Splitter, axis: nat, value: nat, from: nat, to: nat, k: nat, c: int, d: int)
    requires from <= k < to && IsShare(sp, axis, value, from, to, k, c) && IsShare(sp, axis, value, from, to, k, d)
    ensures c == d
  {
  }

  // ---------------------------------------------------------------- the method

  /** A chunk's column after a split: what a cell gets replaces its value or is added to it. */
  ghost function AfterSplit(tag: Tag, column: seq<nat>, cells: seq<nat>, at: seq<nat>): (r: seq<nat>)
    requires |cells| == |column|
    ensures |r| == |column|
  {
    seq(|column|, k requires 0 <= k < |column| =>
      if !Inside(at, k) then column[k] else if tag == SplitTo then cells[k] else column[k] + cells[k])
  }

  /** Shares one value out among the cells of its bucket. */
  method FillBucket(sp: Splitter, axesIndex: nat, tag: Tag, cells: array<nat>, value: nat, start: nat, end: nat)
    requires start < end <= cells.Length
    requires sp.DistanceSplitter? ==> axesIndex < |sp.scale| && end <= |sp.scale[axesIndex]|
    requires sp.DistanceSplitter? ==> forall k :: start <= k < end ==> 0.0 <= sp.scale[axesIndex][k]
    requires forall k :: start <= k < end ==> cells[k] + CellShare(sp, axesIndex, value, start, end, k) < TWO_TO_THE_64
    modifies cells
    ensures forall k :: 0 <= k < cells.Length && !(start <= k < end) ==> cells[k] == old(cells[k])
    ensures forall k :: start <= k < end ==>
      cells[k] == CellShare(sp, axesIndex, value, start, end, k) + if tag == SplitTo then 0 else old(cells[k])
  {
    for k := start to end
      invariant forall j :: 0 <= j < cells.Length && !(start <= j < k) ==> cells[j] == old(cells[j])
      invariant forall j :: start <= j < k ==>
        cells[j] == CellShare(sp, axesIndex, value, start, end, j) + if tag == SplitTo then 0 else old(cells[j])
    {
      var share := CellShare(sp, axesIndex, value, start, end, k);
      var sum: uint64 := cells[k] + share;
      cells[k] := if tag == SplitTo then share else sum;
    }
  }

  /** A cell's share is at most the value of its bucket, so adding it keeps within the totals. */
  lemma {:induction false} ShareBounded(sp: Splitter, axis: nat, values: seq<nat>, at: seq<nat>, b: nat, k: nat)
    requires |values| == |at| - 1 && Increasing(at) && CanSplit(sp, axis, at)
    requires b < |values| && at[b] <= k < at[b + 1]
    ensures sp.DistanceSplitter? ==> axis < |sp.scale| && at[b + 1] <= |sp.scale[axis]| && 0.0 <= sp.scale[axis][k]
    ensures Inside(at, k)
      && Cell(sp, axis, values, at, k) == CellShare(sp, axis, values[b], at[b], at[b + 1], k)
      && Cell(sp, axis, values, at, k) <= values[b] <= Sum(values)
  {
    BucketIs(at, k, b);
    assert sp.DistanceSplitter? ==> ScalesAt(sp.scale[axis], at, b);
    BucketSharesSum(sp, axis, values[b], at, b);
    ElementWithin(values, b);
    ElementWithin(BucketShares(sp, axis, values[b], at, b), k - at[b]);
    assert BucketShares(sp, axis, values[b], at, b)[k - at[b]] == ShareAt(sp, axis, values[b], at, b, k - at[b]);
  }

  ghost predicate DoneBelow(tag: Tag, sp: Splitter, axis: nat, column: seq<nat>, values: seq<nat>, at: seq<nat>,
                            cells: seq<nat>, n: nat)
    requires |values| == |at| - 1 && Increasing(at) && CanSplit(sp, axis, at)
  {
    |cells| == |column| && forall k :: 0 <= k < |cells| ==>
      cells[k] == if k < n then AfterSplit(tag, column, Cells(sp, axis, values, at, |column|), at)[k] else column[k]
  }

  /** The general path: walks the cells of one bucket after the other. */
  method SplitBuckets(sp: Splitter, axesIndex: nat, tag: Tag, dstKeys: seq<Key>, cells: array<nat>, srcKeys: seq<Key>,
                      values: seq<nat>, ghost at: seq<nat>)
    requires Embeds(dstKeys, srcKeys, at) && |dstKeys| == cells.Length + 1 && |values| == |at| - 1
      && CanSplit(sp, axesIndex, at)
    requires Sum(cells[..]) + Sum(values) < TWO_TO_THE_64
    modifies cells
    ensures cells[..] == AfterSplit(tag, old(cells[..]), Cells(sp, axesIndex, values, at, cells.Length), at)
  {
    ghost var column := cells[..];
    var start := FindKey(dstKeys, srcKeys, 0, 0, at);
    var end := start + 1;
    for i := 0 to |srcKeys| - 1
      invariant start == at[i] && end == start + 1
      invariant DoneBelow(tag, sp, axesIndex, column, values, at, cells[..], start)
    {
      assert StepsUp(at, i);
      end := FindKey(dstKeys, srcKeys, i + 1, end, at);
      ghost var before := cells[..];
      BucketReady(tag, sp, axesIndex, column, values, at, before, i);
      FillBucket(sp, axesIndex, tag, cells, values[i], start, end);
      BucketDone(tag, sp, axesIndex, column, values, at, before, i, cells[..]);
      start := end;
      end := end + 1;
    }
    AllDone(tag, sp, axesIndex, column, values, at, cells[..]);
  }

  lemma {:induction false} BucketReady(tag: Tag, sp: Splitter, axis: nat, column: seq<nat>, values: seq<nat>,
                                       at: seq<nat>, before: seq<nat>, b: nat)
    requires |values| == |at| - 1 && Increasing(at) && CanSplit(sp, axis, at) && b < |values|
    requires DoneBelow(tag, sp, axis, column, values, at, before, at[b])
    requires at[b + 1] <= |before| && Sum(column) + Sum(values) < TWO_TO_THE_64
    ensures at[b] < at[b + 1]
    ensures sp.DistanceSplitter? ==> axis < |sp.scale| && at[b + 1] <= |sp.scale[axis]|
    ensures sp.DistanceSplitter? ==> forall k :: at[b] <= k < at[b + 1] ==> 0.0 <= sp.scale[axis][k]
    ensures forall k :: at[b] <= k < at[b + 1] ==>
      before[k] + CellShare(sp, axis, values[b], at[b], at[b + 1], k) < TWO_TO_THE_64
  {
    assert StepsUp(at, b);
    assert sp.DistanceSplitter? ==> ScalesAt(sp.scale[axis], at, b);
    forall k | at[b] <= k < at[b + 1]
      ensures before[k] + CellShare(sp, axis, values[b], at[b], at[b + 1], k) < TWO_TO_THE_64
    {
      ShareBounded(sp, axis, values, at, b, k);
      ElementWithin(column, k);
    }
  }

  lemma {:induction false} BucketDone(tag: Tag, sp: Splitter, axis: nat, column: seq<nat>, values: seq<nat>,
                                      at: seq<nat>, before: seq<nat>, b: nat,
                   after: seq<nat>)
    requires |values| == |at| - 1 && Increasing(at) && CanSplit(sp, axis, at) && b < |values|
      && at[b] < at[b + 1] <= |before| == |after|
    requires DoneBelow(tag, sp, axis, column, values, at, before, at[b])
    requires sp.DistanceSplitter? ==> axis < |sp.scale| && at[b + 1] <= |sp.scale[axis]|
    requires sp.DistanceSplitter? ==> forall k :: at[b] <= k < at[b + 1] ==> 0.0 <= sp.scale[axis][k]
    requires forall k :: 0 <= k < |after| && !(at[b] <= k < at[b + 1]) ==> after[k] == before[k]
    requires forall k :: at[b] <= k < at[b + 1] ==>
      after[k] == CellShare(sp, axis, values[b], at[b], at[b + 1], k) + if tag == SplitTo then 0 else before[k]
    ensures DoneBelow(tag, sp, axis, column, values, at, after, at[b + 1])
  {
    forall k | 0 <= k < |after|
      ensures after[k]
        == if k < at[b + 1] then AfterSplit(tag, column, Cells(sp, axis, values, at, |column|), at)[k] else column[k]
    {
      if at[b] <= k < at[b + 1] {
        ShareBounded(sp, axis, values, at, b, k);
      }
    }
  }

  lemma AllDone(tag: Tag, sp: Splitter, axis: nat, column: seq<nat>, values: seq<nat>, at: seq<nat>, cells: seq<nat>)
    requires |values| == |at| - 1 && at != [] && Increasing(at) && CanSplit(sp, axis, at)
    requires DoneBelow(tag, sp, axis, column, values, at, cells, at[|at| - 1])
    ensures cells == AfterSplit(tag, column, Cells(sp, axis, values, at, |column|), at)
  {
  }

  /** Splits a chunk's column into the cells of another, replacing or adding to what they hold. */
  method Split(sp: Splitter, dst: Chunk, src: Chunk, tag: Tag, axesIndex: nat, ghost at: seq<nat>)
    requires dst.Valid() && src.Valid() && dst.values != src.values && Embeds(dst.keys, src.keys, at)
      && CanSplit(sp, axesIndex, at)
    requires Sum(dst.values[..]) + Sum(src.values[..]) < TWO_TO_THE_64
    modifies dst.values
    ensures dst.values[..]
      == AfterSplit(tag, old(dst.values[..]), Cells(sp, axesIndex, src.values[..], at, dst.values.Length), at)
    ensures IsSplit(sp, axesIndex, tag, old(dst.values[..]), src.values[..], at, dst.values[..])
  {
    ghost var column, values := dst.values[..], src.values[..];
    EmbeddingBounds(dst.keys, src.keys, at, |at| - 1);
    SplitExactly(sp, axesIndex, tag, column, values, at,
      AfterSplit(tag, column, Cells(sp, axesIndex, values, at, |column|), at));
    hide IsSplit;
    EmbeddedPassesCheck(dst.keys, src.keys, at);
    if |dst.keys| == |src.keys| {
      SplitEqual(sp, axesIndex, tag, dst, src, at);
    } else {
      SplitBuckets(sp, axesIndex, tag, dst.keys, dst.values, src.keys, src.values[..], at);
    }
  }

  /** The fast path for chunks with the same keys. */
  method SplitEqual(sp: Splitter, axesIndex: nat, tag: Tag, dst: Chunk, src: Chunk, ghost at: seq<nat>)
    requires dst.Valid() && src.Valid() && dst.values != src.values && Embeds(dst.keys, src.keys, at)
      && CanSplit(sp, axesIndex, at)
    requires Sum(dst.values[..]) + Sum(src.values[..]) < TWO_TO_THE_64 && |dst.keys| == |src.keys|
    modifies dst.values
    ensures dst.values[..]
      == AfterSplit(tag, old(dst.values[..]), Cells(sp, axesIndex, src.values[..], at, dst.values.Length), at)
  {
    ghost var column, values := dst.values[..], src.values[..];
    SameLengthSameKeys(dst.keys, src.keys, at);
    FastPathAgrees(sp, axesIndex, values, at, dst.values.Length);
    WholeResult(tag, column, values, at);
    hide Embeds, CanSplit, Increasing, Cells, AfterSplit, Sum;
    if tag == SplitTo {
      Copy(dst.values, src.values);
    } else {
      AddAll(dst.values, src.values);
    }
  }

  /** Where every cell is a bucket of its own, all cells are replaced or added to. */
  lemma WholeResult(tag: Tag, column: seq<nat>, cells: seq<nat>, at: seq<nat>)
    requires |cells| == |column| == |at| - 1 && |at| >= 2 && forall i :: 0 <= i < |at| ==> at[i] == i
    ensures AfterSplit(tag, column, cells, at) == if tag == SplitTo then cells else Plus(column, cells)
  {
  }

  function Plus(a: seq<nat>, b: seq<nat>): (r: seq<nat>)
    requires |a| == |b|
    ensures |r| == |a|
  {
    seq(|a|, i requires 0 <= i < |a| => a[i] + b[i])
  }

  method AddAll(dst: array<nat>, src: array<nat>)
    requires dst != src && dst.Length == src.Length && Sum(dst[..]) + Sum(src[..]) < TWO_TO_THE_64
    modifies dst
    ensures dst[..] == Plus(old(dst[..]), src[..])
  {
    ghost var column, values := dst[..], src[..];
    for i := 0 to src.Length
      invariant forall k :: 0 <= k < i ==> dst[k] == old(dst[k]) + src[k]
      invariant forall k :: i <= k < dst.Length ==> dst[k] == column[k]
    {
      ElementWithin(column, i);
      ElementWithin(values, i);
      var sum: uint64 := dst[i] + src[i];
      dst[i] := sum;
    }
  }
}
