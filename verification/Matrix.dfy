/** The matrix that is displayed, cut to the range of keys that was asked for (matrix/matrix.go). */
module Matrices {
  import opened Wrappers
  import opened Keys
  import opened Partition
  import opened Embeddings
  import opened Unions
  import opened Splitters
  import opened FocusPlan
  import opened Axes
  import opened Planes

  /** One value for each row, in every column. */
  ghost predicate IsMatrix(mx: Matrix) {
    IsAxis(mx.keys)
    && forall j, i :: 0 <= j < |mx.data| && 0 <= i < |mx.data[j]| ==> |mx.data[j][i]| == |mx.keys| - 1
  }

  function CutColumns(data: seq<seq<nat>>, start: nat, end: nat): (r: seq<seq<nat>>)
    requires start < end && forall i :: 0 <= i < |data| ==> end <= |data[i]| + 1
    ensures |r| == |data|
  {
    seq(|data|, i requires 0 <= i < |data| => data[i][start..end - 1])
  }

  /** `r` is the rows of the matrix from `start` to the one before key `end - 1`. */
  ghost predicate IsRowsOf(r: Matrix, mx: Matrix, start: nat, end: nat)
    requires IsMatrix(mx)
  {
    && start + 2 <= end <= |mx.keys| && r.keys == mx.keys[start..end] && |r.data| == |mx.data|
    && forall j :: 0 <= j < |mx.data| ==> r.data[j] == CutColumns(mx.data[j], start, end)
  }

  /** The rows from `start` to the one before key `end - 1` are exactly those that meet the window. */
  ghost predicate Selects(keys: seq<Key>, startKey: Key, endKey: Key, start: nat, end: nat) {
    forall i :: 0 <= i < |keys| - 1 ==> (Meets(keys, i, startKey, endKey) <==> start <= i < end - 1)
  }

  method CutAll(data: seq<seq<nat>>, start: nat, end: nat) returns (r: seq<seq<nat>>)
    requires start < end && forall i :: 0 <= i < |data| ==> end <= |data[i]| + 1
    ensures r == CutColumns(data, start, end)
  {
    r := data;
    for i := 0 to |data|
      invariant |r| == |data|
      invariant forall k :: 0 <= k < i ==> r[k] == data[k][start..end - 1]
      invariant forall k :: i <= k < |data| ==> r[k] == data[k]
    {
      r := r[i := r[i][start..end - 1]];
    }
  }

  /** The rows that meet a window. It panics if there are none, or if the window is empty. */
  method Range(mx: Matrix, startKey: Key, endKey: Key) returns (r: Option<Matrix>)
    requires IsMatrix(mx)
    ensures r.Some? <==> BoundLess(Fin(startKey), EndBound(endKey)) && SomeMeets(mx.keys, startKey, endKey)
    ensures r.Some? ==> IsMatrix(r.value)
    ensures r.Some? ==>
      exists start, end :: IsRowsOf(r.value, mx, start, end) && Selects(mx.keys, startKey, endKey, start, end)
  {
    hide Meets;
    var range := KeysRange(mx.keys, startKey, endKey);
    if !range.Selected? {
      return None;
    }
    var start, end := range.start, range.end;
    assert Meets(mx.keys, start, startKey, endKey);
    var dataMap := mx.data;
    for j := 0 to |mx.data|
      invariant |dataMap| == |mx.data|
      invariant forall k :: 0 <= k < j ==> dataMap[k] == CutColumns(mx.data[k], start, end)
      invariant forall k :: j <= k < |mx.data| ==> dataMap[k] == mx.data[k]
    {
      var data := CutAll(dataMap[j], start, end);
      dataMap := dataMap[j := data];
    }
    PartIsAxis(mx.keys, start, end);
    var cut := Matrix(mx.keys[start..end], dataMap);
    assert IsRowsOf(cut, mx, start, end) && Selects(mx.keys, startKey, endKey, start, end);
    r := Some(cut);
  }

  ghost predicate SomeMeets(keys: seq<Key>, startKey: Key, endKey: Key) {
    exists i :: 0 <= i < |keys| - 1 && Meets(keys, i, startKey, endKey)
  }

  // ---------------------------------------------------------------- why it does not panic

  /** A key between the first and the last bound lies in some bucket. */
  lemma {:induction false} InSomeBucket(keys: seq<Key>, k: Key, n: nat) returns (i: nat)
    requires IsAxis(keys) && 0 < n < |keys| && Between(k, BoundAt(keys, 0), BoundAt(keys, n))
    ensures i < n && Between(k, BoundAt(keys, i), BoundAt(keys, i + 1))
  {
    if BoundLess(Fin(k), BoundAt(keys, n - 1)) {
      if n == 1 {
        assert false;
      } else {
        i := InSomeBucket(keys, k, n - 1);
      }
    } else {
      i := n - 1;
    }
  }

  /** The bounds of an axis lie between the first and the last bound of a union that it is part of. */
  lemma UnionReaches(keys: seq<Key>, axes: seq<seq<Key>>, a: nat, i: nat, k: Key)
    requires IsUnion(keys, axes) && a < |axes| && IsAxis(axes[a]) && i + 1 < |axes[a]|
    requires Between(k, BoundAt(axes[a], i), BoundAt(axes[a], i + 1))
    ensures Between(k, BoundAt(keys, 0), BoundAt(keys, |keys| - 1))
  {
    var lo, hi, last := BoundAt(axes[a], i), BoundAt(axes[a], i + 1), |keys| - 1;
    assert HasBound(axes[a], lo) && HasBound(axes[a], hi);
    assert SomeHasBound(axes, lo) && SomeHasBound(axes, hi);
    var p :| 0 <= p < |keys| && BoundAt(keys, p) == lo;
    var q :| 0 <= q < |keys| && BoundAt(keys, q) == hi;
    PlaceOrder(keys, 0, p);
    PlaceOrder(keys, q, last);
    BoundOrder(Fin(k), BoundAt(keys, 0), lo);
    BoundOrder(BoundAt(keys, 0), lo, Fin(k));
    BoundOrder(Fin(k), hi, BoundAt(keys, last));
  }

  /** The rows of a matrix that is made of axes which meet a window meet it too: cutting the matrix to the window
      never panics. */
  lemma RowsMeet(keys: seq<Key>, axes: seq<seq<Key>>, rowKeys: seq<Key>, cuts: seq<nat>, startKey: Key, endKey: Key)
    requires IsUnion(keys, axes) && Coarsens(rowKeys, keys, cuts)
    requires axes != [] && IsAxis(axes[0]) && AllMeet(axes[0], startKey, endKey)
    ensures IsAxis(rowKeys) && SomeMeets(rowKeys, startKey, endKey)
  {
    CoarseIsAxis(rowKeys, keys, cuts);
    assert Meets(axes[0], 0, startKey, endKey);
    var k: Key :| Between(k, BoundAt(axes[0], 0), BoundAt(axes[0], 1)) && Between(k, Fin(startKey), EndBound(endKey));
    UnionReaches(keys, axes, 0, 0, k);
    var i := InSomeBucket(rowKeys, k, |rowKeys| - 1);
    assert Meets(rowKeys, i, startKey, endKey);
  }

  /** Pixelating axes that were cut to a window gives a matrix that can be cut to it. */
  lemma {:induction false} PixelCanBeCut(r: Result<Matrix, Panic>, axes: seq<Axis>, keys: seq<Key>, cuts: seq<nat>,
                                         sp: Splitter, columns: seq<seq<seq<nat>>>, ats: seq<seq<nat>>,
                                         startKey: Key, endKey: Key)
    requires |keys| >= 2 && IsPartition(cuts, |keys| - 1) && AllCanSplit(sp, ats)
    requires IsUnion(keys, KeysOf(axes)) && IsPixel(r, keys, cuts, sp, columns, ats)
    requires axes != [] && IsAxis(axes[0].keys) && AllMeet(axes[0].keys, startKey, endKey)
    ensures IsMatrix(r.value) && SomeMeets(r.value.keys, startKey, endKey)
  {
    RowsMeet(keys, KeysOf(axes), r.value.keys, cuts, startKey, endKey);
    var mx := r.value;
    forall j, i | 0 <= j < |mx.data| && 0 <= i < |mx.data[j]|
      ensures |mx.data[j][i]| == |mx.keys| - 1
    {
      assert Pixelated(mx.data[j], sp, columns[j], ats, |keys| - 1, cuts);
    }
  }
}
