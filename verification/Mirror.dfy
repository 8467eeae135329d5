/** The table keeps pace with the layers, and determines them. */
module Mirrors {
  import opened Layers
  import opened LayerRange
  import opened Databases

  /** `t` is the start time of the layer, or the time of one of its entries. */
  ghost predicate IsBound<A>(l: Layer<A>, t: Time) {
    exists i :: 0 <= i <= |l.queue| && TimeBefore(l.startTime, l.queue, i) == t
  }

  ghost predicate RowAt<A>(rows: Rows<A>, k: nat, l: Layer<A>, i: nat)
    requires i < |l.queue|
  {
    (k, l.queue[i].time) in rows && rows[(k, l.queue[i].time)] == l.queue[i].axis
  }

  /** The rows of layer `k` are one for its start time and one for each of its entries. */
  ghost predicate MirrorsLayer<A>(rows: Rows<A>, k: nat, l: Layer<A>) {
    && (forall t :: (k, t) in rows <==> IsBound(l, t))
    && (forall i :: 0 <= i < |l.queue| ==> RowAt(rows, k, l, i))
  }

  /** The rows of layers `k`, `k + 1` and so on mirror the given layers. */
  ghost predicate Mirror<A>(rows: Rows<A>, k: nat, layers: seq<Layer<A>>)
    decreases |layers|
  {
    layers == [] || (MirrorsLayer(rows, k, layers[0]) && Mirror(rows, k + 1, layers[1..]))
  }

  /** Two tables have the same rows for layer `k`. */
  ghost predicate SameRows<A>(a: Rows<A>, b: Rows<A>, k: nat) {
    forall t :: ((k, t) in a <==> (k, t) in b) && ((k, t) in a && (k, t) in b ==> a[(k, t)] == b[(k, t)])
  }

  lemma SameRowsTransitive<A>(a: Rows<A>, b: Rows<A>, c: Rows<A>, k: nat)
    requires SameRows(a, b, k) && SameRows(b, c, k)
    ensures SameRows(a, c, k)
  {
  }

  lemma SameRowsMirror<A>(a: Rows<A>, b: Rows<A>, k: nat, l: Layer<A>)
    requires SameRows(a, b, k) && MirrorsLayer(a, k, l)
    ensures MirrorsLayer(b, k, l)
  {
    forall i | 0 <= i < |l.queue|
      ensures RowAt(b, k, l, i)
    {
      assert RowAt(a, k, l, i);
    }
  }

  lemma {:induction false} MirrorOfSameRows<A>(a: Rows<A>, b: Rows<A>, k: nat, layers: seq<Layer<A>>)
    requires Mirror(a, k, layers) && forall m: nat :: k <= m < k + |layers| ==> SameRows(a, b, m)
    ensures Mirror(b, k, layers)
    decreases |layers|
  {
    if layers != [] {
      SameRowsMirror(a, b, k, layers[0]);
      MirrorOfSameRows(a, b, k + 1, layers[1..]);
    }
  }

  /** Giving up one entry deletes the row of the start time; the next row takes its place. */
  lemma PopKeepsMirror<A>(rows: Rows<A>, k: nat, l: Layer<A>)
    requires MirrorsLayer(rows, k, l) && l.queue != [] && Rising(l.startTime, l.queue)
    ensures MirrorsLayer(Deleted(rows, k, l.startTime), k, Layer(l.queue[0].time, l.queue[1..]))
  {
    var after, next := Deleted(rows, k, l.startTime), Layer(l.queue[0].time, l.queue[1..]);
    forall t
      ensures (k, t) in after <==> IsBound(next, t)
    {
      if IsBound(next, t) {
        var i :| 0 <= i <= |next.queue| && TimeBefore(next.startTime, next.queue, i) == t;
        assert TimeBefore(l.startTime, l.queue, i + 1) == t;
        RisesBetween(l.startTime, l.queue, 0, i + 1);
      }
      if (k, t) in after {
        var i :| 0 <= i <= |l.queue| && TimeBefore(l.startTime, l.queue, i) == t;
        assert TimeBefore(next.startTime, next.queue, i - 1) == t;
      }
    }
    forall i | 0 <= i < |next.queue|
      ensures RowAt(after, k, next, i)
    {
      assert RowAt(rows, k, l, i + 1);
      RisesBetween(l.startTime, l.queue, 0, i + 2);
    }
  }

  lemma {:induction false} PopsKeepMirror<A>(rows: Rows<A>, k: nat, l: Layer<A>, n: nat)
    requires MirrorsLayer(rows, k, l) && n <= |l.queue| && Rising(l.startTime, l.queue)
    ensures MirrorsLayer(Popped(rows, k, l, n), k, Layer(TimeBefore(l.startTime, l.queue, n), l.queue[n..]))
    ensures forall m: nat :: m != k ==> SameRows(rows, Popped(rows, k, l, n), m)
  {
    if n == 0 {
      assert l.queue[0..] == l.queue;
    } else {
      PopsKeepMirror(rows, k, l, n - 1);
      RisingSuffix(l.startTime, l.queue, n - 1);
      var before := Layer(TimeBefore(l.startTime, l.queue, n - 1), l.queue[n - 1..]);
      PopKeepsMirror(Popped(rows, k, l, n - 1), k, before);
      assert before.queue[1..] == l.queue[n..];
      forall m: nat | m != k
        ensures SameRows(rows, Popped(rows, k, l, n), m)
      {
        assert SameRows(rows, Popped(rows, k, l, n - 1), m);
      }
    }
  }

  /** An entry later than all others has no row yet. */
  lemma NewEntryHasNoRow<A>(rows: Rows<A>, k: nat, l: Layer<A>, e: Entry<A>)
    requires MirrorsLayer(rows, k, l) && Rising(l.startTime, l.queue) && l.EndTime() < e.time
    ensures (k, e.time) !in rows && Inserted(rows, k, e) == rows[(k, e.time) := e.axis]
  {
    forall i | 0 <= i <= |l.queue|
      ensures TimeBefore(l.startTime, l.queue, i) < e.time
    {
      RisesBetween(l.startTime, l.queue, i, |l.queue|);
    }
  }

  /** Adding an entry later than all others adds its row. */
  lemma PushKeepsMirror<A>(rows: Rows<A>, k: nat, l: Layer<A>, e: Entry<A>)
    requires MirrorsLayer(rows, k, l) && Rising(l.startTime, l.queue) && l.EndTime() < e.time
    ensures MirrorsLayer(Inserted(rows, k, e), k, Layer(l.startTime, l.queue + [e]))
    ensures forall m: nat :: m != k ==> SameRows(rows, Inserted(rows, k, e), m)
  {
    var next := Layer(l.startTime, l.queue + [e]);
    forall i | 0 <= i <= |l.queue|
      ensures TimeBefore(l.startTime, l.queue, i) < e.time
      ensures TimeBefore(next.startTime, next.queue, i) == TimeBefore(l.startTime, l.queue, i)
    {
      RisesBetween(l.startTime, l.queue, i, |l.queue|);
    }
    var after := Inserted(rows, k, e);
    NewEntryHasNoRow(rows, k, l, e);
    forall t
      ensures (k, t) in after <==> IsBound(next, t)
    {
      assert TimeBefore(next.startTime, next.queue, |l.queue| + 1) == e.time;
      if IsBound(l, t) {
        var i :| 0 <= i <= |l.queue| && TimeBefore(l.startTime, l.queue, i) == t;
        assert TimeBefore(next.startTime, next.queue, i) == t;
      }
      if IsBound(next, t) && t != e.time {
        var i :| 0 <= i <= |next.queue| && TimeBefore(next.startTime, next.queue, i) == t;
        assert TimeBefore(l.startTime, l.queue, i) == t;
      }
    }
    forall i | 0 <= i < |next.queue|
      ensures RowAt(after, k, next, i)
    {
      assert i < |l.queue| ==> RowAt(rows, k, l, i);
    }
  }

  /** Appending keeps the table a mirror of the layers, and leaves other layers' rows alone. */
  lemma {:induction false} AppendKeepsMirror<A>(cfgs: seq<Config<A>>, layers: seq<Layer<A>>, k: nat, rows: Rows<A>,
                                                e: Entry<A>)
    requires |cfgs| == |layers| && layers != [] && WellConfigured(cfgs) && Coherent(cfgs, layers)
    requires Mirror(rows, k, layers) && layers[0].EndTime() < e.time
    ensures Mirror(StoreAppend(cfgs, layers, k, rows, e), k, Append(cfgs, layers, e))
    ensures forall m: nat :: m < k || m >= k + |layers| ==> SameRows(rows, StoreAppend(cfgs, layers, k, rows, e), m)
    decreases |layers|, 1
  {
    var room, kept := layers, rows;
    if |layers[0].queue| == cfgs[0].len {
      ReduceKeepsMirror(cfgs, layers, k, rows);
      room, kept := Reduce(cfgs, layers), StoreReduce(cfgs, layers, k, rows);
    }
    PushKeepsMirror(kept, k, room[0], e);
    MirrorOfSameRows(kept, Inserted(kept, k, e), k + 1, room[1..]);
    forall m: nat | m < k || m >= k + |layers|
      ensures SameRows(rows, Inserted(kept, k, e), m)
    {
      SameRowsTransitive(rows, kept, Inserted(kept, k, e), m);
    }
  }

  lemma {:induction false} ReduceKeepsMirror<A>(cfgs: seq<Config<A>>, layers: seq<Layer<A>>, k: nat, rows: Rows<A>)
    requires |cfgs| == |layers| && layers != [] && WellConfigured(cfgs) && Coherent(cfgs, layers)
    requires Mirror(rows, k, layers) && |layers[0].queue| == cfgs[0].len
    ensures Mirror(StoreReduce(cfgs, layers, k, rows), k, Reduce(cfgs, layers))
    ensures Rising(Reduce(cfgs, layers)[0].startTime, Reduce(cfgs, layers)[0].queue)
    ensures Reduce(cfgs, layers)[0].EndTime() == layers[0].EndTime()
    ensures forall m: nat :: m < k || m >= k + |layers| ==> SameRows(rows, StoreReduce(cfgs, layers, k, rows), m)
    decreases |layers|, 0
  {
    var l, n := layers[0], if IsSink(cfgs) then 1 else cfgs[0].ratio;
    var popped := Popped(rows, k, l, n);
    PopsKeepMirror(rows, k, l, n);
    RisingSuffix(l.startTime, l.queue, n);
    MirrorOfSameRows(rows, popped, k + 1, layers[1..]);
    if !IsSink(cfgs) {
      var passed := Folded(cfgs[0], l.queue[..n]);
      RisesBetween(l.startTime, l.queue, 0, n);
      AppendKeepsMirror(cfgs[1..], layers[1..], k + 1, popped, passed);
      SameRowsMirror(popped, StoreAppend(cfgs[1..], layers[1..], k + 1, popped, passed), k,
                     Layer(TimeBefore(l.startTime, l.queue, n), l.queue[n..]));
      forall m: nat | m < k || m >= k + |layers|
        ensures SameRows(rows, StoreReduce(cfgs, layers, k, rows), m)
      {
        SameRowsTransitive(rows, popped, StoreReduce(cfgs, layers, k, rows), m);
      }
    }
  }
}
