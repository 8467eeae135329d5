/** What restoring layers from the table gives (storage/stat_persist.go). */
module Restoring {
  import opened Seqs
  import opened Layers
  import opened LayerRange
  import opened Databases
  import opened Mirrors
  import opened Stats

  // ---------------------------------------------------------------- what the table says

  function Bounds<A>(l: Layer<A>): (times: seq<Time>)
    ensures |times| == |l.queue| + 1
  {
    seq(|l.queue| + 1, i requires 0 <= i <= |l.queue| => TimeBefore(l.startTime, l.queue, i))
  }

  lemma BoundsAscend<A>(l: Layer<A>)
    requires Rising(l.startTime, l.queue)
    ensures Ascending(Bounds(l), Earlier)
  {
    forall i, j | 0 <= i < j < |Bounds(l)|
      ensures Earlier(Bounds(l)[i], Bounds(l)[j])
    {
      RisesBetween(l.startTime, l.queue, i, j);
    }
  }

  lemma BoundsAreRows<A>(rows: Rows<A>, k: nat, l: Layer<A>)
    requires MirrorsLayer(rows, k, l)
    ensures forall t :: t in Bounds(l) <==> (k, t) in rows
  {
    forall t
      ensures t in Bounds(l) <==> IsBound(l, t)
    {
      if IsBound(l, t) {
        var i :| 0 <= i <= |l.queue| && TimeBefore(l.startTime, l.queue, i) == t;
        assert Bounds(l)[i] == t;
      }
    }
  }

  /** The rows of a layer, in order, are its start followed by its queue. */
  lemma ModelsOfMirror<A>(rows: Rows<A>, k: nat, l: Layer<A>, models: seq<Entry<A>>)
    requires MirrorsLayer(rows, k, l) && IsModels(rows, k, models) && Rising(l.startTime, l.queue)
    ensures models != [] && models[0].time == l.startTime && models[1..] == l.queue
  {
    BoundsAscend(l);
    BoundsAreRows(rows, k, l);
    EarlierOrders();
    forall i, j | 0 <= i < j < |models|
      ensures Earlier(EntryTimes(models)[i], EntryTimes(models)[j])
    {
      ModelsRise(models, i, j);
    }
    SortedIsUnique(Bounds(l), EntryTimes(models), Earlier);
    assert Bounds(l)[0] == EntryTimes(models)[0];
    forall i | 0 <= i < |l.queue|
      ensures models[i + 1] == l.queue[i]
    {
      assert RowAt(rows, k, l, i) && Bounds(l)[i + 1] == EntryTimes(models)[i + 1];
    }
  }

  /** The layer is what its rows give. */
  ghost predicate LoadedFrom<A(!new)>(rows: Rows<A>, k: nat, len: nat, l: Layer<A>) {
    exists models :: models != [] && IsModels(rows, k, models) && l == LoadedLayer(len, models)
  }

  /** A layer loaded from the rows that mirror one is that one. */
  lemma LoadedIsSaved<A(!new)>(rows: Rows<A>, k: nat, len: nat, saved: Layer<A>, l: Layer<A>)
    requires MirrorsLayer(rows, k, saved) && Rising(saved.startTime, saved.queue) && |saved.queue| <= len
    requires LoadedFrom(rows, k, len, l)
    ensures l == saved
  {
    var models :| models != [] && IsModels(rows, k, models) && l == LoadedLayer(len, models);
    ModelsOfMirror(rows, k, saved, models);
  }

  ghost predicate HasRows<A>(rows: Rows<A>, k: nat) {
    exists t :: (k, t) in rows
  }

  /** What `Restore` finds in a table. */
  datatype Finding = NewTable | NothingFound | StartOnly | Data

  ghost predicate OneRow<A>(rows: Rows<A>, k: nat) {
    exists t :: (k, t) in rows && forall u :: (k, u) in rows ==> u == t
  }

  ghost function Found<A>(exist: bool, rows: Rows<A>): Finding {
    if !exist then NewTable
    else if !HasRows(rows, 0) then NothingFound
    else if OneRow(rows, 0) then StartOnly
    else Data
  }

  /** Every layer down to number `k` has rows. */
  ghost predicate AllHaveRows<A>(rows: Rows<A>, k: nat) {
    forall j: nat :: j <= k ==> HasRows(rows, j)
  }

  /** A row stays, once the layers numbered below `n` have been looked at, unless its layer does not exist or
      it is later than the layer that was loaded. */
  ghost predicate KeptAt<A>(rows0: Rows<A>, rows: Rows<A>, n: nat, layers: seq<Layer<A>>, k: nat, t: Time) {
    && ((k, t) in rows <==> (k, t) in rows0 && (k < n ==> k < |layers| && t <= layers[k].EndTime()))
    && ((k, t) in rows && (k, t) in rows0 ==> rows[(k, t)] == rows0[(k, t)])
  }

  ghost predicate RowsKept<A>(rows0: Rows<A>, rows: Rows<A>, n: nat, layers: seq<Layer<A>>) {
    forall k: nat, t :: KeptAt(rows0, rows, n, layers, k, t)
  }

  lemma {:induction false} TrimmedIs<A>(rows: Rows<A>, k: nat, models: seq<Entry<A>>, i: nat)
    requires i <= |models|
    ensures forall key ::
      key in Trimmed(rows, k, models, i) <==> key in rows && !(key.0 == k && key.1 in EntryTimes(models)[i..])
    ensures forall key :: key in Trimmed(rows, k, models, i) ==> Trimmed(rows, k, models, i)[key] == rows[key]
    decreases |models| - i
  {
    if i < |models| {
      TrimmedIs(Deleted(rows, k, models[i].time), k, models, i + 1);
      assert EntryTimes(models)[i..] == [models[i].time] + EntryTimes(models)[i + 1..];
    }
  }

  /** Among the rows of a layer, those from the one after the last loaded on are those later than it. */
  lemma LaterThanLoaded<A>(rows: Rows<A>, k: nat, models: seq<Entry<A>>, len: nat, t: Time)
    requires IsModels(rows, k, models) && models != [] && (k, t) in rows
    ensures var n := LoadedSize(len, models);
      t in EntryTimes(models)[n + 1..] <==> t > LoadedLayer(len, models).EndTime()
  {
    var n, times := LoadedSize(len, models), EntryTimes(models);
    assert LoadedLayer(len, models).EndTime() == times[n];
    var i :| 0 <= i < |times| && times[i] == t;
    if i > n {
      assert times[n + 1..][i - n - 1] == t;
      ModelsRise(models, n, i);
    } else if i < n {
      ModelsRise(models, i, n);
    }
    if t in times[n + 1..] {
      var j :| 0 <= j < |times[n + 1..]| && times[n + 1..][j] == t;
      ModelsRise(models, n, n + 1 + j);
    }
  }

  lemma LoadKeepsRows<A>(rows0: Rows<A>, rows: Rows<A>, n: nat, layers: seq<Layer<A>>, models: seq<Entry<A>>, len: nat)
    requires RowsKept(rows0, rows, n, layers) && n < |layers| && IsModels(rows, n, models) && models != []
    ensures var l, i := LoadedLayer(len, models), LoadedSize(len, models) + 1;
      RowsKept(rows0, Trimmed(rows, n, models, i), n + 1, layers[n := l])
  {
    var l, i := LoadedLayer(len, models), LoadedSize(len, models) + 1;
    var after := Trimmed(rows, n, models, i);
    TrimmedIs(rows, n, models, i);
    var loaded, next := layers[n := l], n + 1;
    forall k: nat, t
      ensures KeptAt(rows0, after, next, loaded, k, t)
    {
      assert KeptAt(rows0, rows, n, layers, k, t);
      if k == n && (k, t) in rows {
        LaterThanLoaded(rows, n, models, len, t);
      }
    }
  }

  /** Layers not yet looked at have the rows they had. */
  lemma RowsNotYetLost<A>(rows0: Rows<A>, rows: Rows<A>, n: nat, layers: seq<Layer<A>>)
    requires RowsKept(rows0, rows, n, layers)
    ensures SameRows(rows0, rows, n)
  {
    forall t
      ensures (n, t) in rows0 <==> (n, t) in rows
      ensures (n, t) in rows0 && (n, t) in rows ==> rows0[(n, t)] == rows[(n, t)]
    {
      assert KeptAt(rows0, rows, n, layers, n, t);
    }
  }

  lemma SameModels<A>(rows0: Rows<A>, rows: Rows<A>, n: nat, models: seq<Entry<A>>)
    requires SameRows(rows0, rows, n) && IsModels(rows, n, models)
    ensures IsModels(rows0, n, models)
    ensures models != [] <==> HasRows(rows0, n)
    ensures |models| == 1 <==> OneRow(rows0, n)
  {
    var times := EntryTimes(models);
    if models != [] {
      assert (n, times[0]) in rows0;
    }
    if |models| > 1 {
      assert LaterAt(models, 1);
      assert (n, times[0]) in rows0 && (n, times[1]) in rows0;
    }
    if |models| == 1 {
      forall u | (n, u) in rows0
        ensures u == times[0]
      {
        assert u in times;
      }
    }
  }

  // ---------------------------------------------------------------- a table that mirrors saved layers

  lemma {:induction false} MirrorAt<A>(rows: Rows<A>, n: nat, layers: seq<Layer<A>>, k: nat)
    requires Mirror(rows, n, layers) && k < |layers|
    ensures MirrorsLayer(rows, n + k, layers[k]) && HasRows(rows, n + k)
    decreases |layers|
  {
    if k == 0 {
      assert TimeBefore(layers[0].startTime, layers[0].queue, 0) == layers[0].startTime;
      assert (n, layers[0].startTime) in rows;
    } else {
      MirrorAt(rows, n + 1, layers[1..], k - 1);
    }
  }

  lemma {:induction false} CoherentAt<A>(cfgs: seq<Config<A>>, layers: seq<Layer<A>>, k: nat)
    requires |cfgs| == |layers| && Coherent(cfgs, layers) && k < |layers|
    ensures Rising(layers[k].startTime, layers[k].queue) && |layers[k].queue| <= cfgs[k].len
    decreases |layers|
  {
    if k > 0 {
      CoherentAt(cfgs[1..], layers[1..], k - 1);
    }
  }

  /** The layer that restoring gives for number `k`. */
  ghost predicate RestoredAt<A(!new)>(cfgs: seq<Config<A>>, rows0: Rows<A>, before: seq<Layer<A>>, after: seq<Layer<A>>,
                               k: nat)
    requires k < |cfgs| == |before| == |after|
  {
    if AllHaveRows(rows0, k) then LoadedFrom(rows0, k, cfgs[k].len, after[k]) else after[k] == before[k]
  }

  /** What restoring does with a table that holds data: the layers that have rows, down to the first that has
      none, are loaded from them; rows that no layer has room for go. */
  ghost predicate IsRestored<A(!new)>(cfgs: seq<Config<A>>, rows0: Rows<A>, rows: Rows<A>, before: seq<Layer<A>>,
                               after: seq<Layer<A>>) {
    && |cfgs| == |before| == |after|
    && (forall k :: 0 <= k < |cfgs| ==> RestoredAt(cfgs, rows0, before, after, k))
    && (exists n ::
          (forall j: nat :: j < n ==> HasRows(rows0, j)) && !HasRows(rows0, n) && RowsKept(rows0, rows, n, after))
  }

  /** Restoring from a table that mirrors some layers gives these layers back, and the table still mirrors
      them. */
  lemma RestoringMirror<A(!new)>(cfgs: seq<Config<A>>, rows0: Rows<A>, rows: Rows<A>, before: seq<Layer<A>>,
                                 after: seq<Layer<A>>, saved: seq<Layer<A>>)
    requires IsRestored(cfgs, rows0, rows, before, after)
    requires |saved| == |cfgs| && Coherent(cfgs, saved) && Mirror(rows0, 0, saved)
    ensures after == saved && Mirror(rows, 0, saved)
  {
    forall k: nat | k < |saved|
      ensures MirrorsLayer(rows0, k, saved[k]) && HasRows(rows0, k)
      ensures Rising(saved[k].startTime, saved[k].queue) && |saved[k].queue| <= cfgs[k].len
    {
      MirrorAt(rows0, 0, saved, k);
      CoherentAt(cfgs, saved, k);
    }
    forall k: nat | k < |saved|
      ensures after[k] == saved[k]
    {
      assert RestoredAt(cfgs, rows0, before, after, k);
      LoadedIsSaved(rows0, k, cfgs[k].len, saved[k], after[k]);
    }
    assert after == saved;
    var n :| RowsKept(rows0, rows, n, after);
    forall k: nat | k < |saved|
      ensures SameRows(rows0, rows, k)
    {
      AllRowsKept(rows0, rows, saved, k, n);
    }
    MirrorOfSameRows(rows0, rows, 0, saved);
  }

  lemma AllRowsKept<A>(rows0: Rows<A>, rows: Rows<A>, layers: seq<Layer<A>>, k: nat, n: nat)
    requires k < |layers| && MirrorsLayer(rows0, k, layers[k]) && Rising(layers[k].startTime, layers[k].queue)
    requires RowsKept(rows0, rows, n, layers)
    ensures SameRows(rows0, rows, k)
  {
    var l := layers[k];
    forall t
      ensures (k, t) in rows0 <==> (k, t) in rows
      ensures (k, t) in rows0 && (k, t) in rows ==> rows0[(k, t)] == rows[(k, t)]
    {
      assert KeptAt(rows0, rows, n, layers, k, t);
      if (k, t) in rows0 {
        var i :| 0 <= i <= |l.queue| && TimeBefore(l.startTime, l.queue, i) == t;
        RisesBetween(l.startTime, l.queue, i, |l.queue|);
      }
    }
  }

  /** A layer loaded from its rows is mirrored by those that are not later. */
  lemma LoadedIsMirrored<A>(rows0: Rows<A>, rows: Rows<A>, n: nat, layers: seq<Layer<A>>, k: nat, len: nat,
                            models: seq<Entry<A>>)
    requires RowsKept(rows0, rows, n, layers) && k < n && k < |layers|
    requires IsModels(rows0, k, models) && models != [] && layers[k] == LoadedLayer(len, models)
    ensures MirrorsLayer(rows, k, layers[k])
  {
    var l, times := layers[k], EntryTimes(models);
    forall i | 0 <= i <= |l.queue|
      ensures TimeBefore(l.startTime, l.queue, i) == times[i] && (k, times[i]) in rows
    {
      assert KeptAt(rows0, rows, n, layers, k, times[i]);
      if i < |l.queue| {
        ModelsRise(models, i, |l.queue|);
      }
    }
    forall t
      ensures (k, t) in rows <==> IsBound(l, t)
    {
      assert KeptAt(rows0, rows, n, layers, k, t);
      if (k, t) in rows {
        var i :| 0 <= i < |times| && times[i] == t;
        if i > |l.queue| {
          ModelsRise(models, |l.queue|, i);
        }
        assert i <= |l.queue| && TimeBefore(l.startTime, l.queue, i) == t;
      }
    }
    forall i | 0 <= i < |l.queue|
      ensures RowAt(rows, k, l, i)
    {
      assert TimeBefore(l.startTime, l.queue, i + 1) == times[i + 1];
      assert KeptAt(rows0, rows, n, layers, k, times[i + 1]);
    }
  }

  /** After restoring from a table that holds data, the table mirrors the layers if and only if it had rows for
      every layer. */
  lemma {:induction false} RestoredIsMirrored<A(!new)>(cfgs: seq<Config<A>>, rows0: Rows<A>, rows: Rows<A>,
                                                before: seq<Layer<A>>, after: seq<Layer<A>>)
    requires IsRestored(cfgs, rows0, rows, before, after) && cfgs != []
    ensures Mirror(rows, 0, after) <==> AllHaveRows(rows0, |cfgs| - 1)
  {
    var n :| (forall j: nat :: j < n ==> HasRows(rows0, j)) && !HasRows(rows0, n) && RowsKept(rows0, rows, n, after);
    if AllHaveRows(rows0, |cfgs| - 1) {
      forall k: nat | k < |after|
        ensures MirrorsLayer(rows, k, after[k])
      {
        assert RestoredAt(cfgs, rows0, before, after, k);
        var models :| models != [] && IsModels(rows0, k, models) && after[k] == LoadedLayer(cfgs[k].len, models);
        LoadedIsMirrored(rows0, rows, n, after, k, cfgs[k].len, models);
      }
      AllMirrored(rows, after, 0);
    }
    if Mirror(rows, 0, after) {
      forall k: nat | k < |after|
        ensures HasRows(rows0, k)
      {
        MirrorAt(rows, 0, after, k);
        var t :| (k, t) in rows;
        assert KeptAt(rows0, rows, n, after, k, t);
      }
    }
  }

  lemma {:induction false} AllMirrored<A>(rows: Rows<A>, layers: seq<Layer<A>>, k: nat)
    requires k <= |layers| && forall j: nat :: j < |layers| ==> MirrorsLayer(rows, j, layers[j])
    ensures Mirror(rows, k, layers[k..])
    decreases |layers| - k
  {
    if k < |layers| {
      AllMirrored(rows, layers, k + 1);
      assert layers[k..][1..] == layers[k + 1..];
    }
    assert layers[0..] == layers;
  }

  lemma NotMirrored<A>(rows: Rows<A>, layers: seq<Layer<A>>)
    requires layers != [] && !HasRows(rows, 0)
    ensures !Mirror(rows, 0, layers)
  {
    if Mirror(rows, 0, layers) {
      MirrorAt(rows, 0, layers, 0);
    }
  }

  /** A mirrored layer with entries has more than one row. */
  lemma DataHasTwoRows<A>(rows: Rows<A>, saved: seq<Layer<A>>)
    requires saved != [] && Mirror(rows, 0, saved) && saved[0].queue != [] && Rising(saved[0].startTime, saved[0].queue)
    ensures Found(true, rows) == Data
  {
    var l := saved[0];
    assert TimeBefore(l.startTime, l.queue, 0) == l.startTime && TimeBefore(l.startTime, l.queue, 1) == l.queue[0].time;
    assert (0, l.startTime) in rows && (0, l.queue[0].time) in rows;
    assert RisesAt(l.startTime, l.queue, 0);
  }

  /** The rows are the start rows of the layers. */
  ghost predicate OnlyStarts<A>(rows: Rows<A>, layers: seq<Layer<A>>) {
    forall key :: key in rows <==> key.0 < |layers| && key.1 == layers[key.0].startTime
  }

  lemma {:induction false} StartsMirror<A>(rows: Rows<A>, layers: seq<Layer<A>>, k: nat)
    requires OnlyStarts(rows, layers) && AllEmpty(layers) && k <= |layers|
    ensures Mirror(rows, k, layers[k..])
    decreases |layers| - k
  {
    if k < |layers| {
      StartsMirror(rows, layers, k + 1);
      var l := layers[k];
      assert TimeBefore(l.startTime, l.queue, 0) == l.startTime;
      assert layers[k..][1..] == layers[k + 1..];
    }
  }
}
