/** The table that mirrors the layers (storage/model.go), keyed by layer and time. */
module Databases {
  import opened Seqs
  import opened Layers
  import opened LayerRange

  type Rows<A> = map<(nat, Time), A>

  function Inserted<A>(rows: Rows<A>, layer: nat, e: Entry<A>): Rows<A> {
    if (layer, e.time) in rows then rows else rows[(layer, e.time) := e.axis]
  }

  function Deleted<A>(rows: Rows<A>, layer: nat, time: Time): Rows<A> {
    rows - {(layer, time)}
  }

  /** The rows left once a layer has given up its first `k` entries. */
  function Popped<A>(rows: Rows<A>, layer: nat, l: Layer<A>, k: nat): Rows<A>
    requires k <= |l.queue|
  {
    if k == 0 then rows else Deleted(Popped(rows, layer, l, k - 1), layer, TimeBefore(l.startTime, l.queue, k - 1))
  }

  /** What making room in a cascade, whose first layer has the given number, does to the table. */
  function StoreReduce<A>(cfgs: seq<Config<A>>, layers: seq<Layer<A>>, layer: nat, rows: Rows<A>): Rows<A>
    requires |cfgs| == |layers| && layers != [] && WellConfigured(cfgs) && |layers[0].queue| == cfgs[0].len
    decreases |layers|, 0
  {
    var c, l := cfgs[0], layers[0];
    if IsSink(cfgs) then Popped(rows, layer, l, 1)
    else StoreAppend(cfgs[1..], layers[1..], layer + 1, Popped(rows, layer, l, c.ratio), Folded(c, l.queue[..c.ratio]))
  }

  /** What appending to the cascade does to the table. */
  function StoreAppend<A>(cfgs: seq<Config<A>>, layers: seq<Layer<A>>, layer: nat, rows: Rows<A>, e: Entry<A>): Rows<A>
    requires |cfgs| == |layers| && layers != [] && WellConfigured(cfgs)
    decreases |layers|, 1
  {
    Inserted(if |layers[0].queue| == cfgs[0].len then StoreReduce(cfgs, layers, layer, rows) else rows, layer, e)
  }

  function WithoutLayer<A>(rows: Rows<A>, layer: nat): Rows<A> {
    map key | key in rows && key.0 != layer :: rows[key]
  }

  /** The rows left once those of `models` from the `i`-th on are deleted. */
  function Trimmed<A>(rows: Rows<A>, layer: nat, models: seq<Entry<A>>, i: nat): Rows<A>
    requires i <= |models|
    decreases |models| - i
  {
    if i == |models| then rows else Trimmed(Deleted(rows, layer, models[i].time), layer, models, i + 1)
  }

  predicate Earlier(a: Time, b: Time) {
    a < b
  }

  lemma EarlierOrders()
    ensures Orders(Earlier)
  {
  }

  function EntryTimes<A>(entries: seq<Entry<A>>): (times: seq<Time>)
    ensures |times| == |entries|
  {
    seq(|entries|, i requires 0 <= i < |entries| => entries[i].time)
  }

  ghost predicate LaterAt<A>(models: seq<Entry<A>>, i: nat)
    requires 0 < i < |models|
  {
    models[i - 1].time < models[i].time
  }

  /** `models` are the rows of a layer, ordered by time. */
  ghost predicate IsModels<A>(rows: Rows<A>, layer: nat, models: seq<Entry<A>>) {
    && (forall i :: 0 < i < |models| ==> LaterAt(models, i))
    && (forall t :: (layer, t) in rows <==> t in EntryTimes(models))
    && (forall i :: 0 <= i < |models| ==>
          (layer, models[i].time) in rows && rows[(layer, models[i].time)] == models[i].axis)
  }

  lemma {:induction false} ModelsRise<A>(models: seq<Entry<A>>, i: nat, j: nat)
    requires (forall k :: 0 < k < |models| ==> LaterAt(models, k)) && i < j < |models|
    ensures models[i].time < models[j].time
    decreases j
  {
    assert LaterAt(models, j);
    if i < j - 1 {
      ModelsRise(models, i, j - 1);
    }
  }

  class Database<A> {
    var rows: Rows<A>

    /** A table holds at most one row for a layer and a time, and inserting a second changes nothing. Layers that the
        table mirrors never insert one (`Mirrors.NewEntryHasNoRow`). */
    method Insert(layer: nat, time: Time, axis: A)
      modifies this
      ensures rows == Inserted(old(rows), layer, Entry(time, axis))
    {
      if (layer, time) !in rows {
        rows := rows[(layer, time) := axis];
      }
    }

    method Clear()
      modifies this
      ensures rows == map[]
    {
      rows := map[];
    }

    method DeleteLayer(layer: nat)
      modifies this
      ensures rows == WithoutLayer(old(rows), layer)
    {
      rows := map key | key in rows && key.0 != layer :: rows[key];
    }

    /** The rows of a layer, ordered by time. */
    method FindOrderByTime(layer: nat) returns (models: seq<Entry<A>>)
      ensures IsModels(rows, layer, models)
    {
      var times := set key | key in rows && key.0 == layer :: key.1;
      EarlierOrders();
      var sorted := Sort(times, Earlier);
      var table := rows;
      forall t
        ensures t in times <==> (layer, t) in table
      {
        if (layer, t) in table {
          assert (layer, t).1 in times;
        }
      }
      assert forall i :: 0 <= i < |sorted| ==> sorted[i] in sorted && (layer, sorted[i]) in table;
      models := seq(|sorted|, i requires 0 <= i < |sorted| => Entry(sorted[i], table[(layer, sorted[i])]));
      forall i | 0 < i < |models|
        ensures LaterAt(models, i)
      {
        assert Earlier(sorted[i - 1], sorted[i]);
      }
      forall t
        ensures (layer, t) in rows <==> t in EntryTimes(models)
      {
        assert EntryTimes(models) == sorted;
      }
    }

    method Delete(layer: nat, time: Time)
      modifies this
      ensures rows == Deleted(old(rows), layer, time)
    {
      rows := rows - {(layer, time)};
    }
  }
}
