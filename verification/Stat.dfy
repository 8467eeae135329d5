/** The layers as linked ring buffers that are updated in place (storage/stat.go). */
module Stats {
  import opened Keys
  import opened Layers
  import opened LayerRange
  import opened Databases

  /** Where the `i`-th entry after the head is kept. */
  function Slot(head: nat, i: nat, len: nat): (s: nat)
    requires len > 0
    ensures s < len
  {
    (head + i) % len
  }

  lemma SlotIs(head: nat, i: nat, len: nat)
    requires head < len && i <= len
    ensures Slot(head, i, len) == if head + i < len then head + i else head + i - len
  {
    if head + i < len {
      SmallMod(head + i, len);
    } else if head + i < 2 * len {
      WrapMod(head + i, len);
    }
  }

  lemma SmallMod(x: nat, len: nat)
    requires x < len
    ensures x % len == x
  {
  }

  lemma WrapMod(x: nat, len: nat)
    requires len <= x < 2 * len
    ensures x % len == x - len
  {
    SameQuotient(len, 1, x - len, x / len, x % len);
  }

  class LayerStat<A> {
    const conf: Config<A>
    const blank: A
    const layerNum: nat
    const db: Database<A>
    const ringAxes: array<A>
    const ringTimes: array<Time>
    var startTime: Time
    var endTime: Time
    var head: nat
    var tail: nat
    var empty: bool
    var next: LayerStat?<A>
    /** The entries in the ring, the oldest first. */
    ghost var queue: seq<Entry<A>>

    ghost function Footprint(): set<object> {
      {this, ringAxes, ringTimes}
    }

    ghost function View(): Layer<A>
      reads this
    {
      Layer(startTime, queue)
    }

    ghost predicate Holds(i: nat)
      requires i < |queue| && 1 <= conf.len == ringTimes.Length == ringAxes.Length
      reads this, ringAxes, ringTimes
    {
      Entry(ringTimes[Slot(head, i, conf.len)], ringAxes[Slot(head, i, conf.len)]) == queue[i]
    }

    ghost predicate Valid()
      reads this, ringAxes, ringTimes
    {
      && 1 <= conf.len == ringTimes.Length == ringAxes.Length
      && (ringTimes as object) != (ringAxes as object) && db !in Footprint()
      && head < conf.len && |queue| <= conf.len && tail == Slot(head, |queue|, conf.len)
      && (forall i :: 0 <= i < |queue| ==> Holds(i))
      && endTime == View().EndTime()
      && (empty ==> queue == [])
    }

    constructor (layerNum: nat, conf: Config<A>, blank: A, startTime: Time, db: Database<A>)
      requires 1 <= conf.len
      ensures Valid() && fresh(Footprint()) && View() == Layer(startTime, []) && empty && next == null
      ensures this.layerNum == layerNum && this.conf == conf && this.blank == blank && this.db == db
    {
      this.layerNum, this.conf, this.blank, this.db := layerNum, conf, blank, db;
      this.startTime, this.endTime := startTime, startTime;
      ringAxes, ringTimes := new A[conf.len](_ => blank), new Time[conf.len](_ => 0);
      head, tail, empty, next, queue := 0, 0, true, null, [];
    }

    /** Takes the oldest entry out: the layer then begins where that entry ends. */
    method PopOldest() returns (axis: A)
      requires Valid() && queue != []
      modifies this, ringAxes, db
      ensures Valid() && queue == old(queue)[1..] && startTime == old(queue)[0].time && axis == old(queue)[0].axis
      ensures db.rows == Deleted(old(db.rows), layerNum, old(startTime))
      ensures empty == old(empty) && next == old(next) && endTime == old(endTime)
    {
      db.Delete(layerNum, startTime);
      assert Holds(0);
      SlotIs(head, 0, conf.len);
      SlotIs(head, 1, conf.len);
      startTime := ringTimes[head];
      axis := ringAxes[head];
      ringAxes[head] := blank;
      head := (head + 1) % conf.len;
      queue := queue[1..];
      forall i | 0 <= i < |queue|
        ensures Holds(i)
      {
        assert old(Holds(i + 1));
        SlotsAfterPop(old(head), i, conf.len);
      }
      SlotsAfterPop(old(head), |queue|, conf.len);
    }

    /** Puts an entry in behind the newest. */
    method PushNewest(axis: A, time: Time)
      requires Valid() && |queue| < conf.len
      modifies this, ringAxes, ringTimes, db
      ensures Valid() && queue == old(queue) + [Entry(time, axis)] && startTime == old(startTime)
      ensures db.rows == Inserted(old(db.rows), layerNum, Entry(time, axis))
      ensures !empty && next == old(next)
    {
      db.Insert(layerNum, time, axis);
      ringAxes[tail] := axis;
      ringTimes[tail] := time;
      empty := false;
      endTime := time;
      SlotsAfterPush(head, |queue|, conf.len);
      tail := (tail + 1) % conf.len;
      queue := queue + [Entry(time, axis)];
      forall i | 0 <= i < |queue|
        ensures Holds(i)
      {
        if i < |queue| - 1 {
          assert old(Holds(i));
          OtherSlot(head, i, |queue| - 1, conf.len);
        }
      }
    }

    /** Makes room in a full layer: drops the oldest entry, or passes some on as one. */
    method Reduce(ghost chain: seq<LayerStat<A>>)
      requires chain != [] && chain[0] == this && Linked(chain) && Settled(chain) && |queue| == conf.len
      modifies FootprintOf(chain), db
      ensures Linked(chain) && Settled(chain[1..]) && |queue| < conf.len && !empty
      ensures Views(chain) == Layers.Reduce(Configs(chain), old(Views(chain)))
      ensures db.rows == StoreReduce(Configs(chain), old(Views(chain)), layerNum, old(db.rows))
      decreases |chain|, 1
    {
      ghost var rest := chain[1..];
      assert FootprintOf(chain) == Footprint() + FootprintOf(rest) && Settled(rest) && Linked(rest);
      if conf.ratio == 0 || next == null {
        hide Popped, StoreAppend, Layers.Append;
        var _ := TakeOldest(1);
        Untouched(rest);
      } else {
        PassOn(chain);
      }
    }

    /** Makes one entry of the oldest ones and appends it to the next layer. */
    method PassOn(ghost chain: seq<LayerStat<A>>)
      requires chain != [] && chain[0] == this && Linked(chain) && Settled(chain) && |queue| == conf.len
      requires conf.ratio > 0 && next != null
      modifies FootprintOf(chain), db
      ensures Linked(chain) && Settled(chain[1..]) && |queue| < conf.len && !empty
      ensures Views(chain) == Layers.Reduce(Configs(chain), old(Views(chain)))
      ensures db.rows == StoreReduce(Configs(chain), old(Views(chain)), layerNum, old(db.rows))
      decreases |chain|, 0
    {
      hide Popped, StoreAppend, Layers.Append, Layers.Reduce, StoreReduce, Axes;
      ghost var rest := chain[1..];
      assert FootprintOf(chain) == Footprint() + FootprintOf(rest) && Settled(rest) && Linked(rest);
      PassingOnReduces(Configs(chain), Views(chain), layerNum, db.rows);
      var axes := TakeOldest(conf.ratio);
      Untouched(rest);
      next.Append(conf.fold(axes), startTime, rest);
    }

    /** Takes the `k` oldest entries out and collects their axes. */
    method TakeOldest(k: nat) returns (axes: seq<A>)
      requires Valid() && k <= |queue|
      modifies this, ringAxes, db
      ensures Valid() && queue == old(queue)[k..] && startTime == TimeBefore(old(startTime), old(queue), k)
      ensures axes == Axes(old(queue)[..k])
      ensures db.rows == Popped(old(db.rows), layerNum, old(View()), k)
      ensures empty == old(empty) && next == old(next)
    {
      axes := [];
      ghost var full := queue;
      for i := 0 to k
        invariant Valid() && queue == full[i..] && startTime == TimeBefore(old(startTime), full, i)
          && axes == Axes(full[..i])
        invariant empty == old(empty) && next == old(next)
        invariant db.rows == Popped(old(db.rows), layerNum, old(View()), i)
      {
        var axis := PopOldest();
        axes := axes + [axis];
      }
    }

    method Append(axis: A, time: Time, ghost chain: seq<LayerStat<A>>)
      requires chain != [] && chain[0] == this && Linked(chain) && Settled(chain)
      modifies FootprintOf(chain), db
      ensures Linked(chain) && Settled(chain)
      ensures Views(chain) == Layers.Append(Configs(chain), old(Views(chain)), Entry(time, axis))
      ensures db.rows == StoreAppend(Configs(chain), old(Views(chain)), layerNum, old(db.rows), Entry(time, axis))
      decreases |chain|, 2
    {
      ghost var rest := chain[1..];
      assert FootprintOf(chain) == Footprint() + FootprintOf(rest) && Settled(rest) && Linked(rest);
      FullExactly(head, |queue|, conf.len);
      if head == tail && !empty {
        Reduce(chain);
      }
      assert Linked(rest) && Settled(rest);
      label room:
      PushNewest(axis, time);
      Untouched@room(rest);
    }

    /** Fills an empty layer from its rows: the first gives the start time; what has no room is deleted. */
    method Load(models: seq<Entry<A>>)
      requires Valid() && queue == [] && empty && models != []
      modifies this, ringAxes, ringTimes, db
      ensures Valid() && View() == LoadedLayer(conf.len, models) && (queue == [] ==> empty) && next == old(next)
      ensures db.rows == Trimmed(old(db.rows), layerNum, models, LoadedSize(conf.len, models) + 1)
    {
      if |models| > 1 {
        empty := false;
      }
      startTime := models[0].time;
      head := 0;
      var n := |models| - 1;
      if n > conf.len {
        DeleteFrom(models, conf.len + 1);
        n := conf.len;
      }
      endTime := models[n].time;
      FullSlot(n, conf.len);
      tail := (head + n) % conf.len;
      FillRing(models, n);
      queue := models[1..n + 1];
      forall i | 0 <= i < n
        ensures Holds(i)
      {
        SlotIs(0, i, conf.len);
      }
    }

    /** Deletes the rows from the `first`-th on. */
    method DeleteFrom(models: seq<Entry<A>>, first: nat)
      requires first <= |models|
      modifies db
      ensures db.rows == Trimmed(old(db.rows), layerNum, models, first)
    {
      for i := first to |models|
        invariant Trimmed(db.rows, layerNum, models, i) == Trimmed(old(db.rows), layerNum, models, first)
      {
        db.Delete(layerNum, models[i].time);
      }
    }

    method FillRing(models: seq<Entry<A>>, n: nat)
      requires n < |models| && n <= ringTimes.Length == ringAxes.Length && (ringTimes as object) != (ringAxes as object)
      modifies ringAxes, ringTimes
      ensures forall k :: 0 <= k < n ==> Entry(ringTimes[k], ringAxes[k]) == models[k + 1]
    {
      for i := 0 to n
        invariant forall k :: 0 <= k < i ==> Entry(ringTimes[k], ringAxes[k]) == models[k + 1]
      {
        ringTimes[i] := models[i + 1].time;
        ringAxes[i] := models[i + 1].axis;
      }
    }

    /** The times and axes of the stored segments that touch the window, those of the layers below first. */
    method Range(startTime: Time, endTime: Time, ghost chain: seq<LayerStat<A>>)
      returns (times: seq<Time>, axes: seq<A>)
      requires chain != [] && chain[0] == this && Linked(chain) && Settled(chain) && RisingAll(Views(chain))
        && startTime < endTime
      ensures var hits := Hits(AllSegments(Views(chain)), startTime, endTime);
        times == Times(hits) && axes == SegmentAxes(hits)
      decreases |chain|
    {
      times, axes := [], [];
      ghost var layers, rest := Views(chain), chain[1..];
      assert layers == [View()] + Views(rest) && Linked(rest) && Settled(rest) && RisingAll(Views(rest))
        && layers[1..] == Views(rest);
      assert Rising(this.startTime, queue) && (queue == [] ==> empty);
      HitsOfLayers(layers, startTime, endTime);
      NoAnswer<A>();
      hide AllSegments, Hits, Times, SegmentAxes, SegmentsOf, Rising, RisingAll, Settled;
      if next != null {
        label here:
        times, axes := next.Range(startTime, endTime, rest);
        Untouched@here(chain);
      }
      times, axes := AddOwn(startTime, endTime, times, axes, Hits(AllSegments(layers[1..]), startTime, endTime));
      Untouched(chain);
    }

    /** Adds this layer's part to the answer of the layers below. */
    method AddOwn(startTime: Time, endTime: Time, times0: seq<Time>, axes0: seq<A>, ghost below: seq<Segment<A>>)
      returns (times: seq<Time>, axes: seq<A>)
      requires Valid() && (queue == [] ==> empty) && Rising(this.startTime, queue) && startTime < endTime
      requires times0 == Times(below) && axes0 == SegmentAxes(below)
      ensures var hits := below + Hits(SegmentsOf(View()), startTime, endTime);
        times == Times(hits) && axes == SegmentAxes(hits)
    {
      times, axes := times0, axes0;
      hide Hits, Times, SegmentAxes, Ends, SegmentsOf, Rising;
      if empty || !(startTime < this.endTime && endTime > this.startTime) {
        NoHits(View(), startTime, endTime);
        assert below + [] == below;
        return;
      }
      var moreTimes, moreAxes, begin := Window(startTime, endTime);
      AnswerConcat(below, Hits(SegmentsOf(View()), startTime, endTime));
      if |times| == 0 {
        times := times + [begin];
      }
      times := times + moreTimes;
      axes := axes + moreAxes;
    }

    /** This layer's part of a query that its time span meets. */
    method Window(startTime: Time, endTime: Time) returns (times: seq<Time>, axes: seq<A>, begin: Time)
      requires Valid() && queue != [] && Rising(this.startTime, queue)
      requires startTime < endTime && startTime < this.endTime && this.startTime < endTime
      ensures var hits := Hits(SegmentsOf(View()), startTime, endTime);
        hits != [] && times == Ends(hits) && axes == SegmentAxes(hits) && begin == hits[0].begin
    {
      RingSize(head, |queue|, conf.len);
      var size := tail as int - head;
      if size <= 0 {
        size := size + conf.len;
      }
      var start, reach := SearchRing(size, startTime, endTime);
      var end := reach;
      if end != size {
        end := end + 1;
      }
      LayerWindow(View(), startTime, endTime, start, reach, end);
      hide Hits, Rising, SegmentsOf, Ends, SegmentAxes;
      var n := end - start;
      var from := (head + start) % conf.len;
      StartSlots(head, start, conf.len);
      if from == head {
        begin := this.startTime;
      } else {
        begin := ringTimes[(from - 1 + conf.len) % conf.len];
        assert Holds(start - 1);
      }
      assert begin == TimeBefore(this.startTime, queue, start);
      times, axes := UnrollBoth(start, n);
      WindowAnswer(View(), start, end, times, axes);
    }

    /** The times and axes of `n` entries from the `start`-th on. */
    method UnrollBoth(start: nat, n: nat) returns (times: seq<Time>, axes: seq<A>)
      requires Valid() && start < start + n <= |queue|
      ensures |times| == |axes| == n
      ensures forall j :: 0 <= j < n ==> Entry(times[j], axes[j]) == queue[start + j]
    {
      var from := (head + start) % conf.len;
      times := Unroll(ringTimes, from, n);
      axes := Unroll(ringAxes, from, n);
      forall j | 0 <= j < n
        ensures Entry(times[j], axes[j]) == queue[start + j]
      {
        assert Holds(start + j);
        SlotsAdd(head, start, j, conf.len);
      }
    }

    /** The first entries after one time, and at or after another. */
    method SearchRing(size: nat, startTime: Time, endTime: Time) returns (start: nat, reach: nat)
      requires Valid() && size == |queue| && Rising(this.startTime, queue)
      ensures start <= size && forall i :: 0 <= i < size ==> (queue[i].time > startTime <==> start <= i)
      ensures reach <= size && forall i :: 0 <= i < size ==> (queue[i].time >= endTime <==> reach <= i)
    {
      var ring, first, len := ringTimes[..], head, conf.len;
      forall i | 0 <= i < size
        ensures ring[Slot(first, i, len)] == queue[i].time
      {
        assert Holds(i);
      }
      forall i, j | 0 <= i <= j < size
        ensures queue[i].time <= queue[j].time
      {
        RisesBetween(this.startTime, queue, i + 1, j + 1);
      }
      var after := (i: int) => i >= 0 && |ring| == len && ring[Slot(first, i, len)] > startTime;
      start := Search(size, after);
      var notBefore := (i: int) => i >= 0 && |ring| == len && ring[Slot(first, i, len)] >= endTime;
      reach := Search(size, notBefore);
      assert forall i :: 0 <= i < size ==>
        after(i) == (queue[i].time > startTime) && notBefore(i) == (queue[i].time >= endTime);
    }
  }

  /** `n` elements of a ring from `from` on, in two pieces if they wrap around. */
  method Unroll<T>(ring: array<T>, from: nat, n: nat) returns (s: seq<T>)
    requires from < ring.Length && n <= ring.Length
    ensures |s| == n && forall j :: 0 <= j < n ==> s[j] == ring[Slot(from, j, ring.Length)]
  {
    if from + n <= ring.Length {
      s := ring[from..from + n];
    } else {
      s := ring[from..] + ring[..from + n - ring.Length];
    }
    forall j | 0 <= j < n
      ensures s[j] == ring[Slot(from, j, ring.Length)]
    {
      SlotIs(from, j, ring.Length);
    }
  }

  lemma WindowAnswer<A>(l: Layer<A>, from: nat, to: nat, times: seq<Time>, axes: seq<A>)
    requires from < to <= |l.queue| && |times| == |axes| == to - from
    requires forall j :: 0 <= j < to - from ==> Entry(times[j], axes[j]) == l.queue[from + j]
    ensures var hits := SegmentsOf(l)[from..to];
      times == Ends(hits) && axes == SegmentAxes(hits) && hits[0].begin == TimeBefore(l.startTime, l.queue, from)
  {
    var hits := SegmentsOf(l)[from..to];
    forall j | 0 <= j < to - from
      ensures times[j] == hits[j].end && axes[j] == hits[j].axis
    {
      assert Entry(times[j], axes[j]) == l.queue[from + j];
    }
  }

  /** Making room in a layer that passes on, spelled out. */
  lemma PassingOnReduces<A>(cfgs: seq<Config<A>>, layers: seq<Layer<A>>, layer: nat, rows: Rows<A>)
    requires |cfgs| == |layers| && layers != [] && WellConfigured(cfgs) && |layers[0].queue| == cfgs[0].len
    requires !IsSink(cfgs)
    ensures var l, ratio := layers[0], cfgs[0].ratio;
      var passed := Entry(TimeBefore(l.startTime, l.queue, ratio), cfgs[0].fold(Axes(l.queue[..ratio])));
      && Layers.Reduce(cfgs, layers)
      == [Layer(passed.time, l.queue[ratio..])] + Layers.Append(cfgs[1..], layers[1..], passed)
      && StoreReduce(cfgs, layers, layer, rows)
      == StoreAppend(cfgs[1..], layers[1..], layer + 1, Popped(rows, layer, l, ratio), passed)
  {
    hide Layers.Append, StoreAppend, Popped;
  }

  /** How many of a layer's rows after the first have room. */
  function LoadedSize<A>(len: nat, models: seq<Entry<A>>): (n: nat)
    requires models != []
    ensures n < |models|
  {
    if |models| - 1 > len then len else |models| - 1
  }

  function LoadedLayer<A>(len: nat, models: seq<Entry<A>>): Layer<A>
    requires models != []
  {
    Layer(models[0].time, models[1..LoadedSize(len, models) + 1])
  }

  /** The first row gives the start; the rows after it, as many of the oldest as there is room for, are the entries. */
  lemma LoadedExactly<A>(len: nat, models: seq<Entry<A>>, l: Layer<A>)
    requires models != []
    ensures l == LoadedLayer(len, models)
      <==> l.startTime == models[0].time && l.queue <= models[1..] && |l.queue| <= len
           && (|l.queue| == len || |l.queue| == |models| - 1)
  {
    if l.queue <= models[1..] {
      assert l.queue == models[1..][..|l.queue|] == models[1..|l.queue| + 1];
    }
  }

  lemma FullSlot(n: nat, len: nat)
    requires n <= len && len > 0
    ensures n % len == Slot(0, n, len)
  {
  }

  lemma NoAnswer<A>()
    ensures Times<A>([]) == [] && SegmentAxes<A>([]) == []
  {
  }

  /** A ring that holds something holds as many entries as the tail is past the head, going around. */
  lemma RingSize(head: nat, size: nat, len: nat)
    requires head < len && 0 < size <= len
    ensures var d := Slot(head, size, len) - head; size == if d <= 0 then d + len else d
  {
    SlotIs(head, size, len);
  }

  lemma StartSlots(head: nat, start: nat, len: nat)
    requires head < len && start < len
    ensures Slot(head, start, len) == head <==> start == 0
    ensures start > 0 ==> (Slot(head, start, len) - 1 + len) % len == Slot(head, start - 1, len)
  {
    SlotIs(head, start, len);
    if start > 0 {
      SlotIs(head, start - 1, len);
      var p := Slot(head, start, len);
      if p == 0 {
        SmallMod(len - 1, len);
      } else {
        WrapMod(p - 1 + len, len);
      }
    }
  }

  lemma SlotsAdd(head: nat, i: nat, j: nat, len: nat)
    requires head < len && i + j < len
    ensures Slot(Slot(head, i, len), j, len) == Slot(head, i + j, len)
  {
    SlotIs(head, i, len);
    SlotIs(Slot(head, i, len), j, len);
    SlotIs(head, i + j, len);
  }

  ghost predicate RisingAll<A>(layers: seq<Layer<A>>) {
    layers == [] || (Rising(layers[0].startTime, layers[0].queue) && RisingAll(layers[1..]))
  }

  // ---------------------------------------------------------------- chains of layers

  ghost function FootprintOf<A>(chain: seq<LayerStat<A>>): set<object> {
    if chain == [] then {} else chain[0].Footprint() + FootprintOf(chain[1..])
  }

  /** A chain of layers, each linked to the next, sharing a table and nothing else. */
  ghost predicate Linked<A>(chain: seq<LayerStat<A>>)
    reads FootprintOf(chain)
  {
    chain == [] ||
    (&& chain[0].Valid() && WellConfigured(Configs(chain))
     && chain[0].next == (if |chain| == 1 then null else chain[1])
     && (|chain| > 1 ==> chain[1].layerNum == chain[0].layerNum + 1 && chain[1].db == chain[0].db)
     && chain[0].Footprint() !! FootprintOf(chain[1..]) && chain[0].db !in FootprintOf(chain)
     && Linked(chain[1..]))
  }

  /** Between appends, the layers that hold nothing are those marked empty. */
  ghost predicate Settled<A>(chain: seq<LayerStat<A>>)
    reads FootprintOf(chain)
  {
    chain == [] || ((chain[0].queue == [] ==> chain[0].empty) && Settled(chain[1..]))
  }

  ghost function Configs<A>(chain: seq<LayerStat<A>>): (cfgs: seq<Config<A>>)
    ensures |cfgs| == |chain|
  {
    if chain == [] then [] else [chain[0].conf] + Configs(chain[1..])
  }

  ghost function Views<A>(chain: seq<LayerStat<A>>): (layers: seq<Layer<A>>)
    reads FootprintOf(chain)
    ensures |layers| == |chain|
  {
    if chain == [] then [] else [chain[0].View()] + Views(chain[1..])
  }

  /** A chain is as it was when none of its objects has changed. */
  twostate lemma Untouched<A>(chain: seq<LayerStat<A>>)
    requires forall o :: o in FootprintOf(chain) && old(allocated(o)) ==> unchanged(o)
    ensures Views(chain) == old(Views(chain)) && Linked(chain) == old(Linked(chain))
    ensures Settled(chain) == old(Settled(chain))
  {
    if chain != [] {
      assert FootprintOf(chain) == chain[0].Footprint() + FootprintOf(chain[1..]);
      Untouched(chain[1..]);
    }
  }

  /** Counting from the next head, entries are one nearer, and none but the oldest was at the old head. */
  lemma SlotsAfterPop(head: nat, i: nat, len: nat)
    requires head < len && i < len
    ensures Slot(Slot(head, 1, len), i, len) == Slot(head, i + 1, len)
    ensures i + 1 < len ==> Slot(head, i + 1, len) != head
  {
    SlotIs(head, 1, len);
    SlotIs(Slot(head, 1, len), i, len);
    SlotIs(head, i + 1, len);
  }

  lemma SlotsAfterPush(head: nat, i: nat, len: nat)
    requires head < len && i < len
    ensures (Slot(head, i, len) + 1) % len == Slot(head, i + 1, len)
  {
    SlotIs(head, i, len);
    SlotIs(head, i + 1, len);
    SlotIs(Slot(head, i, len), 1, len);
  }

  lemma OtherSlot(head: nat, i: nat, j: nat, len: nat)
    requires head < len && i < j < len
    ensures Slot(head, i, len) != Slot(head, j, len)
  {
    SlotIs(head, i, len);
    SlotIs(head, j, len);
  }

  /** Head and tail meet just when the ring is empty or full. */
  lemma FullExactly(head: nat, size: nat, len: nat)
    requires head < len && size <= len
    ensures Slot(head, size, len) == head <==> size == 0 || size == len
  {
    SlotIs(head, size, len);
  }
}
