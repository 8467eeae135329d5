/** What the layers of a history hold between them, and what a query by time gives of it. */
module LayerRange {
  import opened Seqs
  import opened Layers

  function TimeBefore<A>(startTime: Time, queue: seq<Entry<A>>, i: nat): Time
    requires i <= |queue|
  {
    if i == 0 then startTime else queue[i - 1].time
  }

  ghost predicate RisesAt<A>(startTime: Time, queue: seq<Entry<A>>, i: nat)
    requires i < |queue|
  {
    TimeBefore(startTime, queue, i) < queue[i].time
  }

  /** The times after the start time strictly increase. */
  ghost predicate Rising<A>(startTime: Time, queue: seq<Entry<A>>) {
    forall i :: 0 <= i < |queue| ==> RisesAt(startTime, queue, i)
  }

  lemma {:induction false} RisesBetween<A>(startTime: Time, queue: seq<Entry<A>>, i: nat, j: nat)
    requires Rising(startTime, queue) && i <= j <= |queue|
    ensures TimeBefore(startTime, queue, i) <= TimeBefore(startTime, queue, j)
    ensures i < j ==> TimeBefore(startTime, queue, i) < TimeBefore(startTime, queue, j)
    decreases j
  {
    if i < j {
      assert RisesAt(startTime, queue, j - 1);
      RisesBetween(startTime, queue, i, j - 1);
    }
  }

  lemma RisingExtend<A>(startTime: Time, queue: seq<Entry<A>>, e: Entry<A>)
    requires Rising(startTime, queue) && TimeBefore(startTime, queue, |queue|) < e.time
    ensures Rising(startTime, queue + [e])
  {
    var longer := queue + [e];
    forall i | 0 <= i < |longer|
      ensures RisesAt(startTime, longer, i)
    {
      assert i < |queue| ==> RisesAt(startTime, queue, i);
    }
  }

  lemma RisingSuffix<A>(startTime: Time, queue: seq<Entry<A>>, k: nat)
    requires Rising(startTime, queue) && k <= |queue|
    ensures Rising(TimeBefore(startTime, queue, k), queue[k..])
  {
    forall i | 0 <= i < |queue| - k
      ensures RisesAt(TimeBefore(startTime, queue, k), queue[k..], i)
    {
      assert RisesAt(startTime, queue, k + i);
    }
  }

  lemma RisingPrefix<A>(startTime: Time, queue: seq<Entry<A>>, k: nat)
    requires Rising(startTime, queue) && k <= |queue|
    ensures Rising(startTime, queue[..k])
  {
    forall i | 0 <= i < k
      ensures RisesAt(startTime, queue[..k], i)
    {
      assert RisesAt(startTime, queue, i);
    }
  }

  // ---------------------------------------------------------------- coherence

  ghost predicate AllEmpty<A>(layers: seq<Layer<A>>) {
    forall k :: 0 <= k < |layers| ==> layers[k].queue == []
  }

  /** Each layer ends where the one above it begins, none holds too much, and no layer holds anything
      below an empty one. */
  ghost predicate Coherent<A>(cfgs: seq<Config<A>>, layers: seq<Layer<A>>)
    requires |cfgs| == |layers|
    decreases |layers|
  {
    layers == [] ||
    (&& Rising(layers[0].startTime, layers[0].queue) && |layers[0].queue| <= cfgs[0].len
     && (|layers| > 1 && cfgs[0].ratio > 0 ==> layers[1].EndTime() == layers[0].startTime)
     && (cfgs[0].ratio == 0 || layers[0].queue == [] ==> AllEmpty(layers[1..]))
     && Coherent(cfgs[1..], layers[1..]))
  }

  /** The stream passed on rises too, and ends where the layer's own entries begin. */
  lemma {:induction false} PassedOnRises<A>(cfgs: seq<Config<A>>, startTime: Time, stream: seq<Entry<A>>)
    requires cfgs != [] && WellConfigured(cfgs) && !IsSink(cfgs) && Rising(startTime, stream)
    ensures var r, g := PassedOn(cfgs, stream), GoneFrom(cfgs, |stream|);
      Rising(startTime, r) && TimeBefore(startTime, r, |r|) == TimeBefore(startTime, stream, g)
    decreases |stream|
  {
    if stream != [] {
      var before := stream[..|stream| - 1];
      var g := GoneFrom(cfgs, |before|);
      RisingPrefix(startTime, stream, |before|);
      PassedOnRises(cfgs, startTime, before);
      if |before| - g == cfgs[0].len {
        RisesBetween(startTime, stream, g, g + cfgs[0].ratio);
        RisingExtend(startTime, PassedOn(cfgs, before), Folded(cfgs[0], before[g..g + cfgs[0].ratio]));
      } else {
        assert PassedOn(cfgs, before) + [] == PassedOn(cfgs, before);
      }
    }
  }

  lemma {:induction false} NoHistory<A>(cfgs: seq<Config<A>>, startTime: Time)
    requires WellConfigured(cfgs)
    ensures AllEmpty(Cascade(cfgs, startTime, []))
  {
    if cfgs != [] {
      NoHistory(cfgs[1..], startTime);
      assert forall k :: 1 <= k < |cfgs| ==>
        Cascade(cfgs, startTime, [])[k] == Cascade(cfgs[1..], startTime, [])[k - 1];
    }
  }

  lemma CascadeEnds<A>(cfgs: seq<Config<A>>, startTime: Time, stream: seq<Entry<A>>)
    requires cfgs != [] && WellConfigured(cfgs)
    ensures Cascade(cfgs, startTime, stream)[0].EndTime() == TimeBefore(startTime, stream, |stream|)
  {
  }

  /** The layers of a history whose times increase are coherent. */
  lemma {:induction false} HistoryIsCoherent<A>(cfgs: seq<Config<A>>, startTime: Time, stream: seq<Entry<A>>)
    requires WellConfigured(cfgs) && Rising(startTime, stream)
    ensures Coherent(cfgs, Cascade(cfgs, startTime, stream))
    decreases |cfgs|
  {
    if cfgs != [] {
      var passed, lower := PassedOn(cfgs, stream), Cascade(cfgs[1..], startTime, PassedOn(cfgs, stream));
      var layers := Cascade(cfgs, startTime, stream);
      assert layers[1..] == lower;
      RisingSuffix(startTime, stream, GoneFrom(cfgs, |stream|));
      if !IsSink(cfgs) {
        PassedOnRises(cfgs, startTime, stream);
        CascadeEnds(cfgs[1..], startTime, passed);
      }
      HistoryIsCoherent(cfgs[1..], startTime, passed);
      NoHistory(cfgs[1..], startTime);
      hide Cascade, Rising;
    }
  }

  // ---------------------------------------------------------------- conservation

  /** How many entries of the history the layers stand for, given how many the last one dropped: an entry
      of a layer stands for as many entries of the layer above it as that layer's ratio. */
  function Represented<A>(cfgs: seq<Config<A>>, layers: seq<Layer<A>>, dropped: nat): nat
    requires |cfgs| == |layers| && layers != []
    decreases |layers|
  {
    |layers[0].queue| + if IsSink(cfgs) then dropped else cfgs[0].ratio * Represented(cfgs[1..], layers[1..], dropped)
  }

  /** How many entries the last reachable layer dropped. */
  function Dropped<A>(cfgs: seq<Config<A>>, stream: seq<Entry<A>>): nat
    requires cfgs != [] && WellConfigured(cfgs)
    decreases |cfgs|
  {
    if IsSink(cfgs) then GoneFrom(cfgs, |stream|) else Dropped(cfgs[1..], PassedOn(cfgs, stream))
  }

  /** Nothing is lost or counted twice on the way down: the entries of the history are exactly those
      that the layers stand for, and those dropped. */
  lemma {:induction false} HistoryIsConserved<A>(cfgs: seq<Config<A>>, startTime: Time, stream: seq<Entry<A>>)
    requires cfgs != [] && WellConfigured(cfgs)
    ensures Represented(cfgs, Cascade(cfgs, startTime, stream), Dropped(cfgs, stream)) == |stream|
    decreases |cfgs|
  {
    var layers := Cascade(cfgs, startTime, stream);
    assert layers[1..] == Cascade(cfgs[1..], startTime, PassedOn(cfgs, stream));
    if !IsSink(cfgs) {
      HistoryIsConserved(cfgs[1..], startTime, PassedOn(cfgs, stream));
      PassedOnCounts(cfgs, stream);
    }
  }

  // ---------------------------------------------------------------- segments

  datatype Segment<A> = Segment(begin: Time, end: Time, axis: A)

  function SegmentsOf<A>(l: Layer<A>): (r: seq<Segment<A>>)
    ensures |r| == |l.queue|
  {
    seq(|l.queue|, i requires 0 <= i < |l.queue| =>
      Segment(TimeBefore(l.startTime, l.queue, i), l.queue[i].time, l.queue[i].axis))
  }

  /** All stored segments, the oldest first. */
  function AllSegments<A>(layers: seq<Layer<A>>): seq<Segment<A>> {
    if layers == [] then [] else AllSegments(layers[1..]) + SegmentsOf(layers[0])
  }

  predicate Touches<A>(g: Segment<A>, startTime: Time, endTime: Time) {
    g.begin < endTime && startTime < g.end
  }

  /** The segments that intersect a window, in order. */
  function Hits<A>(gs: seq<Segment<A>>, startTime: Time, endTime: Time): seq<Segment<A>> {
    if gs == [] then []
    else Hits(gs[..|gs| - 1], startTime, endTime) + if Touches(Last(gs), startTime, endTime) then [Last(gs)] else []
  }

  lemma {:induction false} HitsConcat<A>(a: seq<Segment<A>>, b: seq<Segment<A>>, startTime: Time, endTime: Time)
    ensures Hits(a + b, startTime, endTime) == Hits(a, startTime, endTime) + Hits(b, startTime, endTime)
  {
    if b == [] {
      assert a + b == a;
    } else {
      var c := b[..|b| - 1];
      HitsConcat(a, c, startTime, endTime);
      assert (a + b)[..|a + b| - 1] == a + c;
    }
  }

  lemma {:induction false} HitsAllOrNone<A>(gs: seq<Segment<A>>, startTime: Time, endTime: Time, all: bool)
    requires forall i :: 0 <= i < |gs| ==> Touches(gs[i], startTime, endTime) == all
    ensures Hits(gs, startTime, endTime) == if all then gs else []
  {
    if gs != [] {
      HitsAllOrNone(gs[..|gs| - 1], startTime, endTime, all);
    }
  }

  /** If just the segments from `from` to `to` touch the window, they are the hits. */
  lemma HitsSlice<A>(gs: seq<Segment<A>>, startTime: Time, endTime: Time, from: nat, to: nat)
    requires from <= to <= |gs|
    requires forall i :: 0 <= i < |gs| ==> (Touches(gs[i], startTime, endTime) <==> from <= i < to)
    ensures Hits(gs, startTime, endTime) == gs[from..to]
  {
    hide Hits, Touches;
    var a, b, c := gs[..from], gs[from..to], gs[to..];
    assert gs == (a + b) + c;
    HitsAllOrNone(a, startTime, endTime, false);
    HitsAllOrNone(b, startTime, endTime, true);
    HitsAllOrNone(c, startTime, endTime, false);
    HitsConcat(a, b, startTime, endTime);
    HitsConcat(a + b, c, startTime, endTime);
    assert [] + b + [] == b;
  }

  ghost predicate LinkedAt<A>(gs: seq<Segment<A>>, i: nat)
    requires i < |gs|
  {
    gs[i].begin < gs[i].end && (i > 0 ==> gs[i - 1].end == gs[i].begin)
  }

  /** No segment is empty, and each begins where the one before it ends. */
  ghost predicate Contiguous<A>(gs: seq<Segment<A>>) {
    forall i :: 0 <= i < |gs| ==> LinkedAt(gs, i)
  }

  lemma ContiguousConcat<A>(a: seq<Segment<A>>, b: seq<Segment<A>>)
    requires Contiguous(a) && Contiguous(b) && (a != [] && b != [] ==> Last(a).end == b[0].begin)
    ensures Contiguous(a + b)
  {
    forall i | 0 <= i < |a + b|
      ensures LinkedAt(a + b, i)
    {
      assert if i < |a| then LinkedAt(a, i) else LinkedAt(b, i - |a|);
    }
  }

  lemma ContiguousPrefix<A>(gs: seq<Segment<A>>)
    requires gs != [] && Contiguous(gs)
    ensures Contiguous(gs[..|gs| - 1])
  {
    var shorter := gs[..|gs| - 1];
    forall i | 0 <= i < |shorter|
      ensures LinkedAt(shorter, i)
    {
      assert LinkedAt(gs, i);
    }
  }

  lemma SegmentsOfRising<A>(l: Layer<A>)
    requires Rising(l.startTime, l.queue)
    ensures Contiguous(SegmentsOf(l))
  {
    forall i | 0 <= i < |l.queue|
      ensures LinkedAt(SegmentsOf(l), i)
    {
      assert RisesAt(l.startTime, l.queue, i);
    }
  }

  lemma {:induction false} EmptyHasNoSegments<A>(layers: seq<Layer<A>>)
    requires AllEmpty(layers)
    ensures AllSegments(layers) == []
  {
    if layers != [] {
      EmptyHasNoSegments(layers[1..]);
    }
  }

  /** Coherent layers store one contiguous stretch of time. */
  lemma {:induction false} CoherentIsContiguous<A>(cfgs: seq<Config<A>>, layers: seq<Layer<A>>)
    requires |cfgs| == |layers| && Coherent(cfgs, layers)
    ensures Contiguous(AllSegments(layers))
    ensures layers != [] && AllSegments(layers) != [] ==> Last(AllSegments(layers)).end == layers[0].EndTime()
    decreases |layers|
  {
    if layers != [] {
      var below, own := AllSegments(layers[1..]), SegmentsOf(layers[0]);
      assert AllSegments(layers) == below + own;
      CoherentIsContiguous(cfgs[1..], layers[1..]);
      SegmentsOfRising(layers[0]);
      if cfgs[0].ratio == 0 || layers[0].queue == [] {
        EmptyHasNoSegments(layers[1..]);
      }
      JoinSegments(below, layers[0], if |layers| > 1 then layers[1].EndTime() else layers[0].startTime);
    }
  }

  /** Putting a layer's segments after those of the layers below it. */
  lemma JoinSegments<A>(below: seq<Segment<A>>, l: Layer<A>, belowEnd: Time)
    requires Contiguous(below) && Contiguous(SegmentsOf(l))
    requires below != [] ==> Last(below).end == belowEnd == l.startTime && l.queue != []
    ensures var all := below + SegmentsOf(l);
      Contiguous(all) && (all != [] ==> Last(all).end == l.EndTime())
  {
    ContiguousConcat(below, SegmentsOf(l));
  }

  lemma {:induction false} EndsRise<A>(gs: seq<Segment<A>>, startTime: Time, endTime: Time)
    requires Contiguous(gs) && Hits(gs, startTime, endTime) != []
    ensures startTime < Last(gs).end
  {
    assert LinkedAt(gs, |gs| - 1);
    if !Touches(Last(gs), startTime, endTime) {
      var before := gs[..|gs| - 1];
      ContiguousPrefix(gs);
      EndsRise(before, startTime, endTime);
    }
  }

  /** The hits of a window on a contiguous stretch are contiguous. */
  lemma {:induction false} HitsAreContiguous<A>(gs: seq<Segment<A>>, startTime: Time, endTime: Time)
    requires Contiguous(gs)
    ensures Contiguous(Hits(gs, startTime, endTime))
    ensures gs != [] && Touches(Last(gs), startTime, endTime) ==> Last(Hits(gs, startTime, endTime)) == Last(gs)
  {
    if gs != [] {
      var before, z := gs[..|gs| - 1], Last(gs);
      ContiguousPrefix(gs);
      HitsAreContiguous(before, startTime, endTime);
      assert LinkedAt(gs, |gs| - 1) && LinkedAt([z], 0);
      if Touches(z, startTime, endTime) {
        if Hits(before, startTime, endTime) != [] {
          EndsRise(before, startTime, endTime);
          assert LinkedAt(before, |before| - 1);
        }
        ContiguousConcat(Hits(before, startTime, endTime), [z]);
      } else {
        assert Hits(before, startTime, endTime) + [] == Hits(before, startTime, endTime);
      }
    }
  }

  /** In a layer, the segments that touch a window begin with the first that ends after its start, and end
      with the first that ends at or after its end. */
  lemma LayerWindow<A>(l: Layer<A>, startTime: Time, endTime: Time, from: nat, reach: nat, to: nat)
    requires Rising(l.startTime, l.queue) && startTime < endTime && l.startTime < endTime && startTime < l.EndTime()
      && l.queue != []
    requires from <= |l.queue| && forall i :: 0 <= i < |l.queue| ==> (l.queue[i].time > startTime <==> from <= i)
    requires reach <= |l.queue| && forall i :: 0 <= i < |l.queue| ==> (l.queue[i].time >= endTime <==> reach <= i)
    requires to == if reach == |l.queue| then reach else reach + 1
    ensures from < to <= |l.queue|
    ensures Hits(SegmentsOf(l), startTime, endTime) == SegmentsOf(l)[from..to]
  {
    var gs := SegmentsOf(l);
    assert l.queue[|l.queue| - 1].time > startTime;
    assert reach < |l.queue| ==> l.queue[reach].time > startTime;
    forall i | 0 <= i < |gs|
      ensures Touches(gs[i], startTime, endTime) <==> from <= i < to
    {
      assert i > 0 ==> (l.queue[i - 1].time >= endTime <==> reach <= i - 1);
    }
    HitsSlice(gs, startTime, endTime, from, to);
  }

  lemma NoHits<A>(l: Layer<A>, startTime: Time, endTime: Time)
    requires Rising(l.startTime, l.queue) && (l.queue == [] || l.EndTime() <= startTime || endTime <= l.startTime)
    ensures Hits(SegmentsOf(l), startTime, endTime) == []
  {
    forall i | 0 <= i < |l.queue|
      ensures !Touches(SegmentsOf(l)[i], startTime, endTime)
    {
      RisesBetween(l.startTime, l.queue, 0, i);
      RisesBetween(l.startTime, l.queue, i + 1, |l.queue|);
    }
    HitsAllOrNone(SegmentsOf(l), startTime, endTime, false);
  }

  // ---------------------------------------------------------------- the answer to a query

  /** The boundary times and the axes of some segments. */
  function Times<A>(gs: seq<Segment<A>>): (times: seq<Time>)
    ensures |times| == if gs == [] then 0 else |gs| + 1
  {
    if gs == [] then [] else [gs[0].begin] + seq(|gs|, i requires 0 <= i < |gs| => gs[i].end)
  }

  function Ends<A>(gs: seq<Segment<A>>): (ends: seq<Time>)
    ensures |ends| == |gs|
  {
    seq(|gs|, i requires 0 <= i < |gs| => gs[i].end)
  }

  /** The first layer's hits come after those of the layers below it. */
  lemma HitsOfLayers<A>(layers: seq<Layer<A>>, startTime: Time, endTime: Time)
    ensures Hits(AllSegments<A>([]), startTime, endTime) == []
    ensures layers != [] ==> (Hits(AllSegments(layers), startTime, endTime)
          == Hits(AllSegments(layers[1..]), startTime, endTime) + Hits(SegmentsOf(layers[0]), startTime, endTime))
  {
    if layers != [] {
      HitsConcat(AllSegments(layers[1..]), SegmentsOf(layers[0]), startTime, endTime);
    }
  }

  /** Adding segments to an answer adds their ends, after their begin if there were none. */
  lemma AnswerConcat<A>(a: seq<Segment<A>>, b: seq<Segment<A>>)
    requires b != []
    ensures Times(a + b) == (if Times(a) == [] then [b[0].begin] else Times(a)) + Ends(b)
    ensures SegmentAxes(a + b) == SegmentAxes(a) + SegmentAxes(b)
  {
    assert Ends(a + b) == Ends(a) + Ends(b);
  }

  function SegmentAxes<A>(gs: seq<Segment<A>>): (axes: seq<A>)
    ensures |axes| == |gs|
  {
    seq(|gs|, i requires 0 <= i < |gs| => gs[i].axis)
  }

  /** Two consecutive times of an answer bound its `i`-th segment, and increase. */
  ghost predicate BoundsAt<A>(times: seq<Time>, hits: seq<Segment<A>>, i: nat)
    requires i < |hits| && |times| == |hits| + 1
  {
    times[i] == hits[i].begin && times[i + 1] == hits[i].end && times[i] < times[i + 1]
  }

  lemma ContiguousTimes<A>(hits: seq<Segment<A>>)
    requires Contiguous(hits)
    ensures forall i :: 0 <= i < |hits| ==> BoundsAt(Times(hits), hits, i)
  {
    forall i | 0 <= i < |hits|
      ensures BoundsAt(Times(hits), hits, i)
    {
      assert LinkedAt(hits, i);
    }
  }

  /** The answer is the segments from `from` to the one before `to`, which are just those that begin before the window
      ends and end after it begins: their axes, and the times that bound them. */
  ghost predicate IsAnswer<A>(gs: seq<Segment<A>>, startTime: Time, endTime: Time, times: seq<Time>, axes: seq<A>,
                              from: nat, to: nat)
  {
    && from <= to <= |gs|
    && (forall i :: 0 <= i < |gs| ==> (from <= i < to <==> gs[i].begin < endTime && startTime < gs[i].end))
    && AnswersWith(gs[from..to], times, axes)
  }

  ghost predicate AnswersWith<A>(hits: seq<Segment<A>>, times: seq<Time>, axes: seq<A>) {
    && |axes| == |hits| && (forall i :: 0 <= i < |hits| ==> axes[i] == hits[i].axis)
    && if hits == [] then times == []
       else |times| == |hits| + 1 && times[0] == hits[0].begin
            && forall i :: 0 <= i < |hits| ==> times[i + 1] == hits[i].end
  }

  lemma AnswersWithAll<A>(hits: seq<Segment<A>>, times: seq<Time>, axes: seq<A>)
    ensures times == Times(hits) && axes == SegmentAxes(hits) <==> AnswersWith(hits, times, axes)
  {
    var own := Times(hits);
    forall i | 0 <= i < |hits|
      ensures own[i + 1] == hits[i].end
    {
    }
    if AnswersWith(hits, times, axes) {
      assert axes == SegmentAxes(hits);
      forall i | 0 <= i < |times|
        ensures times[i] == own[i]
      {
        assert i > 0 ==> times[i - 1 + 1] == hits[i - 1].end;
      }
    }
  }

  /** For contiguous segments, exactly that is the answer to a query. */
  lemma {:induction false} AnswerExactly<A(!new)>(gs: seq<Segment<A>>, startTime: Time, endTime: Time,
                                                  times: seq<Time>, axes: seq<A>)
    requires Contiguous(gs) && startTime < endTime
    ensures times == Times(Hits(gs, startTime, endTime)) && axes == SegmentAxes(Hits(gs, startTime, endTime))
      <==> exists from, to :: IsAnswer(gs, startTime, endTime, times, axes, from, to)
  {
    var from, to := WindowOf(gs, startTime, endTime);
    HitsSlice(gs, startTime, endTime, from, to);
    hide Hits, Contiguous;
    SliceIsAnswer(gs, startTime, endTime, times, axes, from, to);
    if exists f, t :: IsAnswer(gs, startTime, endTime, times, axes, f, t) {
      var f, t :| IsAnswer(gs, startTime, endTime, times, axes, f, t);
      HitsSlice(gs, startTime, endTime, f, t);
      SliceIsAnswer(gs, startTime, endTime, times, axes, f, t);
    }
  }

  lemma SliceIsAnswer<A>(gs: seq<Segment<A>>, startTime: Time, endTime: Time, times: seq<Time>, axes: seq<A>,
                         from: nat, to: nat)
    requires from <= to <= |gs|
    requires forall i :: 0 <= i < |gs| ==> (Touches(gs[i], startTime, endTime) <==> from <= i < to)
    ensures times == Times(gs[from..to]) && axes == SegmentAxes(gs[from..to])
      <==> IsAnswer(gs, startTime, endTime, times, axes, from, to)
  {
    hide AnswersWith, Times, SegmentAxes;
    AnswersWithAll(gs[from..to], times, axes);
  }

  /** Where the segments that touch a window begin and end. */
  lemma {:induction false} WindowOf<A>(gs: seq<Segment<A>>, startTime: Time, endTime: Time) returns (from: nat, to: nat)
    requires Contiguous(gs) && startTime < endTime
    ensures from <= to <= |gs|
    ensures forall i :: 0 <= i < |gs| ==> (Touches(gs[i], startTime, endTime) <==> from <= i < to)
    ensures gs != [] ==> (to < |gs| ==> Last(gs).begin >= endTime) && (from == |gs| <==> Last(gs).end <= startTime)
  {
    from, to := 0, 0;
    if gs != [] {
      var before := gs[..|gs| - 1];
      ContiguousPrefix(gs);
      assert LinkedAt(gs, |gs| - 1);
      from, to := WindowOf(before, startTime, endTime);
      assert before != [] ==> LinkedAt(before, |before| - 1);
      if from == |before| && Last(gs).end <= startTime {
        from, to := |gs|, |gs|;
      } else if to == |before| && Last(gs).begin < endTime {
        to := |gs|;
      }
    }
  }

  /** After any run of appends with increasing times, a query gives back exactly the stored segments that
      intersect its window, in order; their times strictly increase, each segment beginning where the one
      before it ends; and there is one time more than there are axes, or neither. */
  lemma QueryIsContiguous<A>(cfgs: seq<Config<A>>, start: Time, run: seq<Entry<A>>, startTime: Time, endTime: Time)
    requires cfgs != [] && WellConfigured(cfgs) && Rising(start, run)
    ensures var hits := Hits(AllSegments(AfterRun(cfgs, start, run)), startTime, endTime);
      var times := Times(hits);
      && Contiguous(hits)
      && (forall i :: 0 <= i < |hits| ==> BoundsAt(times, hits, i))
      && (if hits == [] then times == [] else |times| == |SegmentAxes(hits)| + 1)
  {
    var layers := AfterRun(cfgs, start, run);
    RunGivesHistory(cfgs, start, run);
    HistoryIsCoherent(cfgs, start, run);
    CoherentIsContiguous(cfgs, layers);
    hide AfterRun, Cascade, Coherent, Rising, AllSegments, Contiguous, Hits, Times;
    HitsAreContiguous(AllSegments(layers), startTime, endTime);
    ContiguousTimes(Hits(AllSegments(layers), startTime, endTime));
  }

  /** After any such run, exactly the stored segments that meet the window are the answer to a query. */
  lemma QueryExactly<A(!new)>(cfgs: seq<Config<A>>, start: Time, run: seq<Entry<A>>, startTime: Time, endTime: Time,
                              times: seq<Time>, axes: seq<A>)
    requires cfgs != [] && WellConfigured(cfgs) && Rising(start, run) && startTime < endTime
    ensures var segments := AllSegments(AfterRun(cfgs, start, run));
      var hits := Hits(segments, startTime, endTime);
      times == Times(hits) && axes == SegmentAxes(hits)
      <==> exists from, to :: IsAnswer(segments, startTime, endTime, times, axes, from, to)
  {
    var layers := AfterRun(cfgs, start, run);
    RunGivesHistory(cfgs, start, run);
    HistoryIsCoherent(cfgs, start, run);
    CoherentIsContiguous(cfgs, layers);
    hide AfterRun, Cascade, Coherent, Rising, AllSegments, Contiguous, Hits, Times;
    AnswerExactly(AllSegments(layers), startTime, endTime, times, axes);
  }
}
