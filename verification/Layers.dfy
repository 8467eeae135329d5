/** The cascade of layers as a function of everything that was ever appended (storage/stat.go). */
module Layers {
  import opened Seqs

  type Time = int

  /** An axis and the time it ends at. */
  datatype Entry<A> = Entry(time: Time, axis: A)

  /** A layer's capacity, how many of its axes make one of the next layer, and how they are made into it. */
  datatype Config<!A> = Config(len: nat, ratio: nat, fold: seq<A> -> A)

  /** What a layer holds: entries, the first of which begins at the start time. */
  datatype Layer<A> = Layer(startTime: Time, queue: seq<Entry<A>>) {
    function EndTime(): Time {
      if queue == [] then startTime else Last(queue).time
    }
  }

  /** Every layer has room, and no layer that has a next one passes on more than it holds. */
  ghost predicate WellConfigured<A>(cfgs: seq<Config<A>>) {
    forall k :: 0 <= k < |cfgs| ==> 1 <= cfgs[k].len && (k < |cfgs| - 1 ==> cfgs[k].ratio <= cfgs[k].len)
  }

  function Axes<A>(entries: seq<Entry<A>>): (axes: seq<A>)
    ensures |axes| == |entries|
  {
    seq(|entries|, i requires 0 <= i < |entries| => entries[i].axis)
  }

  /** A layer that passes nothing on drops its oldest entry instead. */
  predicate IsSink<A>(cfgs: seq<Config<A>>)
    requires cfgs != []
  {
    cfgs[0].ratio == 0 || |cfgs| == 1
  }

  /** The entry that a layer passes on, made of its oldest entries. */
  function Folded<A>(c: Config<A>, oldest: seq<Entry<A>>): Entry<A>
    requires oldest != []
  {
    Entry(Last(oldest).time, c.fold(Axes(oldest)))
  }

  /** Making room in the first layer, which is full. */
  function Reduce<A>(cfgs: seq<Config<A>>, layers: seq<Layer<A>>): (r: seq<Layer<A>>)
    requires |cfgs| == |layers| && layers != [] && WellConfigured(cfgs) && |layers[0].queue| == cfgs[0].len
    ensures |r| == |layers|
    decreases |layers|, 0
  {
    var c, l := cfgs[0], layers[0];
    if IsSink(cfgs) then [Layer(l.queue[0].time, l.queue[1..])] + layers[1..]
    else
      var passed := Folded(c, l.queue[..c.ratio]);
      [Layer(passed.time, l.queue[c.ratio..])] + Append(cfgs[1..], layers[1..], passed)
  }

  /** Appending an entry to the first layer: a full layer first makes room. */
  function Append<A>(cfgs: seq<Config<A>>, layers: seq<Layer<A>>, e: Entry<A>): (r: seq<Layer<A>>)
    requires |cfgs| == |layers| && layers != [] && WellConfigured(cfgs)
    ensures |r| == |layers|
    decreases |layers|, 1
  {
    var room := if |layers[0].queue| == cfgs[0].len then Reduce(cfgs, layers) else layers;
    [Layer(room[0].startTime, room[0].queue + [e])] + room[1..]
  }

  /** All layers empty. */
  function Fresh<A>(cfgs: seq<Config<A>>, startTime: Time): (r: seq<Layer<A>>)
    ensures |r| == |cfgs|
  {
    if cfgs == [] then [] else [Layer(startTime, [])] + Fresh(cfgs[1..], startTime)
  }

  /** The layers after a run of appends. */
  function AfterRun<A>(cfgs: seq<Config<A>>, startTime: Time, run: seq<Entry<A>>): (r: seq<Layer<A>>)
    requires cfgs != [] && WellConfigured(cfgs)
    ensures |r| == |cfgs|
  {
    if run == [] then Fresh(cfgs, startTime)
    else Append(cfgs, AfterRun(cfgs, startTime, run[..|run| - 1]), Last(run))
  }

  // ---------------------------------------------------------------- the history

  /** How many entries a layer that keeps `len` and gives up `step` at a time has given up after taking `n`. */
  function Gone(len: nat, step: nat, n: nat): (g: nat)
    requires 1 <= step <= len
    ensures g <= n <= g + len && (n > 0 ==> g < n)
  {
    if n == 0 then 0
    else
      var g := Gone(len, step, n - 1);
      if n - 1 - g == len then g + step else g
  }

  function Step<A>(cfgs: seq<Config<A>>): nat
    requires cfgs != []
  {
    if IsSink(cfgs) then 1 else cfgs[0].ratio
  }

  /** How many entries the first layer has given up. */
  function GoneFrom<A>(cfgs: seq<Config<A>>, n: nat): (g: nat)
    requires cfgs != [] && WellConfigured(cfgs)
    ensures g <= n <= g + cfgs[0].len && (n > 0 ==> g < n)
  {
    Gone(cfgs[0].len, Step(cfgs), n)
  }

  /** The stream that the next layer has been given, when this layer has been given `stream`. */
  function PassedOn<A>(cfgs: seq<Config<A>>, stream: seq<Entry<A>>): (r: seq<Entry<A>>)
    requires cfgs != [] && WellConfigured(cfgs)
    ensures IsSink(cfgs) ==> r == []
    decreases |stream|
  {
    if IsSink(cfgs) || stream == [] then []
    else
      var before := stream[..|stream| - 1];
      var g := GoneFrom(cfgs, |before|);
      PassedOn(cfgs, before)
      + if |before| - g == cfgs[0].len then [Folded(cfgs[0], before[g..g + cfgs[0].ratio])] else []
  }

  /** The layers as a function of the whole history: each holds the end of the stream it was given, and
      begins where what it gave up ends. */
  function Cascade<A>(cfgs: seq<Config<A>>, startTime: Time, stream: seq<Entry<A>>): (r: seq<Layer<A>>)
    requires WellConfigured(cfgs)
    ensures |r| == |cfgs|
    decreases |cfgs|
  {
    if cfgs == [] then []
    else
      [FirstLayer(cfgs, startTime, stream)] + Cascade(cfgs[1..], startTime, PassedOn(cfgs, stream))
  }

  lemma FreshIsCascade<A>(cfgs: seq<Config<A>>, startTime: Time)
    requires WellConfigured(cfgs)
    ensures Fresh(cfgs, startTime) == Cascade(cfgs, startTime, [])
  {
    if cfgs != [] {
      FreshIsCascade(cfgs[1..], startTime);
    }
  }

  lemma SameQuotient(step: nat, q: int, r: nat, p: int, s: nat)
    requires r < step && s < step && step * q + r == step * p + s
    ensures q == p && r == s
  {
    var d := p - q;
    assert step * p == step * q + step * d;
    Outgrows(step, d);
  }

  lemma Outgrows(step: int, d: int)
    requires step >= 1 && 0 - step < step * d < step
    ensures d == 0
  {
    assert d >= 1 ==> step * d >= step;
    assert d <= -1 ==> step * d <= 0 - step;
  }

  /** How much a layer has given up, in closed form: nothing until it is full, then whole steps, just
      enough to make room. */
  lemma {:induction false} GoneInClosedForm(len: nat, step: nat, n: nat)
    requires 1 <= step <= len
    ensures Gone(len, step, n) == if n <= len then 0 else step * ((n - len + step - 1) / step)
  {
    if n > 0 {
      GoneInClosedForm(len, step, n - 1);
      if n > len {
        RoundUp(n - 1 - len, step);
      }
    }
  }

  /** Rounding `m + 1` up to a multiple of `step` adds a step just when `m` is a multiple. */
  lemma RoundUp(m: nat, step: nat)
    requires step >= 1
    ensures var up, next := step * ((m + step - 1) / step), step * ((m + step) / step);
      next == if up == m then up + step else up
  {
    var q, r := m / step, m % step;
    assert m == step * q + r;
    assert step * (q + 1) == step * q + step;
    Quotients(q + 1, r, step);
    RoundedUp(q, r, step);
  }

  lemma RoundedUp(q: nat, r: nat, step: nat)
    requires r < step
    ensures (step * q + r + step - 1) / step == if r == 0 then q else q + 1
  {
    if r == 0 {
      Quotients(q, step - 1, step);
    } else {
      assert step * (q + 1) == step * q + step;
      Quotients(q + 1, r - 1, step);
    }
  }

  lemma Quotients(q: nat, r: nat, step: nat)
    requires r < step
    ensures (step * q + r) / step == q
  {
    var x := step * q + r;
    assert x >= 0 by { assert step * q >= 0; }
    SameQuotient(step, q, r, x / step, x % step);
  }

  /** The groups passed on make up exactly what the layer has given up. */
  lemma {:induction false} PassedOnCounts<A>(cfgs: seq<Config<A>>, stream: seq<Entry<A>>)
    requires cfgs != [] && WellConfigured(cfgs) && !IsSink(cfgs)
    ensures cfgs[0].ratio * |PassedOn(cfgs, stream)| == GoneFrom(cfgs, |stream|)
    decreases |stream|
  {
    if stream != [] {
      var before := stream[..|stream| - 1];
      PassedOnCounts(cfgs, before);
      OneMoreGroup(cfgs[0].ratio, |PassedOn(cfgs, before)|);
    }
  }

  lemma OneMoreGroup(ratio: nat, k: nat)
    ensures ratio * (k + 1) == ratio * k + ratio
  {
  }

  /** Entry `j` of the stream passed on is made of group `j` of the stream. */
  lemma {:induction false} PassedOnIsFolded<A>(cfgs: seq<Config<A>>, stream: seq<Entry<A>>, j: nat, from: nat)
    requires cfgs != [] && WellConfigured(cfgs) && !IsSink(cfgs) && j < |PassedOn(cfgs, stream)|
    requires from == cfgs[0].ratio * j
    ensures from + cfgs[0].ratio <= |stream|
    ensures PassedOn(cfgs, stream)[j] == Folded(cfgs[0], stream[from..from + cfgs[0].ratio])
    decreases |stream|
  {
    var before, ratio := stream[..|stream| - 1], cfgs[0].ratio;
    if j < |PassedOn(cfgs, before)| {
      PassedOnIsFolded(cfgs, before, j, from);
    } else {
      PassedOnCounts(cfgs, before);
    }
    assert stream[from..from + ratio] == before[from..from + ratio];
  }

  /** One more entry into the stream passes one more entry on, just when the layer was full. */
  lemma PassedOnGrows<A>(cfgs: seq<Config<A>>, stream: seq<Entry<A>>, e: Entry<A>)
    requires cfgs != [] && WellConfigured(cfgs)
    ensures var g := GoneFrom(cfgs, |stream|);
      var full := |stream| - g == cfgs[0].len;
      && GoneFrom(cfgs, |stream| + 1) == (if full then g + Step(cfgs) else g)
      && PassedOn(cfgs, stream + [e])
      == if full && !IsSink(cfgs) then PassedOn(cfgs, stream) + [Folded(cfgs[0], stream[g..g + cfgs[0].ratio])]
         else PassedOn(cfgs, stream)
  {
    assert (stream + [e])[..|stream|] == stream;
    assert PassedOn(cfgs, stream) + [] == PassedOn(cfgs, stream);
  }

  /** The first layer of a history. */
  function FirstLayer<A>(cfgs: seq<Config<A>>, startTime: Time, stream: seq<Entry<A>>): Layer<A>
    requires cfgs != [] && WellConfigured(cfgs)
  {
    var g := GoneFrom(cfgs, |stream|);
    Layer(if g == 0 then startTime else stream[g - 1].time, stream[g..])
  }

  lemma FirstLayerGrows<A>(cfgs: seq<Config<A>>, startTime: Time, stream: seq<Entry<A>>, e: Entry<A>)
    requires cfgs != [] && WellConfigured(cfgs)
    ensures var l, next := FirstLayer(cfgs, startTime, stream), FirstLayer(cfgs, startTime, stream + [e]);
      next == if |l.queue| == cfgs[0].len then Layer(l.queue[Step(cfgs) - 1].time, l.queue[Step(cfgs)..] + [e])
              else Layer(l.startTime, l.queue + [e])
  {
    var g, longer := GoneFrom(cfgs, |stream|), stream + [e];
    if |stream| - g == cfgs[0].len {
      assert longer[g + Step(cfgs)..] == stream[g..][Step(cfgs)..] + [e];
    } else {
      assert longer[g..] == stream[g..] + [e];
    }
  }

  /** Appending to the layers that a history gives makes the layers of the longer history. */
  lemma {:induction false} AppendExtendsHistory<A>(cfgs: seq<Config<A>>, startTime: Time, stream: seq<Entry<A>>,
                                                   e: Entry<A>)
    requires cfgs != [] && WellConfigured(cfgs)
    ensures Append(cfgs, Cascade(cfgs, startTime, stream), e) == Cascade(cfgs, startTime, stream + [e])
    decreases |cfgs|
  {
    hide Cascade, PassedOn, GoneFrom;
    assert WellConfigured(cfgs[1..]);
    var g, passed := GoneFrom(cfgs, |stream|), PassedOn(cfgs, stream);
    var l, lower := FirstLayer(cfgs, startTime, stream), Cascade(cfgs[1..], startTime, passed);
    CascadeSplits(cfgs, startTime, stream);
    CascadeSplits(cfgs, startTime, stream + [e]);
    FirstLayerGrows(cfgs, startTime, stream, e);
    PassedOnGrows(cfgs, stream, e);
    hide WellConfigured, Axes;
    if |l.queue| == cfgs[0].len && !IsSink(cfgs) {
      var ratio := cfgs[0].ratio;
      assert l.queue[..ratio] == stream[g..g + ratio];
      AppendExtendsHistory(cfgs[1..], startTime, passed, Folded(cfgs[0], stream[g..g + ratio]));
    }
  }

  lemma CascadeSplits<A>(cfgs: seq<Config<A>>, startTime: Time, stream: seq<Entry<A>>)
    requires cfgs != [] && WellConfigured(cfgs)
    ensures var layers := Cascade(cfgs, startTime, stream);
      && layers[0] == FirstLayer(cfgs, startTime, stream)
      && layers[1..] == Cascade(cfgs[1..], startTime, PassedOn(cfgs, stream))
  {
  }

  // ---------------------------------------------------------------- what layers hold, entry by entry

  /** How many of `n` entries a layer has given up: none while they fit, then whole steps, just enough to make room. */
  function GivenUp(len: nat, step: nat, n: nat): nat
    requires step >= 1
  {
    if n <= len then 0 else step * ((n - len + step - 1) / step)
  }

  /** Entry `j` passed on ends with the last entry of group `j`, and its axis is made of the group's axes in order. */
  ghost predicate PassedAt<A>(c: Config<A>, stream: seq<Entry<A>>, passed: seq<Entry<A>>, j: nat)
    requires j < |passed|
  {
    var from := c.ratio * j;
    && c.ratio >= 1 && from + c.ratio <= |stream|
    && passed[j].time == stream[from + c.ratio - 1].time
    && passed[j].axis == c.fold(seq(c.ratio, m requires 0 <= m < c.ratio => stream[from + m].axis))
  }

  ghost predicate IsPassedOn<A>(c: Config<A>, stream: seq<Entry<A>>, g: nat, passed: seq<Entry<A>>) {
    c.ratio * |passed| == g && forall j :: 0 <= j < |passed| ==> PassedAt(c, stream, passed, j)
  }

  /** The first layer holds what it has not given up of a stream, and begins where that ends; the layers below hold
      what was passed on, if anything is. */
  ghost predicate HoldStream<A(!new)>(cfgs: seq<Config<A>>, startTime: Time, stream: seq<Entry<A>>,
                                      layers: seq<Layer<A>>)
    requires WellConfigured(cfgs) && cfgs != [] && layers != []
  {
    var passes := |cfgs| > 1 && cfgs[0].ratio > 0;
    var g := GivenUp(cfgs[0].len, if passes then cfgs[0].ratio else 1, |stream|);
    && g <= |stream| && layers[0].queue == stream[g..]
    && layers[0].startTime == (if g == 0 then startTime else stream[g - 1].time)
    && exists passed :: (if passes then IsPassedOn(cfgs[0], stream, g, passed) else passed == [])
                        && HoldBelow(cfgs, startTime, passed, layers)
  }

  ghost predicate HoldBelow<A>(cfgs: seq<Config<A>>, startTime: Time, passed: seq<Entry<A>>, layers: seq<Layer<A>>)
    requires WellConfigured(cfgs) && cfgs != [] && layers != []
  {
    layers[1..] == Cascade(cfgs[1..], startTime, passed)
  }

  /** The layers of a history are the only ones that hold it like that. */
  lemma {:induction false} CascadeExactly<A(!new)>(cfgs: seq<Config<A>>, startTime: Time, stream: seq<Entry<A>>,
                                             layers: seq<Layer<A>>)
    requires WellConfigured(cfgs) && cfgs != [] && layers != []
    ensures layers == Cascade(cfgs, startTime, stream) <==> HoldStream(cfgs, startTime, stream, layers)
  {
    hide Cascade, PassedOn, Gone, PassedAt;
    CascadeSplits(cfgs, startTime, stream);
    GoneInClosedForm(cfgs[0].len, Step(cfgs), |stream|);
    var own := PassedOn(cfgs, stream);
    NothingFromSink(cfgs, stream);
    if !IsSink(cfgs) {
      OwnIsPassedOn(cfgs, stream);
    }
    assert layers == [layers[0]] + layers[1..];
    if layers == Cascade(cfgs, startTime, stream) {
      assert HoldBelow(cfgs, startTime, own, layers);
    }
    if HoldStream(cfgs, startTime, stream, layers) {
      var g := GoneFrom(cfgs, |stream|);
      var passed :| (if IsSink(cfgs) then passed == [] else IsPassedOn(cfgs[0], stream, g, passed))
        && HoldBelow(cfgs, startTime, passed, layers);
      if !IsSink(cfgs) {
        OnePassedOn(cfgs[0], stream, g, passed, own);
      }
    }
  }

  lemma NothingFromSink<A>(cfgs: seq<Config<A>>, stream: seq<Entry<A>>)
    requires cfgs != [] && WellConfigured(cfgs)
    ensures IsSink(cfgs) ==> PassedOn(cfgs, stream) == []
  {
  }

  lemma {:induction false} OwnIsPassedOn<A>(cfgs: seq<Config<A>>, stream: seq<Entry<A>>)
    requires cfgs != [] && WellConfigured(cfgs) && !IsSink(cfgs)
    ensures IsPassedOn(cfgs[0], stream, GoneFrom(cfgs, |stream|), PassedOn(cfgs, stream))
  {
    hide PassedOn, GoneFrom;
    var c, own := cfgs[0], PassedOn(cfgs, stream);
    PassedOnCounts(cfgs, stream);
    forall j | 0 <= j < |own|
      ensures PassedAt(c, stream, own, j)
    {
      var from := c.ratio * j;
      PassedOnIsFolded(cfgs, stream, j, from);
      assert Axes(stream[from..from + c.ratio]) == seq(c.ratio, m requires 0 <= m < c.ratio => stream[from + m].axis);
    }
  }

  lemma OnePassedOn<A>(c: Config<A>, stream: seq<Entry<A>>, g: nat, a: seq<Entry<A>>, b: seq<Entry<A>>)
    requires c.ratio >= 1 && IsPassedOn(c, stream, g, a) && IsPassedOn(c, stream, g, b)
    ensures a == b
  {
    SameQuotient(c.ratio, |a|, 0, |b|, 0);
    forall j | 0 <= j < |a|
      ensures a[j] == b[j]
    {
      assert PassedAt(c, stream, a, j) && PassedAt(c, stream, b, j);
    }
  }

  /** A cascade of layers holds, after any run, just what the run alone determines. */
  lemma {:induction false} RunGivesHistory<A>(cfgs: seq<Config<A>>, startTime: Time, run: seq<Entry<A>>)
    requires cfgs != [] && WellConfigured(cfgs)
    ensures AfterRun(cfgs, startTime, run) == Cascade(cfgs, startTime, run)
  {
    if run == [] {
      FreshIsCascade(cfgs, startTime);
    } else {
      var before := run[..|run| - 1];
      RunGivesHistory(cfgs, startTime, before);
      AppendExtendsHistory(cfgs, startTime, before, Last(run));
      assert before + [Last(run)] == run;
    }
  }
}
