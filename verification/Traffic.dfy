/** How much traffic the layers of a history stand for (storage/stat.go). */
module Traffic {
  import opened Seqs
  import opened Layers

  /** What some axes weigh together. */
  function Load<A>(weight: A -> nat, axes: seq<A>): nat {
    if axes == [] then 0 else Load(weight, axes[..|axes| - 1]) + weight(Last(axes))
  }

  lemma {:induction false} LoadConcat<A>(weight: A -> nat, a: seq<A>, b: seq<A>)
    ensures Load(weight, a + b) == Load(weight, a) + Load(weight, b)
  {
    if b == [] {
      assert a + b == a;
    } else {
      LoadConcat(weight, a, b[..|b| - 1]);
      assert (a + b)[..|a + b| - 1] == a + b[..|b| - 1];
    }
  }

  ghost predicate AllGood<A>(good: A -> bool, axes: seq<A>) {
    forall i :: 0 <= i < |axes| ==> good(axes[i])
  }

  /** How axes are judged: which are good, what each weighs, and how much making one of several may lose. */
  datatype Measure<!A> = Measure(good: A -> bool, weight: A -> nat, loss: seq<A> -> nat)

  /** What a layer passes on is good, and weighs its share of what it is made of, up to the loss, and no more: each
      axis passed on stands for as many axes as the ratio says. */
  ghost predicate Thrifty<A(!new)>(c: Config<A>, m: Measure<A>) {
    forall axes :: |axes| == c.ratio && AllGood(m.good, axes) ==> FoldsWithin(c, m, axes)
  }

  ghost predicate FoldsWithin<A>(c: Config<A>, m: Measure<A>, axes: seq<A>) {
    var passed := m.weight(c.fold(axes)) * c.ratio;
    m.good(c.fold(axes)) && passed <= Load(m.weight, axes) <= passed + m.loss(axes)
  }

  ghost predicate AllThrifty<A(!new)>(cfgs: seq<Config<A>>, m: Measure<A>) {
    forall k :: 0 <= k < |cfgs| - 1 && cfgs[k].ratio > 0 ==> Thrifty(cfgs[k], m)
  }

  lemma LoadOfMore<A>(weight: A -> nat, stream: seq<Entry<A>>, e: Entry<A>)
    ensures Load(weight, Axes(stream + [e])) == Load(weight, Axes(stream)) + weight(e.axis)
  {
    var axes := Axes(stream + [e]);
    assert axes[..|axes| - 1] == Axes(stream);
  }

  lemma LoadUpTo<A>(weight: A -> nat, stream: seq<Entry<A>>, i: nat, j: nat)
    requires i <= j <= |stream|
    ensures Load(weight, Axes(stream[..j])) == Load(weight, Axes(stream[..i])) + Load(weight, Axes(stream[i..j]))
  {
    LoadConcat(weight, Axes(stream[..i]), Axes(stream[i..j]));
    assert Axes(stream[..i]) + Axes(stream[i..j]) == Axes(stream[..j]);
  }

  /** What a full layer makes of good entries. */
  lemma FoldedWithin<A(!new)>(c: Config<A>, oldest: seq<Entry<A>>, m: Measure<A>)
    requires Thrifty(c, m) && |oldest| == c.ratio > 0 && AllGood(m.good, Axes(oldest))
    ensures var passed := m.weight(Folded(c, oldest).axis) * c.ratio;
      && m.good(Folded(c, oldest).axis)
      && passed <= Load(m.weight, Axes(oldest)) <= passed + m.loss(Axes(oldest))
  {
    assert FoldsWithin(c, m, Axes(oldest));
  }

  lemma GoodWithMore<A>(good: A -> bool, stream: seq<Entry<A>>, e: Entry<A>)
    requires AllGood(good, Axes(stream)) && good(e.axis)
    ensures AllGood(good, Axes(stream + [e]))
  {
    assert Axes(stream + [e]) == Axes(stream) + [e.axis];
  }

  lemma GoodSlice<A>(good: A -> bool, stream: seq<Entry<A>>, i: nat, j: nat)
    requires i <= j <= |stream| && AllGood(good, Axes(stream))
    ensures AllGood(good, Axes(stream[i..j])) && AllGood(good, Axes(stream[i..]))
  {
    assert Axes(stream[i..j]) == Axes(stream)[i..j] && Axes(stream[i..]) == Axes(stream)[i..];
  }

  /** What a layer has lost by making one axis of several. */
  function Lost<A>(cfgs: seq<Config<A>>, stream: seq<Entry<A>>, loss: seq<A> -> nat): nat
    requires cfgs != [] && WellConfigured(cfgs)
    decreases |stream|
  {
    if IsSink(cfgs) || stream == [] then 0
    else
      var before := stream[..|stream| - 1];
      var g := GoneFrom(cfgs, |before|);
      Lost(cfgs, before, loss)
      + if |before| - g == cfgs[0].len then loss(Axes(before[g..g + cfgs[0].ratio])) else 0
  }

  lemma LostGrows<A>(cfgs: seq<Config<A>>, before: seq<Entry<A>>, e: Entry<A>, loss: seq<A> -> nat)
    requires cfgs != [] && WellConfigured(cfgs) && !IsSink(cfgs)
    ensures var g := GoneFrom(cfgs, |before|);
      Lost(cfgs, before + [e], loss) == Lost(cfgs, before, loss)
        + if |before| - g == cfgs[0].len then loss(Axes(before[g..g + cfgs[0].ratio])) else 0
  {
    assert (before + [e])[..|before|] == before;
  }

  /** All that a layer has passed on is good and weighs, times the ratio, what it has given up, less what it has
      lost, or less. */
  ghost predicate PassesWithin<A(!new)>(cfgs: seq<Config<A>>, stream: seq<Entry<A>>, m: Measure<A>)
    requires cfgs != [] && WellConfigured(cfgs)
  {
    var passed, givenUp := PassedOn(cfgs, stream), stream[..GoneFrom(cfgs, |stream|)];
    && AllGood(m.good, Axes(passed))
    && cfgs[0].ratio * Load(m.weight, Axes(passed)) <= Load(m.weight, Axes(givenUp))
    && Load(m.weight, Axes(givenUp)) <= cfgs[0].ratio * Load(m.weight, Axes(passed)) + Lost(cfgs, stream, m.loss)
  }

  lemma {:induction false} PassedOnWithin<A(!new)>(cfgs: seq<Config<A>>, stream: seq<Entry<A>>, m: Measure<A>)
    requires cfgs != [] && WellConfigured(cfgs) && !IsSink(cfgs) && Thrifty(cfgs[0], m) && AllGood(m.good, Axes(stream))
    ensures PassesWithin(cfgs, stream, m)
    decreases |stream|
  {
    hide AllGood, Thrifty, Load, Folded, Axes, WellConfigured;
    NothingWeighsNothing(m.good, m.weight);
    if stream != [] {
      hide PassesWithin;
      var before := stream[..|stream| - 1];
      GoodSlice(m.good, stream, 0, |before|);
      PassedOnWithin(cfgs, before, m);
      assert before + [Last(stream)] == stream;
      PassOneMore(cfgs, before, Last(stream), m);
    }
  }

  lemma {:induction false} PassOneMore<A(!new)>(cfgs: seq<Config<A>>, before: seq<Entry<A>>, e: Entry<A>, m: Measure<A>)
    requires cfgs != [] && WellConfigured(cfgs) && !IsSink(cfgs) && Thrifty(cfgs[0], m) && AllGood(m.good, Axes(before))
    requires PassesWithin(cfgs, before, m)
    ensures PassesWithin(cfgs, before + [e], m)
  {
    hide AllGood, Thrifty, Load, Folded, Axes, PassedOn, GoneFrom, Lost;
    PassedOnGrows(cfgs, before, e);
    LostGrows(cfgs, before, e, m.loss);
    var c, g, passed, stream := cfgs[0], GoneFrom(cfgs, |before|), PassedOn(cfgs, before), before + [e];
    if |before| - g == c.len {
      var oldest := before[g..g + c.ratio];
      GoodSlice(m.good, before, g, g + c.ratio);
      FoldedWithin(c, oldest, m);
      GoodWithMore(m.good, passed, Folded(c, oldest));
      LoadOfMore(m.weight, passed, Folded(c, oldest));
      LoadUpTo(m.weight, before, g, g + c.ratio);
      assert stream[..g + c.ratio] == before[..g + c.ratio];
      OneMore(c.ratio, Load(m.weight, Axes(passed)), m.weight(Folded(c, oldest).axis));
    } else {
      assert stream[..g] == before[..g];
    }
  }

  lemma NothingWeighsNothing<A>(good: A -> bool, weight: A -> nat)
    ensures Axes<A>([]) == [] && Load(weight, []) == 0 && AllGood(good, [])
  {
  }

  lemma OneMore(ratio: nat, a: nat, b: nat)
    ensures ratio * (a + b) == ratio * a + b * ratio
  {
  }

  /** The traffic that the layers stand for, given what the last one dropped stood for: an axis of a layer stands
      for as many axes of the layer above it as that layer's ratio. */
  function Carried<A>(cfgs: seq<Config<A>>, layers: seq<Layer<A>>, weight: A -> nat, dropped: nat): nat
    requires |cfgs| == |layers| && layers != []
    decreases |layers|
  {
    Load(weight, Axes(layers[0].queue))
    + if IsSink(cfgs) then dropped else cfgs[0].ratio * Carried(cfgs[1..], layers[1..], weight, dropped)
  }

  /** The traffic of what the last reachable layer dropped. */
  function DroppedLoad<A>(cfgs: seq<Config<A>>, stream: seq<Entry<A>>, weight: A -> nat): nat
    requires cfgs != [] && WellConfigured(cfgs)
    decreases |cfgs|
  {
    if IsSink(cfgs) then Load(weight, Axes(stream[..GoneFrom(cfgs, |stream|)]))
    else DroppedLoad(cfgs[1..], PassedOn(cfgs, stream), weight)
  }

  ghost predicate GoodLayers<A>(good: A -> bool, layers: seq<Layer<A>>) {
    forall k :: 0 <= k < |layers| ==> AllGood(good, Axes(layers[k].queue))
  }

  /** What all layers have lost, each loss weighted by the ratios above it. */
  function AllLost<A>(cfgs: seq<Config<A>>, stream: seq<Entry<A>>, loss: seq<A> -> nat): nat
    requires cfgs != [] && WellConfigured(cfgs)
    decreases |cfgs|
  {
    if IsSink(cfgs) then 0
    else Lost(cfgs, stream, loss) + cfgs[0].ratio * AllLost(cfgs[1..], PassedOn(cfgs, stream), loss)
  }

  /** After any run the layers, together with what was dropped, stand for no more traffic than was appended; what is
      missing is no more than what was lost by making one axis of several. */
  lemma {:induction false} TrafficIsConserved<A(!new)>(cfgs: seq<Config<A>>, startTime: Time, stream: seq<Entry<A>>,
                                                m: Measure<A>)
    requires cfgs != [] && WellConfigured(cfgs) && AllThrifty(cfgs, m) && AllGood(m.good, Axes(stream))
    ensures var dropped := DroppedLoad(cfgs, stream, m.weight);
      var carried := Carried(cfgs, Cascade(cfgs, startTime, stream), m.weight, dropped);
      carried <= Load(m.weight, Axes(stream)) <= carried + AllLost(cfgs, stream, m.loss)
    decreases |cfgs|
  {
    hide AllGood, Thrifty, GoneFrom, PassedOn, Load, Lost;
    var layers, g := Cascade(cfgs, startTime, stream), GoneFrom(cfgs, |stream|);
    CascadeSplits(cfgs, startTime, stream);
    FirstQueue(cfgs, startTime, stream, m.weight);
    if !IsSink(cfgs) {
      var passed := PassedOn(cfgs, stream);
      assert AllThrifty(cfgs[1..], m) && WellConfigured(cfgs[1..]);
      PassedOnWithin(cfgs, stream, m);
      TrafficIsConserved(cfgs[1..], startTime, passed, m);
      var carried := Carried(cfgs[1..], layers[1..], m.weight, DroppedLoad(cfgs[1..], passed, m.weight));
      TimesMore(cfgs[0].ratio, carried, Load(m.weight, Axes(passed)));
      TimesMore(cfgs[0].ratio, Load(m.weight, Axes(passed)), carried + AllLost(cfgs[1..], passed, m.loss));
      OneMore(cfgs[0].ratio, carried, AllLost(cfgs[1..], passed, m.loss));
    }
  }

  lemma TimesMore(ratio: nat, a: nat, b: nat)
    requires a <= b
    ensures ratio * a <= ratio * b
  {
  }

  /** What the first layer has given up and what it holds are all it was given. */
  lemma FirstQueue<A>(cfgs: seq<Config<A>>, startTime: Time, stream: seq<Entry<A>>, weight: A -> nat)
    requires cfgs != [] && WellConfigured(cfgs)
    ensures Load(weight, Axes(stream[..GoneFrom(cfgs, |stream|)]))
      + Load(weight, Axes(FirstLayer(cfgs, startTime, stream).queue)) == Load(weight, Axes(stream))
  {
    var g := GoneFrom(cfgs, |stream|);
    LoadUpTo(weight, stream, g, |stream|);
    assert stream[..|stream|] == stream && stream[g..|stream|] == stream[g..];
  }

  lemma {:induction false} AllStayGood<A(!new)>(cfgs: seq<Config<A>>, startTime: Time, stream: seq<Entry<A>>,
                                         m: Measure<A>)
    requires WellConfigured(cfgs) && AllThrifty(cfgs, m) && AllGood(m.good, Axes(stream))
    ensures GoodLayers(m.good, Cascade(cfgs, startTime, stream))
    decreases |cfgs|
  {
    hide AllGood, Thrifty, GoneFrom, PassedOn, Load, Cascade, Axes;
    if cfgs != [] {
      var passed := PassedOn(cfgs, stream);
      CascadeSplits(cfgs, startTime, stream);
      GoodSlice(m.good, stream, GoneFrom(cfgs, |stream|), |stream|);
      assert AllThrifty(cfgs[1..], m) && WellConfigured(cfgs[1..]);
      if IsSink(cfgs) {
        NothingWeighsNothing(m.good, m.weight);
      } else {
        PassedOnWithin(cfgs, stream, m);
      }
      AllStayGood(cfgs[1..], startTime, passed, m);
    }
  }
}
