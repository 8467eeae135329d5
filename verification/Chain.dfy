/** A chain of layers, seen one layer at a time. */
module Chains {
  import opened Layers
  import opened Stats

  /** A layer is as it was when none of its objects has changed. */
  twostate lemma SameLayer<A>(x: LayerStat<A>)
    requires forall o :: o in x.Footprint() && old(allocated(o)) ==> unchanged(o)
    ensures x.Valid() == old(x.Valid()) && x.View() == old(x.View()) && x.next == old(x.next) && x.empty == old(x.empty)
  {
    assert x in x.Footprint() && x.ringAxes in x.Footprint() && x.ringTimes in x.Footprint();
  }

  /** What is fixed of layer `k`: its number, its table, and that it shares nothing with those behind it. */
  ghost predicate PlacedAt<A>(chain: seq<LayerStat<A>>, first: nat, k: nat)
    requires k < |chain|
  {
    && chain[k].layerNum == first + k && chain[k].db == chain[0].db && chain[0].db !in chain[k].Footprint()
    && 1 <= chain[k].conf.len && (k < |chain| - 1 ==> chain[k].conf.ratio <= chain[k].conf.len)
    && (forall j :: k < j < |chain| ==> chain[k].Footprint() !! chain[j].Footprint())
  }

  ghost predicate Placed<A>(chain: seq<LayerStat<A>>, first: nat) {
    forall k :: 0 <= k < |chain| ==> PlacedAt(chain, first, k)
  }

  /** What changes of layer `k`: it is sound, settled, and linked to the next. */
  ghost predicate SoundAt<A>(chain: seq<LayerStat<A>>, k: nat)
    requires k < |chain|
    reads chain[k].Footprint()
  {
    && chain[k].Valid() && chain[k].next == (if k + 1 < |chain| then chain[k + 1] else null)
    && (chain[k].queue == [] ==> chain[k].empty)
  }

  lemma {:induction false} InFootprint<A>(chain: seq<LayerStat<A>>, k: nat)
    requires k < |chain|
    ensures chain[k].Footprint() <= FootprintOf(chain)
    decreases k
  {
    if k > 0 {
      InFootprint(chain[1..], k - 1);
    }
  }

  lemma {:induction false} OwnerOf<A>(chain: seq<LayerStat<A>>, o: object) returns (k: nat)
    requires o in FootprintOf(chain)
    ensures k < |chain| && o in chain[k].Footprint()
  {
    if o in chain[0].Footprint() {
      k := 0;
    } else {
      k := OwnerOf(chain[1..], o);
      k := k + 1;
    }
  }

  lemma {:induction false} ViewAt<A>(chain: seq<LayerStat<A>>, k: nat)
    requires k < |chain|
    ensures Views(chain)[k] == chain[k].View() && Configs(chain)[k] == chain[k].conf
    decreases k
  {
    if k > 0 {
      ViewAt(chain[1..], k - 1);
    }
  }

  /** A chain is linked and settled just when each layer is in its place and sound. */
  lemma {:induction false} LinkedLayers<A>(chain: seq<LayerStat<A>>, first: nat)
    requires Linked(chain) && Settled(chain) && (chain != [] ==> chain[0].layerNum == first)
    ensures Placed(chain, first) && forall k :: 0 <= k < |chain| ==> SoundAt(chain, k)
    decreases |chain|
  {
    if chain != [] {
      var rest := chain[1..];
      LinkedLayers(rest, first + 1);
      forall k | 0 <= k < |chain|
        ensures PlacedAt(chain, first, k) && SoundAt(chain, k)
      {
        if k > 0 {
          assert PlacedAt(rest, first + 1, k - 1) && SoundAt(rest, k - 1);
          InFootprint(chain, k);
        } else {
          forall j | 0 < j < |chain|
            ensures chain[0].Footprint() !! chain[j].Footprint()
          {
            InFootprint(rest, j - 1);
          }
        }
      }
    }
  }

  lemma PlacedTail<A>(chain: seq<LayerStat<A>>, first: nat)
    requires chain != [] && Placed(chain, first)
    ensures Placed(chain[1..], first + 1)
  {
    var rest, second := chain[1..], first + 1;
    forall k | 0 <= k < |rest|
      ensures PlacedAt(rest, second, k)
    {
      assert PlacedAt(chain, first, k + 1) && PlacedAt(chain, first, 1);
      forall j | k < j < |rest|
        ensures rest[k].Footprint() !! rest[j].Footprint()
      {
        assert rest[j] == chain[j + 1];
      }
    }
  }

  lemma {:induction false} LayersAreLinked<A>(chain: seq<LayerStat<A>>, first: nat)
    requires Placed(chain, first) && forall k :: 0 <= k < |chain| ==> SoundAt(chain, k)
    ensures Linked(chain) && Settled(chain) && WellConfigured(Configs(chain))
    decreases |chain|
  {
    if chain != [] {
      var rest := chain[1..];
      assert PlacedAt(chain, first, 0) && SoundAt(chain, 0);
      assert |chain| > 1 ==> PlacedAt(chain, first, 1);
      PlacedTail(chain, first);
      forall k | 0 <= k < |rest|
        ensures SoundAt(rest, k)
      {
        assert SoundAt(chain, k + 1);
      }
      LayersAreLinked(rest, first + 1);
      HeadApart(chain, first);
    }
  }

  lemma {:induction false} Unowned<A>(chain: seq<LayerStat<A>>, o: object)
    requires forall k :: 0 <= k < |chain| ==> o !in chain[k].Footprint()
    ensures o !in FootprintOf(chain)
    decreases |chain|
  {
    if chain != [] {
      Unowned(chain[1..], o);
    }
  }

  lemma HeadApart<A>(chain: seq<LayerStat<A>>, first: nat)
    requires chain != [] && Placed(chain, first)
    ensures chain[0].Footprint() !! FootprintOf(chain[1..]) && chain[0].db !in FootprintOf(chain)
  {
    forall o | o in chain[0].Footprint()
      ensures o !in FootprintOf(chain[1..])
    {
      assert PlacedAt(chain, first, 0);
      Unowned(chain[1..], o);
    }
    forall k | 0 <= k < |chain|
      ensures chain[0].db !in chain[k].Footprint()
    {
      assert PlacedAt(chain, first, k);
    }
    Unowned(chain, chain[0].db);
  }

  lemma AllViews<A>(chain: seq<LayerStat<A>>)
    ensures forall k :: 0 <= k < |chain| ==> Views(chain)[k] == chain[k].View() && Configs(chain)[k] == chain[k].conf
  {
    forall k | 0 <= k < |chain|
      ensures Views(chain)[k] == chain[k].View() && Configs(chain)[k] == chain[k].conf
    {
      ViewAt(chain, k);
    }
  }

  /** Changing one layer of a chain changes its view alone. */
  twostate lemma OneChanged<A>(chain: seq<LayerStat<A>>, new k: nat)
    requires k < |chain| && Placed(chain, 0) && SoundAt(chain, k)
    requires forall j :: 0 <= j < |chain| && j != k ==> old(SoundAt(chain, j))
    requires forall j :: 0 <= j < |chain| && j != k ==> old(Views(chain)[j]) == old(chain[j].View())
    requires forall o :: o in FootprintOf(chain) - chain[k].Footprint() && old(allocated(o)) ==> unchanged(o)
    ensures Linked(chain) && Settled(chain) && Views(chain) == old(Views(chain))[k := chain[k].View()]
  {
    AllViews(chain);
    hide LayerStat.Valid, LayerStat.Footprint, LayerStat.View, FootprintOf, Linked, Settled, Views, Configs, SoundAt,
      PlacedAt;
    forall j | 0 <= j < |chain|
      ensures SoundAt(chain, j) && (j != k ==> chain[j].View() == old(chain[j].View()))
    {
      if j != k {
        OtherLayer(chain, j, k);
      }
    }
    LayersAreLinked(chain, 0);
  }

  twostate lemma OtherLayer<A>(chain: seq<LayerStat<A>>, new j: nat, new k: nat)
    requires j < |chain| && k < |chain| && j != k && Placed(chain, 0) && old(SoundAt(chain, j))
    requires forall o :: o in FootprintOf(chain) - chain[k].Footprint() && old(allocated(o)) ==> unchanged(o)
    ensures SoundAt(chain, j) && chain[j].View() == old(chain[j].View())
  {
    InFootprint(chain, j);
    assert PlacedAt(chain, 0, j) && PlacedAt(chain, 0, k);
    forall o | o in chain[j].Footprint() && old(allocated(o))
      ensures unchanged(o)
    {
      assert o in FootprintOf(chain) - chain[k].Footprint();
    }
    hide LayerStat.Valid, LayerStat.Footprint;
    SameLayer(chain[j]);
  }
}
