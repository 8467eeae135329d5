/** The keys of several axes put together (matrix/util.go, matrix/plane.go). */
module Unions {
  import opened Bytes
  import opened Seqs
  import opened Keys
  import opened Embeddings

  ghost predicate SomeHasBound(axes: seq<seq<Key>>, b: Bound) {
    exists a :: 0 <= a < |axes| && HasBound(axes[a], b)
  }

  /** The bounds of `compact` are those of the axes, and no others. */
  ghost predicate IsUnion(compact: seq<Key>, axes: seq<seq<Key>>) {
    IsAxis(compact) && forall b :: HasBound(compact, b) <==> SomeHasBound(axes, b)
  }

  function Elements(keys: seq<Key>): set<Key> {
    set k | k in keys
  }

  lemma LessOrders()
    ensures Orders(Less)
  {
    forall a, b, c
      ensures !Less(a, a) && (Less(a, b) && Less(b, c) ==> Less(a, c)) && (a == b || Less(a, b) || Less(b, a))
    {
      LessTotal(a, b);
      LessTotal(a, a);
      if Less(a, b) && Less(b, c) {
        LessTransitive(a, b, c);
      }
    }
  }

  /** The keys of a set, in order. */
  method MakeKeys(keySet: set<Key>) returns (keys: seq<Key>)
    ensures Ascending(keys, Less) && forall k :: k in keys <==> k in keySet
  {
    LessOrders();
    keys := Sort(keySet, Less);
  }

  method MakeKeysWithUnlimitedEnd(keySet: set<Key>) returns (keys: seq<Key>)
    ensures keys != [] && Last(keys) == []
    ensures var sorted := keys[..|keys| - 1]; Ascending(sorted, Less) && forall k :: k in sorted <==> k in keySet
  {
    var sorted := MakeKeys(keySet);
    keys := sorted + [[]];
    assert keys[..|keys| - 1] == sorted;
  }

  /** The finite bounds found so far, and whether an unlimited end was found. */
  ghost predicate Gathered(axes: seq<seq<Key>>, keySet: set<Key>, unlimitedEnd: bool) {
    && (forall k :: k in keySet <==> SomeHasBound(axes, Fin(k)))
    && (unlimitedEnd <==> SomeHasBound(axes, Infinity))
  }

  lemma BoundsOfAxis(keys: seq<Key>, b: Bound)
    requires keys != []
    ensures HasBound(keys, b)
      <==> (if b.Infinity? then Last(keys) == [] else b.key in keys[..|keys| - 1] || b.key == Last(keys) != [])
  {
    var front := keys[..|keys| - 1];
    if b.Infinity? {
      assert Last(keys) == [] ==> BoundAt(keys, |keys| - 1) == b;
    } else {
      if b.key in front {
        var i :| 0 <= i < |front| && front[i] == b.key;
        assert BoundAt(keys, i) == b;
      }
      if b.key == Last(keys) != [] {
        assert BoundAt(keys, |keys| - 1) == b;
      }
      if HasBound(keys, b) {
        var i :| 0 <= i < |keys| && BoundAt(keys, i) == b;
        assert i < |keys| - 1 ==> front[i] == b.key;
      }
    }
  }

  lemma GatherOneMore(axes: seq<seq<Key>>, keySet: set<Key>, unlimitedEnd: bool, keys: seq<Key>)
    requires Gathered(axes, keySet, unlimitedEnd) && keys != []
    ensures var ends := if Last(keys) == [] then {} else {Last(keys)};
      Gathered(axes + [keys], keySet + ends + Elements(keys[..|keys| - 1]), unlimitedEnd || Last(keys) == [])
  {
    var more := axes + [keys];
    forall b: Bound
      ensures SomeHasBound(more, b) <==> SomeHasBound(axes, b) || HasBound(keys, b)
    {
      SomeMore(axes, keys, b);
    }
    forall b: Bound
      ensures HasBound(keys, b)
        <==> (if b.Infinity? then Last(keys) == [] else b.key in keys[..|keys| - 1] || b.key == Last(keys) != [])
    {
      BoundsOfAxis(keys, b);
    }
  }

  lemma SomeMore(axes: seq<seq<Key>>, keys: seq<Key>, b: Bound)
    ensures SomeHasBound(axes + [keys], b) <==> SomeHasBound(axes, b) || HasBound(keys, b)
  {
    var more := axes + [keys];
    assert more[|axes|] == keys;
    if SomeHasBound(axes, b) {
      var a :| 0 <= a < |axes| && HasBound(axes[a], b);
      assert HasBound(more[a], b);
    }
  }

  /** The keys of all axes, each once, in order. */
  method UnionKeys(axes: seq<seq<Key>>) returns (compactKeys: seq<Key>)
    requires axes != [] && forall a :: 0 <= a < |axes| ==> IsAxis(axes[a])
    ensures IsUnion(compactKeys, axes)
  {
    var keySet, unlimitedEnd := {}, false;
    hide HasBound, SomeHasBound, IsAxis;
    NothingGathered();
    for a := 0 to |axes|
      invariant Gathered(axes[..a], keySet, unlimitedEnd)
    {
      var keys := axes[a];
      LongEnough(keys);
      GatherOneMore(axes[..a], keySet, unlimitedEnd, keys);
      assert axes[..a + 1] == axes[..a] + [keys];
      var end := |keys| - 1;
      var endKey := keys[end];
      if endKey == [] {
        unlimitedEnd := true;
      } else {
        keySet := keySet + {endKey};
      }
      keySet := keySet + Elements(keys[..end]);
    }
    assert axes[..|axes|] == axes;
    if unlimitedEnd {
      compactKeys := MakeKeysWithUnlimitedEnd(keySet);
    } else {
      compactKeys := MakeKeys(keySet);
    }
    GatheredIsUnion(axes, keySet, unlimitedEnd, compactKeys);
  }

  lemma NothingGathered()
    ensures Gathered([], {}, false)
  {
  }

  lemma LongEnough(keys: seq<Key>)
    requires IsAxis(keys)
    ensures |keys| >= 2
  {
  }

  lemma GatheredIsUnion(axes: seq<seq<Key>>, keySet: set<Key>, unlimitedEnd: bool, compact: seq<Key>)
    requires axes != [] && IsAxis(axes[0]) && Gathered(axes, keySet, unlimitedEnd)
    requires unlimitedEnd ==> compact != [] && Last(compact) == []
    requires var sorted := if unlimitedEnd then compact[..|compact| - 1] else compact;
      Ascending(sorted, Less) && forall k :: k in sorted <==> k in keySet
    ensures IsUnion(compact, axes)
  {
    hide Ascending, IsAxis, Gathered, IsUnion;
    var sorted := if unlimitedEnd then compact[..|compact| - 1] else compact;
    FirstKeyGathered(axes, keySet, unlimitedEnd);
    assert axes[0][0] in sorted;
    if !unlimitedEnd {
      SecondKeyGathered(axes, keySet);
      LastOfSorted(sorted, axes[0][0], axes[0][1]);
    }
    SortedIsAxis(compact, sorted, unlimitedEnd);
    GatheredBounds(axes, keySet, unlimitedEnd, compact, sorted);
  }

  lemma GatheredBounds(axes: seq<seq<Key>>, keySet: set<Key>, unlimitedEnd: bool, compact: seq<Key>, sorted: seq<Key>)
    requires Gathered(axes, keySet, unlimitedEnd) && IsAxis(compact)
    requires compact == (if unlimitedEnd then sorted + [[]] else sorted) && (!unlimitedEnd ==> Last(compact) != [])
    requires forall k :: k in sorted <==> k in keySet
    ensures IsUnion(compact, axes)
  {
    forall b: Bound
      ensures HasBound(compact, b) <==> SomeHasBound(axes, b)
    {
      BoundsOfAxis(compact, b);
      assert compact == compact[..|compact| - 1] + [Last(compact)];
    }
  }

  lemma FirstKeyGathered(axes: seq<seq<Key>>, keySet: set<Key>, unlimitedEnd: bool)
    requires axes != [] && IsAxis(axes[0]) && Gathered(axes, keySet, unlimitedEnd)
    ensures |axes[0]| >= 2 && axes[0][0] in keySet
  {
    assert BoundAt(axes[0], 0) == Fin(axes[0][0]);
    assert HasBound(axes[0], Fin(axes[0][0]));
  }

  lemma SecondKeyGathered(axes: seq<seq<Key>>, keySet: set<Key>)
    requires axes != [] && IsAxis(axes[0]) && Gathered(axes, keySet, false)
    ensures |axes[0]| >= 2 && axes[0][0] in keySet && axes[0][1] in keySet && axes[0][0] != axes[0][1]
  {
    FirstKeyGathered(axes, keySet, false);
    var b := BoundAt(axes[0], 1);
    assert HasBound(axes[0], b);
    assert SomeHasBound(axes, b);
    assert BoundLess(BoundAt(axes[0], 0), b);
    LessTotal(axes[0][0], axes[0][0]);
  }

  /** The last of at least two sorted keys is not empty. */
  lemma LastOfSorted(sorted: seq<Key>, x: Key, y: Key)
    requires Ascending(sorted, Less) && x in sorted && y in sorted && x != y
    ensures |sorted| >= 2 && Last(sorted) != []
  {
    var i :| 0 <= i < |sorted| && sorted[i] == x;
    var j :| 0 <= j < |sorted| && sorted[j] == y;
    assert i != j;
    assert Less(sorted[0], sorted[|sorted| - 1]);
  }

  lemma SortedIsAxis(compact: seq<Key>, sorted: seq<Key>, unlimitedEnd: bool)
    requires compact == (if unlimitedEnd then sorted + [[]] else sorted) && |compact| >= 2
    requires Ascending(sorted, Less) && (!unlimitedEnd ==> Last(sorted) != [])
    ensures IsAxis(compact)
  {
    forall i, j | 0 <= i < j < |compact|
      ensures BoundLess(BoundAt(compact, i), BoundAt(compact, j))
    {
      assert j < |sorted| ==> Less(sorted[i], sorted[j]);
    }
  }

  /** Each of the axes is embedded in the union, and its inclusion check does not panic. */
  lemma UnionEmbeds(compact: seq<Key>, axes: seq<seq<Key>>, a: nat)
    requires IsUnion(compact, axes) && a < |axes| && IsAxis(axes[a])
    ensures forall i :: 0 <= i < |axes[a]| ==> HasBound(compact, BoundAt(axes[a], i))
    ensures Embeds(compact, axes[a], Places(compact, axes[a])) && !PartOfFails(compact, axes[a])
  {
    forall i | 0 <= i < |axes[a]|
      ensures HasBound(compact, BoundAt(axes[a], i))
    {
      assert HasBound(axes[a], BoundAt(axes[a], i));
      assert SomeHasBound(axes, BoundAt(axes[a], i));
    }
    BoundsEmbed(compact, axes[a]);
    EmbeddedPassesCheck(compact, axes[a], Places(compact, axes[a]));
  }

  function BoundsOf(keys: seq<Key>): (bounds: seq<Bound>)
    ensures |bounds| == |keys|
  {
    seq(|keys|, i requires 0 <= i < |keys| => BoundAt(keys, i))
  }

  lemma BoundsOrder()
    ensures Orders(BoundLess)
  {
    forall a, b, c
      ensures !BoundLess(a, a) && (BoundLess(a, b) && BoundLess(b, c) ==> BoundLess(a, c))
      ensures a == b || BoundLess(a, b) || BoundLess(b, a)
    {
      BoundOrder(a, b, c);
    }
  }

  lemma BoundsOfHave(keys: seq<Key>, b: Bound)
    ensures b in BoundsOf(keys) <==> HasBound(keys, b)
  {
    if HasBound(keys, b) {
      var i :| 0 <= i < |keys| && BoundAt(keys, i) == b;
      assert BoundsOf(keys)[i] == b;
    }
  }

  /** The axes leave no choice: there is one union of their keys. */
  lemma UnionIsUnique(a: seq<Key>, b: seq<Key>, axes: seq<seq<Key>>)
    requires IsUnion(a, axes) && IsUnion(b, axes)
    ensures a == b
  {
    forall bound
      ensures bound in BoundsOf(a) <==> bound in BoundsOf(b)
    {
      BoundsOfHave(a, bound);
      BoundsOfHave(b, bound);
    }
    BoundsOrder();
    SortedIsUnique(BoundsOf(a), BoundsOf(b), BoundLess);
    forall i | 0 <= i < |a|
      ensures a[i] == b[i]
    {
      assert BoundsOf(a)[i] == BoundsOf(b)[i];
      BoundIsKey(a, i, b, i);
    }
  }
}
