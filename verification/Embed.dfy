/** Where the keys of an axis lie among the finer keys of another (matrix/util.go, matrix/plane.go). */
module Embeddings {
  import opened Bytes
  import opened Seqs
  import opened Keys
  import opened Partition

  ghost predicate LiesAt(compact: seq<Key>, keys: seq<Key>, at: seq<nat>, i: nat)
    requires i < |keys| == |at|
  {
    at[i] < |compact| && BoundAt(keys, i) == BoundAt(compact, at[i])
  }

  /** Key `i` of the axis is key `at[i]` of the finer axis. */
  ghost predicate Embeds(compact: seq<Key>, keys: seq<Key>, at: seq<nat>) {
    && IsAxis(compact) && IsAxis(keys) && |at| == |keys| && Increasing(at)
    && forall i :: 0 <= i < |keys| ==> LiesAt(compact, keys, at, i)
  }

  /** Places are in the order of their bounds. */
  lemma PlaceOrder(keys: seq<Key>, i: nat, j: nat)
    requires IsAxis(keys) && i < |keys| && j < |keys|
    ensures i < j <==> BoundLess(BoundAt(keys, i), BoundAt(keys, j))
    ensures i == j <==> BoundAt(keys, i) == BoundAt(keys, j)
  {
    BoundOrder(BoundAt(keys, i), BoundAt(keys, j), Infinity);
    assert i < j ==> BoundLess(BoundAt(keys, i), BoundAt(keys, j));
    assert j < i ==> BoundLess(BoundAt(keys, j), BoundAt(keys, i));
  }

  lemma BoundIsKey(keys: seq<Key>, i: nat, other: seq<Key>, j: nat)
    requires i < |keys| && j < |other| && BoundAt(keys, i) == BoundAt(other, j)
    ensures keys[i] == other[j]
  {
  }

  lemma InnerKeyNotEmpty(keys: seq<Key>, i: nat)
    requires IsAxis(keys) && 0 < i < |keys| - 1
    ensures keys[i] != []
  {
    assert BoundLess(BoundAt(keys, 0), BoundAt(keys, i));
  }

  /** Reading both key lists from the front, comparing keys finds where the next one lies. */
  lemma KeyMatch(compact: seq<Key>, keys: seq<Key>, at: seq<nat>, i: nat, j: nat)
    requires Embeds(compact, keys, at) && j < |keys| && i <= at[j] && (j > 0 ==> at[j - 1] < i)
    ensures i <= at[j] < |compact| && (compact[i] == keys[j] <==> i == at[j])
  {
    assert LiesAt(compact, keys, at, j);
    BoundIsKey(keys, j, compact, at[j]);
    if i < at[j] {
      assert BoundLess(BoundAt(compact, i), BoundAt(compact, at[j]));
      if BoundAt(keys, j) == Infinity {
        InnerKeyNotEmpty(compact, i);
      } else {
        LessTotal(keys[j], keys[j]);
      }
    }
  }

  /** An axis with as many keys as the finer one has the same keys. */
  lemma SameLengthSameKeys(compact: seq<Key>, keys: seq<Key>, at: seq<nat>)
    requires Embeds(compact, keys, at) && |keys| == |compact|
    ensures keys == compact && forall i :: 0 <= i < |at| ==> at[i] == i
  {
    forall i | 0 <= i < |at|
      ensures at[i] == i && keys[i] == compact[i]
    {
      InOrder(at, 0, i);
      InOrder(at, i, |at| - 1);
      assert LiesAt(compact, keys, at, |at| - 1) && LiesAt(compact, keys, at, i);
      BoundIsKey(keys, i, compact, at[i]);
    }
  }

  lemma EmbeddingBounds(compact: seq<Key>, keys: seq<Key>, at: seq<nat>, i: nat)
    requires Embeds(compact, keys, at) && i < |at|
    ensures i <= at[i] < |compact| && |at| - 1 - i <= |compact| - 1 - at[i]
  {
    InOrder(at, 0, i);
    InOrder(at, i, |at| - 1);
    assert LiesAt(compact, keys, at, |at| - 1);
  }

  /** Finds the next key of the axis among the finer keys. */
  method FindKey(compact: seq<Key>, keys: seq<Key>, j: nat, from: nat, ghost at: seq<nat>) returns (place: nat)
    requires Embeds(compact, keys, at) && j < |keys| && from <= at[j] && (j > 0 ==> at[j - 1] < from)
    ensures place == at[j] < |compact|
  {
    place := from;
    KeyMatch(compact, keys, at, place, j);
    while compact[place] != keys[j]
      invariant from <= place <= at[j] < |compact| && (compact[place] == keys[j] <==> place == at[j])
      decreases at[j] - place
    {
      place := place + 1;
      KeyMatch(compact, keys, at, place, j);
    }
  }

  // ---------------------------------------------------------------- the inclusion check

  predicate PartOfFails(src: seq<Key>, part: seq<Key>)
    requires src != [] && part != []
  {
    var srcLast, partLast := Last(src), Last(part);
    || Less(part[0], src[0]) || |src| < |part|
    || (srcLast != [] && (partLast == [] || Less(srcLast, partLast)))
  }

  /** The check does not panic on embedded keys. */
  lemma EmbeddedPassesCheck(compact: seq<Key>, keys: seq<Key>, at: seq<nat>)
    requires Embeds(compact, keys, at)
    ensures !PartOfFails(compact, keys)
    ensures !Less(keys[0], compact[0]) && |keys| <= |compact|
    ensures Last(compact) != [] ==> Last(keys) != [] && !Less(Last(compact), Last(keys))
  {
    var n, m := |compact| - 1, |keys| - 1;
    EmbeddingBounds(compact, keys, at, 0);
    assert LiesAt(compact, keys, at, 0) && LiesAt(compact, keys, at, m);
    PlaceOrder(compact, 0, at[0]);
    PlaceOrder(compact, at[m], n);
    BoundOrder(BoundAt(compact, 0), BoundAt(compact, at[0]), Infinity);
    BoundOrder(BoundAt(compact, at[m]), BoundAt(compact, n), Infinity);
  }

  // ---------------------------------------------------------------- finding the places

  predicate HasBound(keys: seq<Key>, b: Bound) {
    exists i :: 0 <= i < |keys| && BoundAt(keys, i) == b
  }

  ghost function PlaceOf(keys: seq<Key>, b: Bound): (i: nat)
    requires HasBound(keys, b)
    ensures i < |keys| && BoundAt(keys, i) == b
  {
    var i :| 0 <= i < |keys| && BoundAt(keys, i) == b;
    i
  }

  /** Where each key of the axis lies among the finer keys, all of which it must be. */
  ghost function Places(compact: seq<Key>, keys: seq<Key>): (at: seq<nat>)
    requires forall i :: 0 <= i < |keys| ==> HasBound(compact, BoundAt(keys, i))
    ensures |at| == |keys|
  {
    seq(|keys|, i requires 0 <= i < |keys| => PlaceOf(compact, BoundAt(keys, i)))
  }

  /** An axis whose bounds are all among those of another is embedded in it. */
  lemma BoundsEmbed(compact: seq<Key>, keys: seq<Key>)
    requires IsAxis(compact) && IsAxis(keys) && forall i :: 0 <= i < |keys| ==> HasBound(compact, BoundAt(keys, i))
    ensures Embeds(compact, keys, Places(compact, keys))
  {
    var at := Places(compact, keys);
    forall i | 0 <= i < |at| - 1
      ensures StepsUp(at, i)
    {
      PlaceOrder(keys, i, i + 1);
      PlaceOrder(compact, at[i], at[i + 1]);
    }
    forall i | 0 <= i < |keys|
      ensures LiesAt(compact, keys, at, i)
    {
    }
  }

  /** There is only one embedding. */
  lemma EmbeddingIsUnique(compact: seq<Key>, keys: seq<Key>, a: seq<nat>, b: seq<nat>)
    requires Embeds(compact, keys, a) && Embeds(compact, keys, b)
    ensures a == b
  {
    forall i | 0 <= i < |keys|
      ensures a[i] == b[i]
    {
      assert LiesAt(compact, keys, a, i) && LiesAt(compact, keys, b, i);
      PlaceOrder(compact, a[i], b[i]);
    }
  }
}
