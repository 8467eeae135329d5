/** Sorted key lists whose last key may be empty, standing for an unlimited end (matrix/util.go). */
module Keys {
  import opened Bytes

  type Key = ByteString

  /** A position in the key space. */
  datatype Bound = Fin(key: Key) | Infinity

  predicate BoundLess(a: Bound, b: Bound) {
    match (a, b)
    case (Fin(x), Fin(y)) => Less(x, y)
    case (Fin(_), Infinity) => true
    case (Infinity, _) => false
  }

  function EndBound(key: Key): Bound {
    if key == [] then Infinity else Fin(key)
  }

  function BoundAt(keys: seq<Key>, i: nat): Bound
    requires i < |keys|
  {
    if i == |keys| - 1 then EndBound(keys[i]) else Fin(keys[i])
  }

  /** The keys of an axis: at least one bucket, and bounds that strictly increase. */
  ghost predicate IsAxis(keys: seq<Key>) {
    && |keys| >= 2
    && forall i, j :: 0 <= i < j < |keys| ==> BoundLess(BoundAt(keys, i), BoundAt(keys, j))
  }

  lemma BoundOrder(a: Bound, b: Bound, c: Bound)
    ensures a == b || BoundLess(a, b) || BoundLess(b, a)
    ensures !(BoundLess(a, b) && BoundLess(b, a)) && !BoundLess(a, a)
    ensures BoundLess(a, b) && BoundLess(b, c) ==> BoundLess(a, c)
  {
    if a.Fin? && b.Fin? {
      LessTotal(a.key, b.key);
    }
    if a.Fin? {
      LessTotal(a.key, a.key);
    }
    if a.Fin? && b.Fin? && c.Fin? && BoundLess(a, b) && BoundLess(b, c) {
      LessTransitive(a.key, b.key, c.key);
    }
  }

  /** Equal keys are the same key, unless one is the first and the other the unlimited end. */
  lemma EqualKeys(keys: seq<Key>, i: nat, j: nat)
    requires IsAxis(keys) && i <= j < |keys| && (i > 0 || j < |keys| - 1)
    ensures keys[i] == keys[j] <==> i == j
  {
    if i < j {
      assert BoundLess(BoundAt(keys, i), BoundAt(keys, j));
      if i > 0 {
        assert BoundLess(BoundAt(keys, 0), BoundAt(keys, i));
      }
      LessTotal(keys[i], keys[i]);
    }
  }

  // ---------------------------------------------------------------- searching

  /** Binary search for the first index at which `f` holds. */
  method Search(n: nat, f: int -> bool) returns (i: nat)
    requires forall a, b :: 0 <= a <= b < n && f(a) ==> f(b)
    ensures i <= n
    ensures forall k :: 0 <= k < i ==> !f(k)
    ensures forall k :: i <= k < n ==> f(k)
  {
    i := 0;
    var j := n;
    while i < j
      invariant 0 <= i <= j <= n
      invariant forall k :: 0 <= k < i ==> !f(k)
      invariant forall k :: j <= k < n ==> f(k)
    {
      var h := (i + j) / 2;
      if !f(h) {
        i := h + 1;
      } else {
        j := h;
      }
    }
  }

  /** The key `k` lies in the half-open interval from `lo` to `hi`. */
  predicate Between(k: Key, lo: Bound, hi: Bound) {
    !BoundLess(Fin(k), lo) && BoundLess(Fin(k), hi)
  }

  /** Some key lies both in bucket `i` and in the window. */
  ghost predicate Meets(keys: seq<Key>, i: nat, startKey: Key, endKey: Key)
    requires i + 1 < |keys|
  {
    exists k: Key :: Between(k, BoundAt(keys, i), BoundAt(keys, i + 1)) && Between(k, Fin(startKey), EndBound(endKey))
  }

  lemma MeetsExactly(keys: seq<Key>, i: nat, startKey: Key, endKey: Key)
    requires IsAxis(keys) && i + 1 < |keys|
    requires BoundLess(Fin(startKey), EndBound(endKey))
    ensures Meets(keys, i, startKey, endKey)
       <==> BoundLess(Fin(keys[i]), EndBound(endKey)) && BoundLess(Fin(startKey), BoundAt(keys, i + 1))
  {
    var lo, hi := BoundAt(keys, i), BoundAt(keys, i + 1);
    assert BoundLess(lo, hi);
    if BoundLess(lo, EndBound(endKey)) && BoundLess(Fin(startKey), hi) {
      var k := if Less(startKey, keys[i]) then keys[i] else startKey;
      BoundOrder(lo, Fin(startKey), lo);
      BoundOrder(Fin(startKey), lo, lo);
      assert Between(k, lo, hi) && Between(k, Fin(startKey), EndBound(endKey));
    }
    if Meets(keys, i, startKey, endKey) {
      var k :| Between(k, lo, hi) && Between(k, Fin(startKey), EndBound(endKey));
      BoundOrder(lo, Fin(k), EndBound(endKey));
      BoundOrder(Fin(startKey), Fin(k), hi);
    }
  }

  datatype KeyRange = Selected(start: nat, end: nat) | Disjoint | Panic

  /** The keys to take so that exactly the buckets meeting the window are kept. */
  method KeysRange(keys: seq<Key>, startKey: Key, endKey: Key) returns (r: KeyRange)
    requires IsAxis(keys)
    ensures r == Panic <==> endKey != [] && !Less(startKey, endKey)
    ensures r.Selected? ==> r.start + 2 <= r.end <= |keys|
    ensures r.Selected? ==> forall i :: 0 <= i < |keys| - 1 ==>
      (Meets(keys, i, startKey, endKey) <==> r.start <= i < r.end - 1)
    ensures r == Disjoint ==> forall i :: 0 <= i < |keys| - 1 ==> !Meets(keys, i, startKey, endKey)
  {
    hide Less, Meets;
    if endKey != [] && !Less(startKey, endKey) {
      return Panic;
    }
    var keysLen := |keys|;
    var axisEndKey := keys[keysLen - 1];
    SortedAgainst(keys, startKey, endKey);
    if endKey != [] && !Less(keys[0], endKey) {
      forall i | 0 <= i < |keys| - 1 ensures !Meets(keys, i, startKey, endKey) {
        MeetsExactly(keys, i, startKey, endKey);
      }
      return Disjoint;
    }
    if axisEndKey != [] && !Less(startKey, axisEndKey) {
      forall i | 0 <= i < |keys| - 1 ensures !Meets(keys, i, startKey, endKey) {
        MeetsExactly(keys, i, startKey, endKey);
      }
      return Disjoint;
    }
    var sortedKeysLen := if axisEndKey == [] then keysLen - 1 else keysLen;
    var above := i => 0 <= i < |keys| && Less(startKey, keys[i]);
    var start := Search(sortedKeysLen, above);
    assert forall k :: 0 <= k < sortedKeysLen ==> (Less(startKey, keys[k]) <==> above(k));
    if start > 0 {
      start := start - 1;
    }
    var end := keysLen;
    if endKey != [] {
      var notBelow := i => 0 <= i < |keys| && !Less(keys[i], endKey);
      end := Search(sortedKeysLen, notBelow);
      assert forall k :: 0 <= k < sortedKeysLen ==> (!Less(keys[k], endKey) <==> notBelow(k));
      if end < keysLen {
        end := end + 1;
      }
    }
    MeetingBuckets(keys, startKey, endKey, start, end);
    BoundOrder(Fin(keys[start]), Fin(startKey), EndBound(endKey));
    r := Selected(start, end);
  }

  lemma MeetingBuckets(keys: seq<Key>, startKey: Key, endKey: Key, start: nat, end: nat)
    requires IsAxis(keys) && BoundLess(Fin(startKey), EndBound(endKey))
    requires forall i :: 0 < i < |keys| ==> (BoundLess(Fin(startKey), BoundAt(keys, i)) <==> start < i)
    requires forall i :: 0 <= i < |keys| - 1 ==> (BoundLess(Fin(keys[i]), EndBound(endKey)) <==> i < end - 1)
    ensures forall i :: 0 <= i < |keys| - 1 ==> (Meets(keys, i, startKey, endKey) <==> start <= i < end - 1)
  {
    forall i | 0 <= i < |keys| - 1
      ensures Meets(keys, i, startKey, endKey) <==> start <= i < end - 1
    {
      MeetsExactly(keys, i, startKey, endKey);
    }
  }

  /** Along the finite bounds, being above a key, and being at least a key, are monotone. */
  lemma SortedAgainst(keys: seq<Key>, startKey: Key, endKey: Key)
    requires IsAxis(keys)
    ensures forall a, b :: 0 <= a <= b < |keys| && BoundAt(keys, b).Fin? && Less(startKey, keys[a]) ==>
      Less(startKey, keys[b])
    ensures forall a, b :: 0 <= a <= b < |keys| && BoundAt(keys, b).Fin? && !Less(keys[a], endKey) ==>
      !Less(keys[b], endKey)
  {
    forall a, b | 0 <= a < b < |keys| && BoundAt(keys, b).Fin?
      ensures Less(startKey, keys[a]) ==> Less(startKey, keys[b])
      ensures !Less(keys[a], endKey) ==> !Less(keys[b], endKey)
    {
      assert BoundLess(BoundAt(keys, a), BoundAt(keys, b));
      BoundOrder(Fin(startKey), Fin(keys[a]), Fin(keys[b]));
      BoundOrder(Fin(keys[a]), Fin(keys[b]), Fin(endKey));
    }
  }
}
