/** How far each key of the union is from the nearest axis that has it (matrix/distance.go). */
module Distances {
  import opened Ints
  import opened Keys
  import opened Partition
  import opened Embeddings

  function Max(a: int, b: int): int {
    if a > b then a else b
  }

  function Min(a: int, b: int): int {
    if a < b then a else b
  }

  /** The distance from axis `i` leftward to an axis that has key `k`; beyond the first axis, a virtual one
      is as far as there are axes. */
  function LeftDis(ats: seq<seq<nat>>, i: nat, k: nat): nat
    requires i < |ats|
  {
    if k in ats[i] then 0 else (if i == 0 then |ats| else LeftDis(ats, i - 1, k)) + 1
  }

  /** The distance on both sides, as the second pass leaves it. */
  function BothDis(ats: seq<seq<nat>>, i: nat, k: nat): nat
    requires i < |ats|
    decreases |ats| - i
  {
    if k in ats[i] then 0
    else Min(LeftDis(ats, i, k), (if i == |ats| - 1 then |ats| else BothDis(ats, i + 1, k)) + 1)
  }

  function Apart(i: nat, j: nat): nat {
    if i < j then j - i else i - j
  }

  /** `d` is the distance from axis `i` to the nearest axis that has key `k`. */
  ghost predicate IsNearest(ats: seq<seq<nat>>, i: nat, k: nat, d: nat) {
    && (exists j :: 0 <= j < |ats| && k in ats[j] && Apart(i, j) == d)
    && (forall j :: 0 <= j < |ats| && k in ats[j] ==> d <= Apart(i, j))
  }

  lemma {:induction false} LeftDisIs(ats: seq<seq<nat>>, i: nat, k: nat)
    requires i < |ats|
    ensures forall j :: 0 <= j <= i && k in ats[j] ==> LeftDis(ats, i, k) <= i - j
    ensures LeftDis(ats, i, k) > |ats| || exists j :: 0 <= j <= i && k in ats[j] && LeftDis(ats, i, k) == i - j
  {
    if k in ats[i] {
      assert LeftDis(ats, i, k) == i - i;
    } else if i > 0 {
      LeftDisIs(ats, i - 1, k);
    }
  }

  lemma {:induction false} BothDisIs(ats: seq<seq<nat>>, i: nat, k: nat)
    requires i < |ats|
    ensures forall j :: 0 <= j < |ats| && k in ats[j] ==> BothDis(ats, i, k) <= Apart(i, j)
    ensures BothDis(ats, i, k) >= |ats|
      || exists j :: 0 <= j < |ats| && k in ats[j] && BothDis(ats, i, k) == Apart(i, j)
    decreases |ats| - i
  {
    LeftDisIs(ats, i, k);
    if k in ats[i] {
      assert Apart(i, i) == 0;
    } else {
      if i < |ats| - 1 {
        BothDisIs(ats, i + 1, k);
      }
      if BothDis(ats, i, k) < |ats| {
        if BothDis(ats, i, k) == LeftDis(ats, i, k) {
          var j :| 0 <= j <= i && k in ats[j] && LeftDis(ats, i, k) == i - j;
          assert BothDis(ats, i, k) == Apart(i, j);
        } else {
          var j :| 0 <= j < |ats| && k in ats[j] && BothDis(ats, i + 1, k) == Apart(i + 1, j);
          assert BothDis(ats, i, k) == Apart(i, j);
        }
      }
    }
  }

  /** The two passes give the exact distance for every key that some axis has. */
  lemma TwoPassesAreExact(ats: seq<seq<nat>>, i: nat, k: nat, a: nat)
    requires i < |ats| && a < |ats| && k in ats[a]
    ensures IsNearest(ats, i, k, BothDis(ats, i, k))
  {
    BothDisIs(ats, i, k);
    assert BothDis(ats, i, k) <= Apart(i, a);
  }

  function LeftColumn(ats: seq<seq<nat>>, i: nat, keysLen: nat): (ds: seq<nat>)
    requires i < |ats|
    ensures |ds| == keysLen
  {
    seq(keysLen, k requires 0 <= k < keysLen => LeftDis(ats, i, k))
  }

  function BothColumn(ats: seq<seq<nat>>, i: nat, keysLen: nat): (ds: seq<nat>)
    requires i < |ats|
    ensures |ds| == keysLen
  {
    seq(keysLen, k requires 0 <= k < keysLen => BothDis(ats, i, k))
  }

  // ---------------------------------------------------------------- the passes

  /** How far the reading of an axis's keys has come when key `i` of the finer keys is next. */
  ghost predicate ReadTo(at: seq<nat>, i: nat, j: nat) {
    j <= |at| && (j > 0 ==> at[j - 1] < i) && (j < |at| ==> i <= at[j])
  }

  /** Key `i` is one of the axis's just when it is the next. */
  lemma NextKey(compact: seq<Key>, keys: seq<Key>, at: seq<nat>, i: nat, j: nat)
    requires Embeds(compact, keys, at) && ReadTo(at, i, j) && i < |compact|
    ensures i in at <==> j < |at| && i == at[j]
    ensures j < |at| ==> (compact[i] == keys[j] <==> i == at[j])
    ensures ReadTo(at, i + 1, if i in at then j + 1 else j)
  {
    if j < |at| {
      KeyMatch(compact, keys, at, i, j);
    }
    if i in at {
      var m :| 0 <= m < |at| && at[m] == i;
      if m < j {
        InOrder(at, m, j - 1);
      } else {
        InOrder(at, j, m);
      }
    }
    if j < |at| - 1 {
      assert StepsUp(at, j);
    }
  }

  method UpdateLeftDis(dis: array<nat>, leftDis: array<nat>, keys: seq<Key>, compactKeys: seq<Key>, ghost at: seq<nat>)
    requires Embeds(compactKeys, keys, at) && dis != leftDis && dis.Length == leftDis.Length == |compactKeys|
    modifies dis
    ensures forall k :: 0 <= k < dis.Length ==> dis[k] == if k in at then 0 else leftDis[k] + 1
  {
    EmbeddedPassesCheck(compactKeys, keys, at);
    var j := 0;
    for i := 0 to dis.Length
      invariant ReadTo(at, i, j)
      invariant forall k :: 0 <= k < i ==> dis[k] == if k in at then 0 else leftDis[k] + 1
    {
      NextKey(compactKeys, keys, at, i, j);
      if j < |keys| && compactKeys[i] == keys[j] {
        dis[i] := 0;
        j := j + 1;
      } else {
        dis[i] := leftDis[i] + 1;
      }
    }
  }

  method UpdateRightDis(dis: array<nat>, rightDis: array<nat>, keys: seq<Key>, compactKeys: seq<Key>,
                        ghost at: seq<nat>)
    requires Embeds(compactKeys, keys, at) && dis != rightDis && dis.Length == rightDis.Length == |compactKeys|
    modifies dis
    ensures forall k :: 0 <= k < dis.Length ==> dis[k] == if k in at then 0 else Min(old(dis[k]), rightDis[k] + 1)
  {
    var j := 0;
    for i := 0 to dis.Length
      invariant ReadTo(at, i, j)
      invariant forall k :: 0 <= k < i ==> dis[k] == if k in at then 0 else Min(old(dis[k]), rightDis[k] + 1)
      invariant forall k :: i <= k < dis.Length ==> dis[k] == old(dis[k])
    {
      NextKey(compactKeys, keys, at, i, j);
      if j < |keys| && compactKeys[i] == keys[j] {
        dis[i] := 0;
        j := j + 1;
      } else {
        dis[i] := Min(dis[i], rightDis[i] + 1);
      }
    }
  }

  ghost predicate AllEmbed(axes: seq<seq<Key>>, compactKeys: seq<Key>, ats: seq<seq<nat>>) {
    |ats| == |axes| && forall a :: 0 <= a < |axes| ==> Embeds(compactKeys, axes[a], ats[a])
  }

  ghost predicate Columns(dis: seq<array<nat>>, keysLen: nat) {
    && (forall a :: 0 <= a < |dis| ==> dis[a].Length == keysLen)
    && (forall a, b :: 0 <= a < b < |dis| ==> dis[a] != dis[b])
  }

  /** The key distance matrix: first leftward distances, then the nearer of both sides. */
  method KeyDistances(axes: seq<seq<Key>>, compactKeys: seq<Key>, ghost ats: seq<seq<nat>>)
    returns (dis: seq<array<nat>>)
    requires axes != [] && AllEmbed(axes, compactKeys, ats)
    ensures |dis| == |axes| && Columns(dis, |compactKeys|) && forall a :: 0 <= a < |dis| ==> fresh(dis[a])
    ensures forall a :: 0 <= a < |dis| ==> dis[a][..] == BothColumn(ats, a, |compactKeys|)
  {
    var keysLen := |compactKeys|;
    dis := [];
    for a := 0 to |axes|
      invariant |dis| == a && Columns(dis, keysLen) && forall b :: 0 <= b < a ==> fresh(dis[b])
    {
      var column := new nat[keysLen](_ => 0);
      dis := dis + [column];
    }
    var virtualColumn := new nat[keysLen](_ => 0);
    Memset(virtualColumn, |axes|);
    LeftPass(axes, compactKeys, ats, dis, virtualColumn);
    RightPass(axes, compactKeys, ats, dis, virtualColumn);
  }

  method LeftPass(axes: seq<seq<Key>>, compactKeys: seq<Key>, ghost ats: seq<seq<nat>>, dis: seq<array<nat>>,
                  virtualColumn: array<nat>)
    requires axes != [] && AllEmbed(axes, compactKeys, ats) && |dis| == |axes| && Columns(dis, |compactKeys|)
    requires virtualColumn !in dis && virtualColumn.Length == |compactKeys|
    requires forall k :: 0 <= k < virtualColumn.Length ==> virtualColumn[k] == |axes|
    modifies dis
    ensures forall a :: 0 <= a < |dis| ==> dis[a][..] == LeftColumn(ats, a, |compactKeys|)
  {
    hide Embeds;
    UpdateLeftDis(dis[0], virtualColumn, axes[0], compactKeys, ats[0]);
    for i := 1 to |axes|
      invariant forall a :: 0 <= a < i ==> dis[a][..] == LeftColumn(ats, a, |compactKeys|)
    {
      ghost var left := dis[i - 1][..];
      UpdateLeftDis(dis[i], dis[i - 1], axes[i], compactKeys, ats[i]);
    }
  }

  /** A column after the second pass, from its leftward distances and the column on its right. */
  lemma RightStep(ats: seq<seq<nat>>, i: nat, left: seq<nat>, right: seq<nat>, column: seq<nat>)
    requires i < |ats| && |left| == |right| == |column| && left == LeftColumn(ats, i, |column|)
    requires if i == |ats| - 1 then forall k :: 0 <= k < |right| ==>
      right[k] == |ats| else right == BothColumn(ats, i + 1, |column|)
    requires forall k :: 0 <= k < |column| ==> column[k] == if k in ats[i] then 0 else Min(left[k], right[k] + 1)
    ensures column == BothColumn(ats, i, |column|)
  {
  }

  method RightPass(axes: seq<seq<Key>>, compactKeys: seq<Key>, ghost ats: seq<seq<nat>>, dis: seq<array<nat>>,
                   virtualColumn: array<nat>)
    requires axes != [] && AllEmbed(axes, compactKeys, ats) && |dis| == |axes| && Columns(dis, |compactKeys|)
    requires virtualColumn !in dis && virtualColumn.Length == |compactKeys|
    requires forall k :: 0 <= k < virtualColumn.Length ==> virtualColumn[k] == |axes|
    requires forall a :: 0 <= a < |dis| ==> dis[a][..] == LeftColumn(ats, a, |compactKeys|)
    modifies dis
    ensures forall a :: 0 <= a < |dis| ==> dis[a][..] == BothColumn(ats, a, |compactKeys|)
  {
    hide Embeds, BothDis, LeftDis, LeftColumn, BothColumn;
    var end := |axes| - 1;
    ghost var last := dis[end][..];
    UpdateRightDis(dis[end], virtualColumn, axes[end], compactKeys, ats[end]);
    RightStep(ats, end, last, virtualColumn[..], dis[end][..]);
    for i := end downto 0
      invariant forall a :: i <= a < |dis| ==> dis[a][..] == BothColumn(ats, a, |compactKeys|)
      invariant forall a :: 0 <= a < i ==> dis[a][..] == LeftColumn(ats, a, |compactKeys|)
    {
      ghost var left := dis[i][..];
      UpdateRightDis(dis[i], dis[i + 1], axes[i], compactKeys, ats[i]);
      RightStep(ats, i, left, dis[i + 1][..], dis[i][..]);
    }
  }

  // ---------------------------------------------------------------- from keys to buckets

  /** The distance of each bucket: the greater of its two keys' distances. */
  function BucketDis(ds: seq<nat>): (bs: seq<nat>)
    requires ds != []
    ensures |bs| == |ds| - 1
  {
    seq(|ds| - 1, b requires 0 <= b < |ds| - 1 => Max(ds[b], ds[b + 1]))
  }

  /** No key of the bucket is farther, and one is as far. */
  lemma BucketDisIs(ds: seq<nat>, b: nat)
    requires b < |ds| - 1
    ensures ds[b] <= BucketDis(ds)[b] && ds[b + 1] <= BucketDis(ds)[b]
    ensures BucketDis(ds)[b] == ds[b] || BucketDis(ds)[b] == ds[b + 1]
  {
  }

  /** Overwrites all but the first place, from the back, with the buckets' distances. */
  method ToBucketDis(dis: array<nat>) returns (maxDis: nat)
    requires dis.Length > 0
    modifies dis
    ensures dis[..][1..] == BucketDis(old(dis[..]))
    ensures forall i :: 1 <= i < dis.Length ==> dis[i] <= maxDis
    ensures maxDis == 0 || maxDis in dis[..][1..]
  {
    maxDis := 0;
    ghost var top := 0;
    for i := dis.Length - 1 downto 0
      invariant forall k :: 0 <= k <= i ==> dis[k] == old(dis[k])
      invariant forall k :: i < k < dis.Length ==> dis[k] == Max(old(dis[k - 1]), old(dis[k])) && dis[k] <= maxDis
      invariant maxDis == 0 || (i < top < dis.Length && dis[top] == maxDis)
    {
      dis[i + 1] := Max(dis[i + 1], dis[i]);
      top := if dis[i + 1] > maxDis then i + 1 else top;
      maxDis := Max(maxDis, dis[i + 1]);
    }
    if maxDis != 0 {
      assert dis[..][1..][top - 1] == maxDis;
    }
  }
}
