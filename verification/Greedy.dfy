/** Where the greedy bucketing of rows cuts, and how many buckets it can make. */
module Greedy {
  import opened Seqs
  import opened Keys
  import opened Partition

  type Crossing = (Key, Key) -> bool

  predicate Crosses(cross: Crossing, a: Key, b: Key) {
    cross(a, b)
  }

  /** When to close a bucket: by heat, by width, or at a border. */
  datatype Rule = Rule(threshold: nat, ratio: int, cross: Crossing)

  predicate Never(a: Key, b: Key) { false }

  /** What is decided for a row, with the first reason to cut before it. */
  datatype Decision = Joins | HotCut | WideCut | BorderCut

  predicate Hot(values: seq<nat>, threshold: nat, start: nat, i: nat)
    requires start <= i < |values|
  {
    values[i] >= threshold || Sum(values[start..i]) >= threshold
  }

  /** The decision for row `i` when the open bucket starts at `start`. */
  function Decide(keys: seq<Key>, values: seq<nat>, rule: Rule, start: nat, i: nat): Decision
    requires start <= i < |values| < |keys|
  {
    if i == start then Joins
    else if Hot(values, rule.threshold, start, i) then HotCut
    else if i - start >= rule.ratio then WideCut
    else if Crosses(rule.cross, keys[start], keys[i]) then BorderCut
    else Joins
  }

  // ---------------------------------------------------------------- sequences of decisions

  /** Where the bucket open before row `i` starts. */
  function Open(ds: seq<Decision>, i: nat): (start: nat)
    requires i <= |ds|
    ensures start < i || start == i == 0
  {
    if i == 0 then 0 else if ds[i - 1] == Joins then Open(ds, i - 1) else i - 1
  }

  /** The bucket starts among rows `0..i`. */
  function Starts(ds: seq<Decision>, i: nat): (r: seq<nat>)
    requires i <= |ds|
    ensures |r| >= 1 && r[|r| - 1] == Open(ds, i)
  {
    if i == 0 then [0]
    else Starts(ds, i - 1) + if ds[i - 1] == Joins then [] else [i - 1]
  }

  function Count(ds: seq<Decision>, d: Decision, i: nat): nat
    requires i <= |ds|
  {
    if i == 0 then 0 else Count(ds, d, i - 1) + if ds[i - 1] == d then 1 else 0
  }

  lemma {:induction false} PrefixKeepsStarts(ds: seq<Decision>, d: Decision, i: nat)
    requires i <= |ds|
    ensures Starts(ds + [d], i) == Starts(ds, i) && Open(ds + [d], i) == Open(ds, i)
  {
    if i > 0 {
      PrefixKeepsStarts(ds, d, i - 1);
    }
  }

  lemma {:induction false} StartsIncrease(ds: seq<Decision>, i: nat)
    requires i <= |ds| && (|ds| > 0 ==> ds[0] == Joins)
    ensures var r := Starts(ds, i); r[0] == 0 && Increasing(r)
  {
    if i > 0 {
      StartsIncrease(ds, i - 1);
      if ds[i - 1] != Joins && Open(ds, i - 1) < i - 1 {
        ExtendIncreasing(Starts(ds, i - 1), i - 1);
      } else {
        assert Starts(ds, i - 1) + [] == Starts(ds, i - 1);
      }
    }
  }

  lemma {:induction false} StartsAreCounted(ds: seq<Decision>, i: nat)
    requires i <= |ds|
    ensures |Starts(ds, i)| == 1 + Count(ds, HotCut, i) + Count(ds, WideCut, i) + Count(ds, BorderCut, i)
  {
    if i > 0 {
      StartsAreCounted(ds, i - 1);
    }
  }

  /** Bucket `b` ends where the next one starts, or at `i`. */
  function EndOf(starts: seq<nat>, b: nat, i: nat): nat
    requires b < |starts|
  {
    if b + 1 < |starts| then starts[b + 1] else i
  }

  lemma {:induction false} BucketEnds(ds: seq<Decision>, i: nat, b: nat)
    requires i <= |ds| && (|ds| > 0 ==> ds[0] == Joins) && b < |Starts(ds, i)|
    ensures var r := Starts(ds, i);
      r[b] <= EndOf(r, b, i) <= i && (b + 1 < |r| ==> r[b] < r[b + 1] < i && ds[r[b + 1]] != Joins)
  {
    if i > 0 && b < |Starts(ds, i - 1)| {
      BucketEnds(ds, i - 1, b);
    }
  }

  /** Between its start and its end, bucket `b` is the open one, and its rows were joined to it. */
  lemma {:induction false} BucketRows(ds: seq<Decision>, i: nat, b: nat, k: nat)
    requires i <= |ds| && (|ds| > 0 ==> ds[0] == Joins) && b < |Starts(ds, i)|
    requires Starts(ds, i)[b] < k <= EndOf(Starts(ds, i), b, i) && k <= i
    ensures Open(ds, k) == Starts(ds, i)[b]
    ensures k < EndOf(Starts(ds, i), b, i) && k < i ==> ds[k] == Joins
  {
    BucketEnds(ds, i, b);
    if k < i && b < |Starts(ds, i - 1)| {
      BucketRows(ds, i - 1, b, k);
    }
  }

  // ---------------------------------------------------------------- the greedy run

  /** Decision `i` is the rule's, for the bucket the earlier decisions leave open. */
  ghost predicate DecidedAt(keys: seq<Key>, values: seq<nat>, rule: Rule, ds: seq<Decision>, i: nat)
    requires i < |ds| <= |values| < |keys|
  {
    ds[i] == Decide(keys, values, rule, Open(ds, i), i)
  }

  ghost predicate Follows(keys: seq<Key>, values: seq<nat>, rule: Rule, ds: seq<Decision>)
    requires |values| < |keys|
  {
    |ds| <= |values| && forall i :: 0 <= i < |ds| ==> DecidedAt(keys, values, rule, ds, i)
  }

  function Run(keys: seq<Key>, values: seq<nat>, rule: Rule, n: nat): (ds: seq<Decision>)
    requires n <= |values| < |keys|
    ensures |ds| == n
  {
    if n == 0 then []
    else
      var ds := Run(keys, values, rule, n - 1);
      ds + [Decide(keys, values, rule, Open(ds, n - 1), n - 1)]
  }

  lemma {:induction false} RunFollows(keys: seq<Key>, values: seq<nat>, rule: Rule, n: nat)
    requires n <= |values| < |keys|
    ensures var ds := Run(keys, values, rule, n);
      Follows(keys, values, rule, ds) && (n > 0 ==> ds[0] == Joins)
  {
    if n > 0 {
      RunFollows(keys, values, rule, n - 1);
      var ds := Run(keys, values, rule, n - 1);
      FollowsExtend(keys, values, rule, ds, Decide(keys, values, rule, Open(ds, n - 1), n - 1));
    }
  }

  lemma {:induction false} FollowsExtend(keys: seq<Key>, values: seq<nat>, rule: Rule, ds: seq<Decision>, d: Decision)
    requires |ds| < |values| < |keys| && Follows(keys, values, rule, ds)
    requires d == Decide(keys, values, rule, Open(ds, |ds|), |ds|)
    ensures Follows(keys, values, rule, ds + [d])
  {
    hide Decide;
    var longer := ds + [d];
    forall i | 0 <= i < |longer|
      ensures DecidedAt(keys, values, rule, longer, i)
    {
      PrefixKeepsStarts(ds, d, i);
      assert i < |ds| ==> DecidedAt(keys, values, rule, ds, i);
    }
  }

  /** All cuts: the bucket starts, then the end of the rows. */
  function Cuts(keys: seq<Key>, values: seq<nat>, rule: Rule): (cuts: seq<nat>)
    requires 1 <= |values| < |keys|
    ensures IsPartition(cuts, |values|)
  {
    var ds := Run(keys, values, rule, |values|);
    RunFollows(keys, values, rule, |values|);
    StartsIncrease(ds, |values|);
    ExtendIncreasing(Starts(ds, |values|), |values|);
    Starts(ds, |values|) + [|values|]
  }

  /** Rows `start..end` form a bucket: the rule joins all of them and, unless the rows end there, not the next. */
  ghost predicate IsBucket(keys: seq<Key>, values: seq<nat>, rule: Rule, start: nat, end: nat)
    requires |values| < |keys|
  {
    && start < end <= |values|
    && (forall k :: start < k < end ==> Decide(keys, values, rule, start, k) == Joins)
    && (end < |values| ==> Decide(keys, values, rule, start, end) != Joins)
  }

  lemma {:induction false} DecisionsMakeBuckets(keys: seq<Key>, values: seq<nat>, rule: Rule, ds: seq<Decision>, b: nat)
    requires 1 <= |values| < |keys| && |ds| == |values| && Follows(keys, values, rule, ds) && ds[0] == Joins
    requires b < |Starts(ds, |ds|)|
    ensures var cuts := Starts(ds, |ds|) + [|ds|]; IsBucket(keys, values, rule, cuts[b], cuts[b + 1])
  {
    var cuts := Starts(ds, |ds|) + [|ds|];
    BucketEnds(ds, |ds|, b);
    forall k | cuts[b] < k < cuts[b + 1]
      ensures Decide(keys, values, rule, cuts[b], k) == Joins
    {
      BucketRows(ds, |ds|, b, k);
      assert DecidedAt(keys, values, rule, ds, k);
    }
    if cuts[b + 1] < |values| {
      BucketRows(ds, |ds|, b, cuts[b + 1]);
      assert DecidedAt(keys, values, rule, ds, cuts[b + 1]);
    }
  }

  /** The cuts are greedy: every bucket stops at the first row the rule keeps out of it. */
  lemma {:induction false} CutsAreGreedy(keys: seq<Key>, values: seq<nat>, rule: Rule, b: nat)
    requires 1 <= |values| < |keys| && b < |Cuts(keys, values, rule)| - 1
    ensures var cuts := Cuts(keys, values, rule); IsBucket(keys, values, rule, cuts[b], cuts[b + 1])
  {
    RunFollows(keys, values, rule, |values|);
    DecisionsMakeBuckets(keys, values, rule, Run(keys, values, rule, |values|), b);
  }

  /** What every bucket looks like: a hot row is alone, no bucket is wider than the ratio, holds a key
      across a border from its first, or (with two rows or more) reaches twice the threshold. */
  lemma {:induction false} BucketShape(keys: seq<Key>, values: seq<nat>, rule: Rule, start: nat, end: nat)
    requires |values| < |keys| && IsBucket(keys, values, rule, start, end)
    ensures forall k :: start <= k < end && values[k] >= rule.threshold ==> end == start + 1
    ensures rule.ratio >= 1 ==> end - start <= rule.ratio
    ensures forall k :: start < k < end ==> !Crosses(rule.cross, keys[start], keys[k])
    ensures end > start + 1 ==> Sum(values[start..end]) < 2 * rule.threshold
  {
    forall k | start < k < end
      ensures values[k] < rule.threshold && !Crosses(rule.cross, keys[start], keys[k])
    {
      assert Decide(keys, values, rule, start, k) == Joins;
    }
    if end > start + 1 {
      assert Decide(keys, values, rule, start, start + 1) == Joins;
      SumExtend(values, start, start);
    }
    if end > start + 1 {
      assert Decide(keys, values, rule, start, end - 1) == Joins;
      SumExtend(values, start, end - 1);
    }
  }

  // ---------------------------------------------------------------- what the rule says, row by row

  /** Row `i` may not join the bucket that starts at `start`: one of the two is hot already, the bucket is as wide as
      it may be, or the row's key lies across a border from the bucket's first. */
  ghost predicate Closes(keys: seq<Key>, values: seq<nat>, rule: Rule, start: nat, i: nat)
    requires start <= i < |values| < |keys|
  {
    || values[i] >= rule.threshold || Sum(values[start..i]) >= rule.threshold
    || i - start >= rule.ratio || rule.cross(keys[start], keys[i])
  }

  /** Bucket `b` has all rows up to the first that may not join it. */
  ghost predicate ClosedAt(keys: seq<Key>, values: seq<nat>, rule: Rule, cuts: seq<nat>, b: nat)
    requires |values| < |keys| && b < |cuts| - 1
  {
    && cuts[b] < cuts[b + 1] <= |values|
    && (forall k :: cuts[b] < k < cuts[b + 1] ==> !Closes(keys, values, rule, cuts[b], k))
    && (cuts[b + 1] < |values| ==> Closes(keys, values, rule, cuts[b], cuts[b + 1]))
  }

  ghost predicate AllClosed(keys: seq<Key>, values: seq<nat>, rule: Rule, cuts: seq<nat>)
    requires |values| < |keys|
  {
    IsPartition(cuts, |values|) && forall b :: 0 <= b < |cuts| - 1 ==> ClosedAt(keys, values, rule, cuts, b)
  }

  /** Where the lists agree on cut `m`, they agree on the next. */
  ghost predicate GoOnAlike(a: seq<nat>, b: seq<nat>, m: nat)
    requires m < |a| - 1 && m < |b| - 1
  {
    a[m] == b[m] ==> a[m + 1] == b[m + 1]
  }

  /** Two lists of cuts whose every next cut is determined by the one before are the same. */
  lemma {:induction false} SameCuts(a: seq<nat>, b: seq<nat>, n: nat, k: nat)
    requires IsPartition(a, n) && IsPartition(b, n) && k < |a|
    requires forall m :: 0 <= m < |a| - 1 && m < |b| - 1 ==> GoOnAlike(a, b, m)
    ensures k < |b| && a[k] == b[k]
  {
    CutsBounded(a, n);
    CutsBounded(b, n);
    if k > 0 {
      SameCuts(a, b, n, k - 1);
      assert k - 1 < |b| - 1 ==> GoOnAlike(a, b, k - 1);
    }
  }

  lemma SameEnds(a: seq<nat>, b: seq<nat>, n: nat)
    requires IsPartition(a, n) && IsPartition(b, n)
    requires forall m :: 0 <= m < |a| - 1 && m < |b| - 1 ==> GoOnAlike(a, b, m)
    ensures a == b
  {
    forall m | 0 <= m < |a| - 1 && m < |b| - 1
      ensures GoOnAlike(b, a, m)
    {
      assert GoOnAlike(a, b, m);
    }
    SameCuts(a, b, n, |a| - 1);
    SameCuts(b, a, n, |b| - 1);
    forall k | 0 <= k < |a|
      ensures k < |b| && a[k] == b[k]
    {
      SameCuts(a, b, n, k);
    }
  }

  /** The cuts are the only ones that close every bucket exactly at the first row that may not join it. */
  lemma {:induction false} CutsExactly(keys: seq<Key>, values: seq<nat>, rule: Rule, cuts: seq<nat>)
    requires 1 <= |values| < |keys|
    ensures cuts == Cuts(keys, values, rule) <==> AllClosed(keys, values, rule, cuts)
  {
    var base := Cuts(keys, values, rule);
    CutsClose(keys, values, rule);
    if AllClosed(keys, values, rule, cuts) {
      forall m | 0 <= m < |cuts| - 1 && m < |base| - 1
        ensures GoOnAlike(cuts, base, m)
      {
        assert ClosedAt(keys, values, rule, cuts, m) && ClosedAt(keys, values, rule, base, m);
      }
      SameEnds(cuts, base, |values|);
    }
  }

  lemma {:induction false} CutsClose(keys: seq<Key>, values: seq<nat>, rule: Rule)
    requires 1 <= |values| < |keys|
    ensures AllClosed(keys, values, rule, Cuts(keys, values, rule))
  {
    hide Cuts, Sum;
    var base := Cuts(keys, values, rule);
    forall b | 0 <= b < |base| - 1
      ensures ClosedAt(keys, values, rule, base, b)
    {
      CutsAreGreedy(keys, values, rule, b);
      forall k | base[b] < k <= base[b + 1] && k < |values|
        ensures Closes(keys, values, rule, base[b], k) <==> Decide(keys, values, rule, base[b], k) != Joins
      {
      }
    }
  }

  // ---------------------------------------------------------------- counting rows

  /** The rule behind the row estimate: heat alone. */
  function HeatRule(threshold: nat, rows: nat): Rule {
    Rule(threshold, rows + 1, Never)
  }

  function FocusRows(keys: seq<Key>, values: seq<nat>, threshold: nat): (rows: nat)
    requires |values| < |keys|
    ensures rows >= 1 <==> values != []
  {
    if values == [] then 0 else |Starts(Run(keys, values, HeatRule(threshold, |values|), |values|), |values|)|
  }

  /** Row `i` is hot, or the bucket that starts at `start` is. */
  ghost predicate HeatCloses(values: seq<nat>, threshold: nat, start: nat, i: nat)
    requires start <= i < |values|
  {
    values[i] >= threshold || Sum(values[start..i]) >= threshold
  }

  ghost predicate HeatClosedAt(values: seq<nat>, threshold: nat, cuts: seq<nat>, b: nat)
    requires b < |cuts| - 1
  {
    && cuts[b] < cuts[b + 1] <= |values|
    && (forall k :: cuts[b] < k < cuts[b + 1] ==> !HeatCloses(values, threshold, cuts[b], k))
    && (cuts[b + 1] < |values| ==> HeatCloses(values, threshold, cuts[b], cuts[b + 1]))
  }

  /** The cuts close every bucket at the first row for which it or the row is hot. */
  ghost predicate ClosedByHeat(values: seq<nat>, threshold: nat, cuts: seq<nat>) {
    IsPartition(cuts, |values|) && forall b :: 0 <= b < |cuts| - 1 ==> HeatClosedAt(values, threshold, cuts, b)
  }

  /** There is one way of closing buckets by heat alone, and the estimate is how many buckets it makes. */
  lemma {:induction false} FocusRowsExactly(keys: seq<Key>, values: seq<nat>, threshold: nat)
    requires 1 <= |values| < |keys|
    ensures exists cuts :: ClosedByHeat(values, threshold, cuts)
    ensures forall cuts :: ClosedByHeat(values, threshold, cuts) ==> FocusRows(keys, values, threshold) == |cuts| - 1
  {
    var rule := HeatRule(threshold, |values|);
    var base := Cuts(keys, values, rule);
    CutsExactly(keys, values, rule, base);
    HeatAlone(keys, values, threshold, base);
    forall cuts | ClosedByHeat(values, threshold, cuts)
      ensures FocusRows(keys, values, threshold) == |cuts| - 1
    {
      HeatAlone(keys, values, threshold, cuts);
      CutsExactly(keys, values, rule, cuts);
    }
  }

  lemma {:induction false} HeatAlone(keys: seq<Key>, values: seq<nat>, threshold: nat, cuts: seq<nat>)
    requires |values| < |keys|
    ensures ClosedByHeat(values, threshold, cuts) <==> AllClosed(keys, values, HeatRule(threshold, |values|), cuts)
  {
    hide Sum;
    if IsPartition(cuts, |values|) {
      CutsBounded(cuts, |values|);
      forall b | 0 <= b < |cuts| - 1
        ensures cuts[b] < cuts[b + 1]
        ensures HeatClosedAt(values, threshold, cuts, b)
          <==> ClosedAt(keys, values, HeatRule(threshold, |values|), cuts, b)
      {
        assert StepsUp(cuts, b);
        forall k | cuts[b] < k <= cuts[b + 1] && k < |values|
          ensures HeatCloses(values, threshold, cuts[b], k)
            <==> Closes(keys, values, HeatRule(threshold, |values|), cuts[b], k)
        {
        }
      }
    }
  }

  /** At row `i`, a plain run with the longer open bucket cuts for heat whenever the other run does. */
  ghost predicate AheadAt(gs: seq<Decision>, fs: seq<Decision>, i: nat)
    requires i < |gs| == |fs|
  {
    && (gs[i] == Joins || gs[i] == HotCut)
    && (Open(gs, i) <= Open(fs, i) && fs[i] == HotCut ==> gs[i] == HotCut)
  }

  ghost predicate Ahead(gs: seq<Decision>, fs: seq<Decision>) {
    |gs| == |fs| && forall i :: 0 <= i < |gs| ==> AheadAt(gs, fs, i)
  }

  lemma HeatRunIsAhead(keys: seq<Key>, values: seq<nat>, plain: Rule, gs: seq<Decision>, rule: Rule, fs: seq<Decision>)
    requires |values| < |keys| && |gs| == |fs| && plain.threshold <= rule.threshold
    requires plain == HeatRule(plain.threshold, |values|)
    requires Follows(keys, values, plain, gs) && Follows(keys, values, rule, fs)
    ensures Ahead(gs, fs)
  {
    forall i | 0 <= i < |gs|
      ensures AheadAt(gs, fs, i)
    {
      assert DecidedAt(keys, values, plain, gs, i) && DecidedAt(keys, values, rule, fs, i);
      if Open(gs, i) <= Open(fs, i) {
        SumSplit(values, Open(gs, i), Open(fs, i), i);
      }
    }
  }

  /** Cutting early, for whatever reason, never makes heat cut more often. */
  lemma {:induction false} AheadHasMoreHeatCuts(gs: seq<Decision>, fs: seq<Decision>, i: nat)
    requires Ahead(gs, fs) && i <= |gs|
    ensures var extra := if Open(gs, i) <= Open(fs, i) then 0 else 1;
      Count(fs, HotCut, i) + extra <= Count(gs, HotCut, i)
  {
    if i > 0 {
      AheadHasMoreHeatCuts(gs, fs, i - 1);
      assert AheadAt(gs, fs, i - 1);
    }
  }

  /** The other two reasons never apply to the estimate. */
  lemma {:induction false} OnlyHeatCuts(gs: seq<Decision>, fs: seq<Decision>, i: nat)
    requires Ahead(gs, fs) && i <= |gs|
    ensures Count(gs, WideCut, i) == 0 && Count(gs, BorderCut, i) == 0
  {
    if i > 0 {
      OnlyHeatCuts(gs, fs, i - 1);
      assert AheadAt(gs, fs, i - 1);
    }
  }

  /** Each cut by width closes a full width of rows. */
  ghost predicate WideApart(ds: seq<Decision>, ratio: int) {
    forall i :: 0 <= i < |ds| ==> WideAt(ds, ratio, i)
  }

  ghost predicate WideAt(ds: seq<Decision>, ratio: int, i: nat)
    requires i < |ds|
  {
    ds[i] == WideCut ==> i - Open(ds, i) >= ratio
  }

  lemma {:induction false} WideCutsAreFew(ds: seq<Decision>, ratio: int, i: nat)
    requires i <= |ds| && ratio >= 1 && WideApart(ds, ratio)
    ensures Times(Count(ds, WideCut, i), ratio) <= Open(ds, i)
  {
    if i > 0 {
      WideCutsAreFew(ds, ratio, i - 1);
      assert WideAt(ds, ratio, i - 1);
    }
  }

  function Times(k: nat, d: nat): nat {
    if k == 0 then 0 else Times(k - 1, d) + d
  }

  lemma {:induction false} TimesIsProduct(k: nat, d: nat)
    ensures Times(k, d) == k * d
  {
    if k > 0 {
      TimesIsProduct(k - 1, d);
      assert k * d == (k - 1) * d + d;
    }
  }

  /** "Not crossing" is an equivalence. */
  ghost predicate Classifies(cross: Crossing) {
    && (forall a :: !Crosses(cross, a, a))
    && (forall a, b :: Crosses(cross, a, b) ==> Crosses(cross, b, a))
    && (forall a, b, c :: !Crosses(cross, a, b) && !Crosses(cross, b, c) ==> !Crosses(cross, a, c))
  }

  /** How often the class changes from one of the first `i` keys to the next. */
  function Changes(keys: seq<Key>, cross: Crossing, i: nat): nat
    requires i <= |keys|
  {
    if i <= 1 then 0 else Changes(keys, cross, i - 1) + if Crosses(cross, keys[i - 2], keys[i - 1]) then 1 else 0
  }

  ghost predicate BorderAtChange(keys: seq<Key>, cross: Crossing, ds: seq<Decision>) {
    |ds| < |keys| && forall i :: 0 <= i < |ds| ==> ChangeAt(keys, cross, ds, i)
  }

  ghost predicate ChangeAt(keys: seq<Key>, cross: Crossing, ds: seq<Decision>, i: nat)
    requires i < |ds| < |keys|
  {
    ds[i] == BorderCut ==> i > 0 && Crosses(cross, keys[i - 1], keys[i])
  }

  lemma {:induction false} BorderCutsAreChanges(keys: seq<Key>, cross: Crossing, ds: seq<Decision>, i: nat)
    requires i <= |ds| && BorderAtChange(keys, cross, ds)
    ensures Count(ds, BorderCut, i) <= Changes(keys, cross, i)
  {
    if i > 0 {
      BorderCutsAreChanges(keys, cross, ds, i - 1);
      assert ChangeAt(keys, cross, ds, i - 1);
    }
  }

  lemma {:induction false} OpenBucketIsOneClass(keys: seq<Key>, values: seq<nat>, rule: Rule, ds: seq<Decision>, i: nat)
    requires |values| < |keys| && Follows(keys, values, rule, ds) && i <= |ds| && Classifies(rule.cross)
    ensures i > 0 ==> !Crosses(rule.cross, keys[Open(ds, i)], keys[i - 1])
  {
    if i > 0 && ds[i - 1] == Joins {
      assert DecidedAt(keys, values, rule, ds, i - 1);
    }
  }

  lemma RunReasons(keys: seq<Key>, values: seq<nat>, rule: Rule, ds: seq<Decision>)
    requires |values| < |keys| && Follows(keys, values, rule, ds) && Classifies(rule.cross)
    ensures WideApart(ds, rule.ratio) && BorderAtChange(keys, rule.cross, ds)
  {
    forall i | 0 <= i < |ds|
      ensures WideAt(ds, rule.ratio, i) && ChangeAt(keys, rule.cross, ds, i)
    {
      assert DecidedAt(keys, values, rule, ds, i);
      OpenBucketIsOneClass(keys, values, rule, ds, i);
    }
  }

  /** A higher threshold never gives more rows. */
  lemma {:induction false} FocusRowsAntitone(keys: seq<Key>, values: seq<nat>, low: nat, high: nat)
    requires |values| < |keys| && low <= high
    ensures FocusRows(keys, values, high) <= FocusRows(keys, values, low)
  {
    var n := |values|;
    var gs, fs := Run(keys, values, HeatRule(low, n), n), Run(keys, values, HeatRule(high, n), n);
    RunFollows(keys, values, HeatRule(low, n), n);
    RunFollows(keys, values, HeatRule(high, n), n);
    HeatRunIsAhead(keys, values, HeatRule(low, n), gs, HeatRule(high, n), fs);
    HeatRunIsAhead(keys, values, HeatRule(high, n), fs, HeatRule(high, n), fs);
    AheadHasMoreHeatCuts(gs, fs, n);
    OnlyHeatCuts(fs, fs, n);
    StartsAreCounted(gs, n);
    StartsAreCounted(fs, n);
  }

  /** Above the total, everything fits one row. */
  lemma {:induction false} ColdestIsOneRow(keys: seq<Key>, values: seq<nat>, threshold: nat)
    requires 1 <= |values| < |keys| && threshold > Sum(values)
    ensures FocusRows(keys, values, threshold) == 1
  {
    var rule := HeatRule(threshold, |values|);
    var ds := Run(keys, values, rule, |values|);
    RunFollows(keys, values, rule, |values|);
    forall i | 0 <= i < |ds|
      ensures ds[i] == Joins
    {
      assert DecidedAt(keys, values, rule, ds, i);
      ElementWithin(values, i);
      SumWithin(values, Open(ds, i), i);
    }
    NothingButJoins(ds, |values|);
  }

  lemma {:induction false} NothingButJoins(ds: seq<Decision>, i: nat)
    requires i <= |ds| && forall k :: 0 <= k < |ds| ==> ds[k] == Joins
    ensures Starts(ds, i) == [0]
  {
    if i > 0 {
      NothingButJoins(ds, i - 1);
    }
  }

  /** Greedy bucketing makes at most the estimated rows, one more for each full width, and one more for
      each change of class. */
  lemma {:induction false} CutsBound(keys: seq<Key>, values: seq<nat>, rule: Rule)
    requires 1 <= |values| < |keys| && rule.ratio >= 1 && Classifies(rule.cross)
    ensures |Cuts(keys, values, rule)| - 1
         <= FocusRows(keys, values, rule.threshold) + (|values| - 1) / rule.ratio + Changes(keys, rule.cross, |values|)
  {
    hide Run, Starts, Count, Open, Changes, Decide, Follows, Increasing;
    var n := |values|;
    var gs, fs := Run(keys, values, HeatRule(rule.threshold, n), n), Run(keys, values, rule, n);
    RunFollows(keys, values, HeatRule(rule.threshold, n), n);
    RunFollows(keys, values, rule, n);
    assert Count(fs, HotCut, n) < |Starts(gs, n)| by {
      HeatRunIsAhead(keys, values, HeatRule(rule.threshold, n), gs, rule, fs);
      AheadHasMoreHeatCuts(gs, fs, n);
      StartsAreCounted(gs, n);
    }
    assert Count(fs, WideCut, n) <= (n - 1) / rule.ratio && Count(fs, BorderCut, n) <= Changes(keys, rule.cross, n) by {
      RunReasons(keys, values, rule, fs);
      WideCutsAreFew(fs, rule.ratio, n);
      AtMostQuotient(Count(fs, WideCut, n), rule.ratio, n - 1);
      BorderCutsAreChanges(keys, rule.cross, fs, n);
    }
    StartsAreCounted(fs, n);
  }

  lemma AtMostQuotient(k: nat, d: nat, n: nat)
    requires d > 0 && Times(k, d) <= n
    ensures k <= n / d
  {
    TimesIsProduct(k, d);
    if k > n / d {
      QuotientBelow(n, d, k);
      assert false;
    }
  }

  lemma QuotientBelow(n: nat, d: nat, k: nat)
    requires d > 0 && k >= n / d + 1
    ensures n < k * d
  {
    assert (k - (n / d + 1)) * d >= 0;
  }

  // ---------------------------------------------------------------- row by row

  function RunStarts(keys: seq<Key>, values: seq<nat>, rule: Rule, i: nat): (r: seq<nat>)
    requires i <= |values| < |keys|
    ensures r != []
  {
    Starts(Run(keys, values, rule, i), i)
  }

  /** Before row `i`, the open bucket starts at `start` and holds `bucketSum`. */
  ghost predicate AtRow(keys: seq<Key>, values: seq<nat>, rule: Rule, i: nat, start: nat, bucketSum: nat)
    requires i <= |values| < |keys|
  {
    start == Open(Run(keys, values, rule, i), i) && bucketSum == SumRange(values, start, i)
  }

  lemma FirstRow(keys: seq<Key>, values: seq<nat>, rule: Rule)
    requires |values| < |keys|
    ensures AtRow(keys, values, rule, 0, 0, 0) && RunStarts(keys, values, rule, 0) == [0]
  {
  }

  lemma NextRow(keys: seq<Key>, values: seq<nat>, rule: Rule, i: nat, start: nat, bucketSum: nat)
    requires i < |values| < |keys| && AtRow(keys, values, rule, i, start, bucketSum)
    ensures start < i || start == i == 0
    ensures RunStarts(keys, values, rule, i)[|RunStarts(keys, values, rule, i)| - 1] == start
    ensures bucketSum + values[i] <= Sum(values)
    ensures var cut := i > start && (values[i] >= rule.threshold || bucketSum >= rule.threshold
                                     || i - start >= rule.ratio || Crosses(rule.cross, keys[start], keys[i]));
      && RunStarts(keys, values, rule, i + 1) == RunStarts(keys, values, rule, i) + (if cut then [i] else [])
      && AtRow(keys, values, rule, i + 1, if cut then i else start, if cut then values[i] else bucketSum + values[i])
  {
    var ds := Run(keys, values, rule, i);
    var d := Decide(keys, values, rule, start, i);
    assert Run(keys, values, rule, i + 1) == ds + [d];
    PrefixKeepsStarts(ds, d, i);
    RunStep(values, start, i);
    RunStep(values, i, i);
  }

  lemma NextHeatRow(keys: seq<Key>, values: seq<nat>, threshold: nat, i: nat, start: nat, bucketSum: nat)
    requires i < |values| < |keys| && AtRow(keys, values, HeatRule(threshold, |values|), i, start, bucketSum)
    ensures start < i || start == i == 0
    ensures bucketSum + values[i] <= Sum(values)
    ensures var cut := i > start && (values[i] >= threshold || bucketSum >= threshold);
      var rule := HeatRule(threshold, |values|);
      && |RunStarts(keys, values, rule, i + 1)| == |RunStarts(keys, values, rule, i)| + (if cut then 1 else 0)
      && AtRow(keys, values, rule, i + 1, if cut then i else start, if cut then values[i] else bucketSum + values[i])
  {
    var rule := HeatRule(threshold, |values|);
    hide RunStarts, AtRow, Sum;
    NextRow(keys, values, rule, i, start, bucketSum);
  }

  lemma FocusRowsOfRun(keys: seq<Key>, values: seq<nat>, threshold: nat)
    requires 1 <= |values| < |keys|
    ensures FocusRows(keys, values, threshold) == |RunStarts(keys, values, HeatRule(threshold, |values|), |values|)|
  {
  }

  lemma CutsOfRun(keys: seq<Key>, values: seq<nat>, rule: Rule)
    requires 1 <= |values| < |keys|
    ensures Cuts(keys, values, rule) == RunStarts(keys, values, rule, |values|) + [|values|]
  {
  }

  // ---------------------------------------------------------------- collecting keys and sums

  /** The keys and sums collected for the buckets that `cuts` close. */
  ghost predicate Collected(keys: seq<Key>, values: seq<nat>, cuts: seq<nat>, newKeys: seq<Key>, newValues: seq<nat>) {
    && cuts != [] && |newKeys| == |cuts|
    && (forall i :: 0 <= i < |cuts| ==> cuts[i] < |keys| && newKeys[i] == keys[cuts[i]])
    && newValues == Merged(values, cuts)
  }

  lemma Collect(keys: seq<Key>, values: seq<nat>, cuts: seq<nat>, newKeys: seq<Key>, newValues: seq<nat>, x: nat,
                sum: nat)
    requires Collected(keys, values, cuts, newKeys, newValues) && x < |keys|
    requires sum == SumRange(values, cuts[|cuts| - 1], x)
    ensures Collected(keys, values, cuts + [x], newKeys + [keys[x]], newValues + [sum])
  {
    var longer := cuts + [x];
    hide SumRange;
    forall i | 0 <= i < |cuts|
      ensures Merged(values, longer)[i] == (newValues + [sum])[i]
    {
      if i < |cuts| - 1 {
        assert longer[i + 1] == cuts[i + 1];
      }
    }
  }

  /** What the focus loop holds before row `i`: the open bucket, and the keys and sums of the closed ones. */
  ghost predicate Focusing(keys: seq<Key>, values: seq<nat>, rule: Rule, i: nat, start: nat, bucketSum: nat,
                           newKeys: seq<Key>, newValues: seq<nat>)
    requires i <= |values| < |keys|
  {
    && AtRow(keys, values, rule, i, start, bucketSum)
    && Collected(keys, values, RunStarts(keys, values, rule, i), newKeys, newValues)
  }

  lemma FocusingBegins(keys: seq<Key>, values: seq<nat>, rule: Rule)
    requires |values| < |keys|
    ensures Focusing(keys, values, rule, 0, 0, 0, [keys[0]], [])
  {
  }

  lemma AtRowSum(keys: seq<Key>, values: seq<nat>, rule: Rule, i: nat, start: nat, bucketSum: nat)
    requires i <= |values| < |keys| && AtRow(keys, values, rule, i, start, bucketSum)
    ensures bucketSum == SumRange(values, start, i)
  {
  }

  lemma {:induction false} FocusingGoesOn(keys: seq<Key>, values: seq<nat>, rule: Rule, i: nat, start: nat,
                                          bucketSum: nat,
                       newKeys: seq<Key>, newValues: seq<nat>)
    requires i < |values| < |keys| && Focusing(keys, values, rule, i, start, bucketSum, newKeys, newValues)
    ensures start <= i && bucketSum + values[i] <= Sum(values)
    ensures if i > start && (values[i] >= rule.threshold || bucketSum >= rule.threshold
                             || i - start >= rule.ratio || Crosses(rule.cross, keys[start], keys[i]))
            then Focusing(keys, values, rule, i + 1, i, values[i], Push(newKeys, keys[i]), Push(newValues, bucketSum))
            else Focusing(keys, values, rule, i + 1, start, bucketSum + values[i], newKeys, newValues)
  {
    hide RunStarts, AtRow, Sum, SumRange, Collected;
    NextRow(keys, values, rule, i, start, bucketSum);
    AtRowSum(keys, values, rule, i, start, bucketSum);
    Collect(keys, values, RunStarts(keys, values, rule, i), newKeys, newValues, i, bucketSum);
    assert RunStarts(keys, values, rule, i) + [] == RunStarts(keys, values, rule, i);
  }

  lemma FocusingEnds(keys: seq<Key>, values: seq<nat>, rule: Rule, start: nat, bucketSum: nat, newKeys: seq<Key>,
                     newValues: seq<nat>)
    requires 1 <= |values| < |keys| && Focusing(keys, values, rule, |values|, start, bucketSum, newKeys, newValues)
    ensures start < |values|
    ensures Collected(keys, values, Cuts(keys, values, rule), Push(newKeys, keys[|values|]), Push(newValues, bucketSum))
  {
    CutsOfRun(keys, values, rule);
    Collect(keys, values, RunStarts(keys, values, rule, |values|), newKeys, newValues, |values|, bucketSum);
  }
}
