/** How a chunk is focused, and how a threshold is searched for so that few rows result. */
module FocusPlan {
  import opened Wrappers
  import opened Ints
  import opened Keys
  import opened Partition
  import opened Greedy
  import opened ColdMerge

  datatype FocusMode = NotMergeLogicalRange | MergeColdLogicalRange

  datatype Panic = DivideByZero | NegativeCapacity

  /** `coarse` are the keys at the cuts of `keys`. */
  ghost predicate Coarsens(coarse: seq<Key>, keys: seq<Key>, cuts: seq<nat>) {
    && |keys| >= 2 && IsPartition(cuts, |keys| - 1) && |coarse| == |cuts|
    && forall i :: 0 <= i < |cuts| ==> cuts[i] < |keys| && coarse[i] == keys[cuts[i]]
  }

  function PickKeys(keys: seq<Key>, cuts: seq<nat>): (coarse: seq<Key>)
    requires |keys| >= 2 && IsPartition(cuts, |keys| - 1)
    ensures Coarsens(coarse, keys, cuts)
  {
    CutsBounded(cuts, |keys| - 1);
    Pick(keys, cuts)
  }

  /** Coarser keys are the keys of an axis again. */
  lemma CoarseIsAxis(coarse: seq<Key>, keys: seq<Key>, cuts: seq<nat>)
    requires IsAxis(keys) && Coarsens(coarse, keys, cuts)
    ensures IsAxis(coarse)
    ensures forall i :: 0 <= i < |coarse| ==> BoundAt(coarse, i) == BoundAt(keys, cuts[i])
  {
    CutsBounded(cuts, |keys| - 1);
    forall i | 0 <= i < |coarse|
      ensures BoundAt(coarse, i) == BoundAt(keys, cuts[i])
    {
    }
    forall i, j | 0 <= i < j < |coarse|
      ensures BoundLess(BoundAt(coarse, i), BoundAt(coarse, j))
    {
      InOrder(cuts, i, j);
    }
  }

  function PickCuts(inner: seq<nat>, outer: seq<nat>, n: nat): (cuts: seq<nat>)
    requires IsPartition(inner, n) && IsPartition(outer, |inner| - 1)
    ensures IsPartition(cuts, n) && |cuts| == |outer|
    ensures forall i :: 0 <= i < |outer| ==> outer[i] < |inner| && cuts[i] == inner[outer[i]]
  {
    PickIsPartition(n, outer, inner);
    Pick(inner, outer)
  }

  /** The cuts of a focus: greedy buckets, and where they are still too many, cold ranges of them merged. */
  function FocusCuts(keys: seq<Key>, values: seq<nat>, rule: Rule, target: int, mode: FocusMode): (cuts: seq<nat>)
    requires 1 <= |values| == |keys| - 1
    ensures IsPartition(cuts, |values|)
  {
    var base := Cuts(keys, values, rule);
    if mode == MergeColdLogicalRange && |base| - 1 >= target then
      PickCuts(base, ColdCuts(PickKeys(keys, base), Merged(values, base), rule.cross, rule.threshold), |values|)
    else base
  }

  /** The cuts of a cold merge, for a quarter of the threshold. */
  function ColdCuts(keys: seq<Key>, values: seq<nat>, cross: Crossing, threshold: nat): (cuts: seq<nat>)
    requires 1 <= |values| == |keys| - 1
    ensures IsPartition(cuts, |values|)
  {
    var ranges := Ranges(keys, cross, |values|);
    MergeCutsAreGood(values, threshold / 4, ranges);
    MergeCuts(values, threshold / 4, ranges)
  }

  // ---------------------------------------------------------------- what a focus is, row by row

  /** The logical ranges of `n` rows begin at the first row and at every key across a border from the key before. */
  ghost predicate AreRanges(keys: seq<Key>, cross: Crossing, n: nat, ranges: seq<nat>)
    requires n < |keys|
  {
    IsPartition(ranges, n) && forall k :: 0 < k < n ==> (k in ranges <==> cross(keys[k - 1], keys[k]))
  }

  lemma {:induction false} RangesExactly(keys: seq<Key>, cross: Crossing, n: nat, ranges: seq<nat>)
    requires 1 <= n < |keys|
    ensures ranges == Ranges(keys, cross, n) <==> AreRanges(keys, cross, n, ranges)
  {
    hide Borders;
    var own := Ranges(keys, cross, n);
    forall k | 0 < k < n
      ensures k in own <==> cross(keys[k - 1], keys[k])
    {
      BordersAreCrossings(keys, cross, n, k);
    }
    if AreRanges(keys, cross, n, ranges) {
      hide Ranges;
      forall m | 0 <= m < |ranges| - 1 && m < |own| - 1
        ensures GoOnAlike(ranges, own, m)
      {
        NothingBetween(ranges, n, m);
        NothingBetween(own, n, m);
        var x, y := ranges[m + 1], own[m + 1];
        assert x < n ==> (x in own <==> cross(keys[x - 1], keys[x]));
        assert y < n ==> (y in ranges <==> cross(keys[y - 1], keys[y]));
      }
      SameEnds(ranges, own, n);
    }
  }

  lemma NothingBetween(cuts: seq<nat>, n: nat, m: nat)
    requires IsPartition(cuts, n) && m < |cuts| - 1
    ensures forall k :: cuts[m] < k < cuts[m + 1] ==> k !in cuts
    ensures cuts[m] < cuts[m + 1] <= n && cuts[m] in cuts && cuts[m + 1] in cuts
  {
    CutsBounded(cuts, n);
    assert StepsUp(cuts, m);
    forall i | 0 <= i < |cuts|
      ensures cuts[i] <= cuts[m] || cuts[m + 1] <= cuts[i]
    {
      if i <= m {
        InOrder(cuts, i, m);
      } else {
        InOrder(cuts, m + 1, i);
      }
    }
  }

  /** A cold merge, by itself, keeps hot ranges row by row and merges cold ones up to a quarter of the threshold. */
  lemma {:induction false} ColdCutsExactly(keys: seq<Key>, values: seq<nat>, cross: Crossing, threshold: nat,
                                           cuts: seq<nat>)
    requires 1 <= |values| == |keys| - 1
    ensures cuts == ColdCuts(keys, values, cross, threshold)
      <==> IsPartition(cuts, |values|) &&
           exists ranges ::
             AreRanges(keys, cross, |values|, ranges) && MergesColdRanges(values, threshold / 4, ranges, cuts)
  {
    hide Ranges, MergeCuts, MergesColdRanges;
    var own := Ranges(keys, cross, |values|);
    RangesExactly(keys, cross, |values|, own);
    MergeCutsAreGood(values, threshold / 4, own);
    if IsPartition(cuts, |values|) {
      forall ranges | AreRanges(keys, cross, |values|, ranges) && MergesColdRanges(values, threshold / 4, ranges, cuts)
        ensures cuts == ColdCuts(keys, values, cross, threshold)
      {
        RangesExactly(keys, cross, |values|, ranges);
        MergeCutsExactly(values, threshold / 4, ranges, cuts);
      }
    }
  }

  /** `cuts` are the cuts of `base` at the places `outer`, which merge cold ranges of the rows that `base` makes. */
  ghost predicate IsColdFocus(keys: seq<Key>, values: seq<nat>, rule: Rule, base: seq<nat>, ranges: seq<nat>,
                              outer: seq<nat>, cuts: seq<nat>)
    requires |values| == |keys| - 1 && IsPartition(base, |values|) && |keys| >= 2
  {
    && AreRanges(PickKeys(keys, base), rule.cross, |base| - 1, ranges)
    && IsPartition(outer, |base| - 1) && MergesColdRanges(Merged(values, base), rule.threshold / 4, ranges, outer)
    && |cuts| == |outer| && forall i :: 0 <= i < |cuts| ==> outer[i] < |base| && cuts[i] == base[outer[i]]
  }

  /** With `base` the rows before merging: cold ranges of them are merged in the mode that merges, if there are no
      fewer than the target. */
  ghost predicate IsFocusOf(keys: seq<Key>, values: seq<nat>, rule: Rule, target: int, mode: FocusMode,
                            base: seq<nat>, cuts: seq<nat>)
    requires 1 <= |values| == |keys| - 1 && IsPartition(base, |values|)
  {
    if mode.NotMergeLogicalRange? || |base| - 1 < target then cuts == base
    else exists ranges, outer :: IsColdFocus(keys, values, rule, base, ranges, outer, cuts)
  }

  /** The rows before merging are closed exactly at the first row that may not join them. */
  ghost predicate IsFocus(keys: seq<Key>, values: seq<nat>, rule: Rule, target: int, mode: FocusMode, cuts: seq<nat>)
    requires 1 <= |values| == |keys| - 1
  {
    exists base :: AllClosed(keys, values, rule, base) && IsFocusOf(keys, values, rule, target, mode, base, cuts)
  }

  /** A focus has just these cuts. */
  lemma {:induction false} FocusExactly(keys: seq<Key>, values: seq<nat>, rule: Rule, target: int, mode: FocusMode,
                                        cuts: seq<nat>)
    requires 1 <= |values| == |keys| - 1
    ensures cuts == FocusCuts(keys, values, rule, target, mode) <==> IsFocus(keys, values, rule, target, mode, cuts)
  {
    hide Cuts, FocusCuts, IsFocusOf;
    var base := Cuts(keys, values, rule);
    CutsExactly(keys, values, rule, base);
    FocusOfBase(keys, values, rule, target, mode, cuts);
    if IsFocus(keys, values, rule, target, mode, cuts) {
      var other :| AllClosed(keys, values, rule, other) && IsFocusOf(keys, values, rule, target, mode, other, cuts);
      CutsExactly(keys, values, rule, other);
    }
  }

  lemma FocusOfBase(keys: seq<Key>, values: seq<nat>, rule: Rule, target: int, mode: FocusMode, cuts: seq<nat>)
    requires 1 <= |values| == |keys| - 1
    ensures cuts == FocusCuts(keys, values, rule, target, mode)
      <==> IsFocusOf(keys, values, rule, target, mode, Cuts(keys, values, rule), cuts)
  {
    hide Cuts, ColdCuts, IsColdFocus;
    var base := Cuts(keys, values, rule);
    if mode == MergeColdLogicalRange && |base| - 1 >= target {
      ColdFocusIs(keys, values, rule, base);
      if IsFocusOf(keys, values, rule, target, mode, base, cuts) {
        var ranges, outer :| IsColdFocus(keys, values, rule, base, ranges, outer, cuts);
        ColdFocusExactly(keys, values, rule, base, ranges, outer, cuts);
      }
    }
  }

  lemma ColdFocusIs(keys: seq<Key>, values: seq<nat>, rule: Rule, base: seq<nat>)
    requires |values| == |keys| - 1 && IsPartition(base, |values|) && |keys| >= 2
    ensures var coarse, sums := PickKeys(keys, base), Merged(values, base);
      var outer := ColdCuts(coarse, sums, rule.cross, rule.threshold);
      var ranges := Ranges(coarse, rule.cross, |base| - 1);
      IsColdFocus(keys, values, rule, base, ranges, outer, PickCuts(base, outer, |values|))
  {
    hide Ranges, MergeCuts, MergesColdRanges, Merged;
    var coarse, sums := PickKeys(keys, base), Merged(values, base);
    RangesExactly(coarse, rule.cross, |base| - 1, Ranges(coarse, rule.cross, |base| - 1));
    MergeCutsAreGood(sums, rule.threshold / 4, Ranges(coarse, rule.cross, |base| - 1));
  }

  lemma ColdFocusExactly(keys: seq<Key>, values: seq<nat>, rule: Rule, base: seq<nat>, ranges: seq<nat>,
                         outer: seq<nat>, cuts: seq<nat>)
    requires |values| == |keys| - 1 && IsPartition(base, |values|) && |keys| >= 2
    requires IsColdFocus(keys, values, rule, base, ranges, outer, cuts)
    ensures outer == ColdCuts(PickKeys(keys, base), Merged(values, base), rule.cross, rule.threshold)
    ensures cuts == PickCuts(base, outer, |values|)
  {
    hide Ranges, MergeCuts, MergesColdRanges, Merged;
    var coarse, sums := PickKeys(keys, base), Merged(values, base);
    RangesExactly(coarse, rule.cross, |base| - 1, ranges);
    MergeCutsExactly(sums, rule.threshold / 4, ranges, outer);
  }

  // ---------------------------------------------------------------- the threshold

  /** The first threshold from `t` on that gives at most `limit` rows, or the first above `top`. */
  function LeastFrom(keys: seq<Key>, values: seq<nat>, limit: int, top: nat, t: nat): (r: nat)
    requires |values| < |keys|
    ensures t <= r && (t <= top + 1 ==> r <= top + 1)
    decreases top + 1 - t
  {
    if t > top || FocusRows(keys, values, t) <= limit then t else LeastFrom(keys, values, limit, top, t + 1)
  }

  lemma {:induction false} LeastFromIs(keys: seq<Key>, values: seq<nat>, limit: int, top: nat, t: nat)
    requires |values| < |keys|
    ensures var r := LeastFrom(keys, values, limit, top, t);
      && (r <= top ==> FocusRows(keys, values, r) <= limit)
      && (forall u :: t <= u < r ==> FocusRows(keys, values, u) > limit)
    decreases top + 1 - t
  {
    hide FocusRows;
    if t <= top && FocusRows(keys, values, t) > limit {
      LeastFromIs(keys, values, limit, top, t + 1);
    }
  }

  function TargetFocusRows(target: int): int {
    Quotient(target * 2, 3)
  }

  function LeastThreshold(keys: seq<Key>, values: seq<nat>, target: int): nat
    requires |values| < |keys|
  {
    LeastFrom(keys, values, TargetFocusRows(target), Sum(values), 1)
  }

  /** The rule a division settles on, or the panic it ends in. */
  function DivideRule(keys: seq<Key>, values: seq<nat>, cross: Crossing, target: int): Result<Rule, Panic>
    requires 1 <= |values| < |keys|
  {
    var threshold := LeastThreshold(keys, values, target);
    var spare := target - FocusRows(keys, values, threshold);
    if spare == 0 then Err(DivideByZero)
    else if target < 0 then Err(NegativeCapacity)
    else Ok(Rule(threshold, Quotient(|values|, spare) + 1, cross))
  }

  /** The row estimate at the threshold found is within two thirds of any target of at least 2. */
  lemma {:induction false} EstimateFitsTarget(keys: seq<Key>, values: seq<nat>, target: int)
    requires 1 <= |values| < |keys|
    ensures var f := FocusRows(keys, values, LeastThreshold(keys, values, target));
      && f >= 1
      && (target >= 2 ==> f <= TargetFocusRows(target) < target)
      && (target <= 1 ==> LeastThreshold(keys, values, target) == Sum(values) + 1 && f == 1)
  {
    hide FocusRows, Sum;
    LeastFromIs(keys, values, TargetFocusRows(target), Sum(values), 1);
    ColdestIsOneRow(keys, values, Sum(values) + 1);
  }

  /** A division panics for target 1, where it divides by zero, and for negative targets; never else. */
  lemma {:induction false} DividePanicsExactly(keys: seq<Key>, values: seq<nat>, cross: Crossing, target: int)
    requires 1 <= |values| < |keys|
    ensures DivideRule(keys, values, cross, target) == Err(DivideByZero) <==> target == 1
    ensures DivideRule(keys, values, cross, target) == Err(NegativeCapacity) <==> target < 0
    ensures DivideRule(keys, values, cross, target).Ok? <==> target == 0 || target >= 2
  {
    EstimateFitsTarget(keys, values, target);
  }

  /** What a division to `target` settles on: the least threshold whose estimate is within two thirds of the target,
      and a ratio one above the rows per bucket that the estimate leaves to spare. */
  ghost predicate IsDivision(keys: seq<Key>, values: seq<nat>, cross: Crossing, target: int, rule: Rule)
    requires |values| < |keys|
  {
    var estimate := FocusRows(keys, values, rule.threshold);
    && rule.cross == cross && rule.threshold >= 1 && 3 * estimate <= 2 * target
    && (forall u :: 1 <= u < rule.threshold ==> 3 * FocusRows(keys, values, u) > 2 * target)
    && (rule.ratio - 1) * (target - estimate) <= |values| < rule.ratio * (target - estimate)
  }

  /** For a target of at least 2 that rule, and no other, results; for target 0 the threshold is one above the total
      and the ratio negative, unless there is one row. */
  lemma {:induction false} DivideExactly(keys: seq<Key>, values: seq<nat>, cross: Crossing, target: int, rule: Rule)
    requires 1 <= |values| < |keys|
    ensures target >= 2 ==>
      (DivideRule(keys, values, cross, target) == Ok(rule) <==> IsDivision(keys, values, cross, target, rule))
    ensures target == 1 ==> DivideRule(keys, values, cross, target) == Err(DivideByZero)
    ensures target == 0 ==> DivideRule(keys, values, cross, target) == Ok(Rule(Sum(values) + 1, 1 - |values|, cross))
    ensures target < 0 ==> DivideRule(keys, values, cross, target) == Err(NegativeCapacity)
  {
    hide FocusRows, Sum, LeastThreshold, Quotient;
    EstimateFitsTarget(keys, values, target);
    DividePanicsExactly(keys, values, cross, target);
    if target >= 2 {
      LeastThresholdIs(keys, values, target);
      var own := DivideRule(keys, values, cross, target).value;
      var spare := target - FocusRows(keys, values, own.threshold);
      RatioIs(|values|, spare);
      assert IsDivision(keys, values, cross, target, own);
      if IsDivision(keys, values, cross, target, rule) {
        OneLeast(keys, values, target, own.threshold, rule.threshold);
        OneRatio(|values|, spare, own.ratio, rule.ratio);
      }
    } else if target == 0 {
      MinusOnce(|values|);
    }
  }

  /** Every row stays where the target allows all of them; otherwise rows are focused by what the division settles
      on. */
  ghost predicate IsDivided(keys: seq<Key>, values: seq<nat>, cross: Crossing, target: int, mode: FocusMode,
                            cuts: seq<nat>)
    requires 1 <= |values| == |keys| - 1
  {
    if target >= |values| then |cuts| == |values| + 1 && forall i :: 0 <= i < |cuts| ==> cuts[i] == i
    else exists rule :: IsDivision(keys, values, cross, target, rule) && IsFocus(keys, values, rule, target, mode, cuts)
  }

  /** Dividing to a target of at least 2 gives just these cuts. */
  lemma {:induction false} DividedExactly(keys: seq<Key>, values: seq<nat>, cross: Crossing, target: int,
                                          mode: FocusMode, cuts: seq<nat>)
    requires 1 <= |values| == |keys| - 1 && 2 <= target < |values|
    ensures DivideRule(keys, values, cross, target).Ok?
    ensures cuts == FocusCuts(keys, values, DivideRule(keys, values, cross, target).value, target, mode)
      <==> IsDivided(keys, values, cross, target, mode, cuts)
  {
    hide DivideRule, FocusCuts, IsDivision, IsFocus;
    DividePanicsExactly(keys, values, cross, target);
    var own := DivideRule(keys, values, cross, target).value;
    DivideExactly(keys, values, cross, target, own);
    FocusExactly(keys, values, own, target, mode, cuts);
    if IsDivided(keys, values, cross, target, mode, cuts) {
      var rule :| IsDivision(keys, values, cross, target, rule) && IsFocus(keys, values, rule, target, mode, cuts);
      DivideExactly(keys, values, cross, target, rule);
    }
  }

  lemma RatioIs(n: nat, spare: nat)
    requires spare >= 1
    ensures var ratio := Quotient(n, spare) + 1; (ratio - 1) * spare <= n < ratio * spare
  {
    MultipleAbove(n, spare);
    assert n == spare * (n / spare) + n % spare;
  }

  lemma MinusOnce(n: nat)
    ensures Quotient(n, -1) == 0 - n
  {
  }

  lemma LeastThresholdIs(keys: seq<Key>, values: seq<nat>, target: int)
    requires 1 <= |values| < |keys| && target >= 2
    ensures IsLeast(keys, values, target, LeastThreshold(keys, values, target))
  {
    hide FocusRows, Sum;
    LeastFromIs(keys, values, TargetFocusRows(target), Sum(values), 1);
    EstimateFitsTarget(keys, values, target);
  }

  ghost predicate IsLeast(keys: seq<Key>, values: seq<nat>, target: int, t: nat)
    requires |values| < |keys|
  {
    && t >= 1 && 3 * FocusRows(keys, values, t) <= 2 * target
    && forall u :: 1 <= u < t ==> 3 * FocusRows(keys, values, u) > 2 * target
  }

  lemma OneLeast(keys: seq<Key>, values: seq<nat>, target: int, a: nat, b: nat)
    requires |values| < |keys| && IsLeast(keys, values, target, a) && IsLeast(keys, values, target, b)
    ensures a == b
  {
  }

  lemma OneRatio(n: nat, spare: nat, a: int, b: int)
    requires spare >= 1 && (a - 1) * spare <= n < a * spare && (b - 1) * spare <= n < b * spare
    ensures a == b
  {
    if a < b {
      TimesAtMost(a, b - 1, spare);
    } else if b < a {
      TimesAtMost(b, a - 1, spare);
    }
  }

  lemma TimesAtMost(a: int, b: int, n: nat)
    requires a <= b
    ensures a * n <= b * n
  {
    assert (b - a) * n >= 0;
  }

  /** Merging cold ranges never adds rows. */
  lemma {:induction false} FocusRowsAtMost(keys: seq<Key>, values: seq<nat>, rule: Rule, target: int, mode: FocusMode)
    requires 1 <= |values| == |keys| - 1
    ensures |FocusCuts(keys, values, rule, target, mode)| <= |Cuts(keys, values, rule)|
  {
    hide Cuts, ColdCuts;
    var base := Cuts(keys, values, rule);
    if mode == MergeColdLogicalRange && |base| - 1 >= target {
      CutsBounded(ColdCuts(PickKeys(keys, base), Merged(values, base), rule.cross, rule.threshold), |base| - 1);
    }
  }

  /** Dividing to a target of at least 2 gives fewer rows than the target, but for one more row at each
      change of class. */
  lemma {:induction false} DivideMeetsTarget(keys: seq<Key>, values: seq<nat>, cross: Crossing, target: int,
                                             mode: FocusMode)
    requires 1 <= |values| == |keys| - 1 && 2 <= target && Classifies(cross)
    ensures DivideRule(keys, values, cross, target).Ok?
    ensures var cuts := FocusCuts(keys, values, DivideRule(keys, values, cross, target).value, target, mode);
      |cuts| - 1 <= target - 1 + Changes(keys, cross, |values|)
  {
    hide FocusRows, Sum, Cuts, FocusCuts, Changes, LeastThreshold, Quotient;
    EstimateFitsTarget(keys, values, target);
    var rule := DivideRule(keys, values, cross, target).value;
    RatioLeavesRoom(|values|, target - FocusRows(keys, values, rule.threshold));
    CutsBound(keys, values, rule);
    FocusRowsAtMost(keys, values, rule, target, mode);
  }

  lemma RatioLeavesRoom(n: nat, spare: nat)
    requires n >= 1 && spare >= 1
    ensures Quotient(n, spare) + 1 >= 1 && (n - 1) / (Quotient(n, spare) + 1) <= spare - 1
  {
    MultipleAbove(n, spare);
    QuotientAtMost(n - 1, n / spare + 1, spare);
  }

  lemma MultipleAbove(n: nat, d: nat)
    requires d >= 1
    ensures n < d * (n / d + 1)
  {
    assert n == d * (n / d) + n % d;
    assert d * (n / d + 1) == d * (n / d) + d;
  }

  lemma QuotientAtMost(m: nat, d: nat, k: nat)
    requires d >= 1 && m < k * d
    ensures m / d <= k - 1
  {
    if m / d >= k {
      ProductAtMost(m, d, k);
      assert false;
    }
  }

  lemma ProductAtMost(m: nat, d: nat, k: nat)
    requires d >= 1 && m / d >= k
    ensures k * d <= m
  {
    assert (m / d - k) * d >= 0;
  }

  lemma {:induction false} NoChangesForNever(keys: seq<Key>, i: nat)
    requires i <= |keys|
    ensures Changes(keys, Never, i) == 0
  {
    if i > 1 {
      NoChangesForNever(keys, i - 1);
    }
  }

  /** Without borders, the target is always met. */
  lemma {:induction false} DivideWithoutBorders(keys: seq<Key>, values: seq<nat>, target: int, mode: FocusMode)
    requires 1 <= |values| == |keys| - 1 && 2 <= target
    ensures DivideRule(keys, values, Never, target).Ok?
    ensures |FocusCuts(keys, values, DivideRule(keys, values, Never, target).value, target, mode)| - 1 < target
  {
    DivideMeetsTarget(keys, values, Never, target, mode);
    NoChangesForNever(keys, |values|);
  }
}
