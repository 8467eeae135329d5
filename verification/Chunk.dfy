/** One column of consecutive buckets (matrix/axis.go). */
module Chunks {
  import opened Wrappers
  import opened Ints
  import opened Seqs
  import opened Keys
  import opened Partition
  import opened Greedy
  import opened ColdMerge
  import opened FocusPlan

  /** Keys of an axis and their coarsening have the same ends and are no longer: what the code checks. */
  predicate CheckReduceOf(src: seq<Key>, part: seq<Key>)
    requires src != [] && part != []
  {
    src[0] == part[0] && Seqs.Last(src) == Seqs.Last(part) && |src| >= |part|
  }

  lemma CoarserPassesCheck(coarse: seq<Key>, keys: seq<Key>, cuts: seq<nat>)
    requires Coarsens(coarse, keys, cuts)
    ensures CheckReduceOf(keys, coarse)
    ensures coarse[0] == keys[0] && coarse[|coarse| - 1] == keys[|keys| - 1] && |coarse| <= |keys|
  {
    CutsBounded(cuts, |keys| - 1);
  }

  /** Closes the open cold run, if it has rows. */
  method MergeColdRange(keys: seq<Key>, st: State) returns (s: State)
    requires st.coldEnd < |keys|
    ensures s == Flushed(keys, st)
  {
    if st.coldEnd <= st.coldStart {
      return st;
    }
    s := st.(newKeys := st.newKeys + [keys[st.coldEnd]],
             newValues := st.newValues + [st.coldRangeSum],
             coldStart := st.coldEnd,
             coldRangeSum := 0);
  }

  /** Adds the logical range that ends at `end`, if it has rows. */
  method GenerateRange(keys: seq<Key>, values: seq<nat>, threshold: uint64, st: State, end: nat) returns (s: State)
    requires st.coldEnd <= |values| && end <= |values| == |keys| - 1 && Sum(values) < TWO_TO_THE_64
    requires st.coldStart <= st.coldEnd && st.coldRangeSum == SumRange(values, st.coldStart, st.coldEnd)
    ensures s == Generated(keys, values, threshold, st, end)
  {
    if end <= st.coldEnd {
      return st;
    }
    var rangeSum: uint64 := 0;
    EmptyRange(values, st.coldEnd);
    hide Sum, SumRange;
    for i := st.coldEnd to end
      invariant rangeSum == SumRange(values, st.coldEnd, i) <= Sum(values)
    {
      RunStep(values, st.coldEnd, i);
      rangeSum := rangeSum + values[i];
    }
    s := st;
    if st.coldRangeSum > threshold || rangeSum > threshold {
      s := MergeColdRange(keys, s);
    }
    if rangeSum > threshold {
      s := s.(newKeys := s.newKeys + keys[st.coldEnd + 1..end + 1],
              newValues := s.newValues + values[st.coldEnd..end],
              coldStart := end);
    } else {
      SumRangeSplit(values, st.coldStart, st.coldEnd, end);
      EmptyRange(values, st.coldEnd);
      RangeWithin(values, st.coldStart, end);
      var coldRangeSum: uint64 := s.coldRangeSum + rangeSum;
      s := s.(coldRangeSum := coldRangeSum);
    }
    s := s.(coldEnd := end);
  }

  method MergeColdRows(keys: seq<Key>, values: seq<nat>, cross: Crossing, threshold: uint64)
    returns (newKeys: seq<Key>, newValues: seq<nat>)
    requires 1 <= |values| == |keys| - 1 && Sum(values) < TWO_TO_THE_64
    ensures var cuts := ColdCuts(keys, values, cross, threshold);
      newKeys == PickKeys(keys, cuts) && newValues == Merged(values, cuts)
  {
    var quarter := threshold / 4;
    var st := State([keys[0]], [], 0, 0, 0);
    FirstSound(keys, values, quarter);
    assert MergingRows(keys, values, cross, quarter, 0, st);
    hide MergingRows, Generated, Flushed, ColdCuts, PickKeys, Merged, Sum, SumRange;
    for i := 0 to |values|
      invariant MergingRows(keys, values, cross, quarter, i, st)
    {
      MergingGoesOn(keys, values, cross, quarter, i, st);
      if Crosses(cross, keys[i], keys[i + 1]) {
        st := GenerateRange(keys, values, quarter, st, i + 1);
      }
    }
    MergingEnds(keys, values, cross, threshold, st);
    st := GenerateRange(keys, values, quarter, st, |values|);
    st := MergeColdRange(keys, st);
    newKeys, newValues := st.newKeys, st.newValues;
  }

  /** The state of the merge loop before row `i`. */
  ghost predicate MergingRows(keys: seq<Key>, values: seq<nat>, cross: Crossing, quarter: nat, i: nat, st: State) {
    i < |keys| && Sound(keys, values, quarter, Borders(keys, cross, i), st)
  }

  lemma {:induction false} MergingGoesOn(keys: seq<Key>, values: seq<nat>, cross: Crossing, quarter: nat, i: nat,
                                         st: State)
    requires |keys| == |values| + 1 && i < |values| && MergingRows(keys, values, cross, quarter, i, st)
    ensures st.coldStart <= st.coldEnd <= |values| && st.coldRangeSum == SumRange(values, st.coldStart, st.coldEnd)
    ensures var crosses := Crosses(cross, keys[i], keys[i + 1]);
      var next := if crosses then Generated(keys, values, quarter, st, i + 1) else st;
      MergingRows(keys, values, cross, quarter, i + 1, next)
  {
    hide Sound, Generated, SumRange;
    var borders := Borders(keys, cross, i);
    assert borders + [] == borders;
    GeneratedIsSound(keys, values, quarter, borders, st, i + 1);
  }

  /** With the last range in and flushed, the keys and sums are those of the final cuts. */
  lemma {:induction false} MergingEnds(keys: seq<Key>, values: seq<nat>, cross: Crossing, threshold: nat, st: State)
    requires 1 <= |values| == |keys| - 1 && MergingRows(keys, values, cross, threshold / 4, |values|, st)
    ensures st.coldStart <= st.coldEnd <= |values| && st.coldRangeSum == SumRange(values, st.coldStart, st.coldEnd)
    ensures var last := Generated(keys, values, threshold / 4, st, |values|);
      last.coldEnd == |values| &&
      var cuts, s := ColdCuts(keys, values, cross, threshold), Flushed(keys, last);
      s.newKeys == PickKeys(keys, cuts) && s.newValues == Merged(values, cuts)
  {
    var last := Generated(keys, values, threshold / 4, st, |values|);
    GeneratedIsSound(keys, values, threshold / 4, Borders(keys, cross, |values|), st, |values|);
    FlushedAtEnd(keys, values, threshold / 4, Ranges(keys, cross, |values|), last);
    var s := Flushed(keys, last);
    CollectedAll(keys, values, ColdCuts(keys, values, cross, threshold), s.newKeys, s.newValues);
  }

  /** The general case of reducing: each row goes to the bucket its key has reached. */
  method SumBetween(keys: seq<Key>, values: seq<nat>, newKeys: seq<Key>, ghost cuts: seq<nat>)
    returns (newValues: seq<nat>)
    requires |values| == |keys| - 1 && IsAxis(keys) && Coarsens(newKeys, keys, cuts) && Sum(values) < TWO_TO_THE_64
    ensures newValues == Merged(values, cuts)
  {
    newValues := seq(|newKeys| - 1, _ => 0);
    var endKeys, j := newKeys[1..], 0;
    CutAhead(newKeys, keys, cuts, 0);
    EmptyRange(values, 0);
    hide IsAxis, Coarsens, Sum, SumRange, Merged, IsPartition;
    for i := 0 to |values|
      invariant |newValues| == |endKeys| && 0 <= j < |newValues| && InBucket(cuts, j, i)
      invariant SumsSoFar(values, cuts, newValues, j)
      invariant newValues[j] == SumRange(values, cuts[j], i)
      invariant forall b :: j < b < |newValues| ==> newValues[b] == 0
    {
      ReachesCut(newKeys, keys, cuts, values, i, j);
      if i > 0 && keys[i] == endKeys[j] {
        j := j + 1;
        ReachesCut(newKeys, keys, cuts, values, i, j);
      }
      var sum: uint64 := newValues[j] + values[i];
      newValues := newValues[j := sum];
    }
    LastBucket(newKeys, keys, cuts, values, newValues, j);
  }

  /** The sums of the buckets before `j` are final. */
  ghost predicate SumsSoFar(values: seq<nat>, cuts: seq<nat>, newValues: seq<nat>, j: nat) {
    j <= |newValues| == |cuts| - 1 && forall b :: 0 <= b < j ==> newValues[b] == Merged(values, cuts)[b]
  }

  /** Row `i` is next for bucket `j`: past its start, unless it is the first row, and at most at its end. */
  ghost predicate InBucket(cuts: seq<nat>, j: nat, i: nat) {
    && j + 1 < |cuts|
    && cuts[j] <= i <= cuts[j + 1] && (i == cuts[j] ==> i == 0)
  }

  method CountFocusRows(keys: seq<Key>, values: seq<nat>, threshold: uint64) returns (count: nat)
    requires 1 <= |values| < |keys| && Sum(values) < TWO_TO_THE_64
    ensures count == FocusRows(keys, values, threshold)
  {
    hide FocusRows, AtRow, RunStarts, Sum;
    ghost var rule := HeatRule(threshold, |values|);
    count := 0;
    var start: nat, bucketSum: uint64 := 0, 0;
    FirstRow(keys, values, rule);
    FocusRowsOfRun(keys, values, threshold);
    for i := 0 to |values|
      invariant start < i || start == i == 0
      invariant AtRow(keys, values, rule, i, start, bucketSum)
      invariant count == |RunStarts(keys, values, rule, i)| - 1
    {
      NextHeatRow(keys, values, threshold, i, start, bucketSum);
      var value := values[i];
      if value >= threshold || bucketSum >= threshold {
        if i > start {
          count := count + 1;
          start := i;
          bucketSum := 0;
        }
      }
      bucketSum := bucketSum + value;
    }
    if |values| > start {
      count := count + 1;
    }
  }

  method FocusRowByRow(keys: seq<Key>, values: seq<nat>, cross: Crossing, threshold: uint64, ratio: int)
    returns (newKeys: seq<Key>, newValues: seq<nat>)
    requires 1 <= |values| == |keys| - 1 && Sum(values) < TWO_TO_THE_64
    ensures var cuts := Cuts(keys, values, Rule(threshold, ratio, cross));
      newKeys == PickKeys(keys, cuts) && newValues == Merged(values, cuts)
  {
    hide Focusing, Cuts, Collected, PickKeys, Merged, Sum;
    ghost var rule := Rule(threshold, ratio, cross);
    newKeys, newValues := [keys[0]], [];
    var start: nat, bucketSum: uint64 := 0, 0;
    FocusingBegins(keys, values, rule);
    for i := 0 to |values|
      invariant Focusing(keys, values, rule, i, start, bucketSum, newKeys, newValues)
    {
      FocusingGoesOn(keys, values, rule, i, start, bucketSum, newKeys, newValues);
      var value := values[i];
      if value >= threshold || bucketSum >= threshold || i - start >= ratio || Crosses(cross, keys[start], keys[i]) {
        if i > start {
          newKeys := Push(newKeys, keys[i]);
          newValues := Push(newValues, bucketSum);
          start := i;
          bucketSum := 0;
        }
      }
      bucketSum := bucketSum + value;
    }
    FocusingEnds(keys, values, rule, start, bucketSum, newKeys, newValues);
    if |values| > start {
      newKeys := Push(newKeys, keys[|values|]);
      newValues := Push(newValues, bucketSum);
    }
    CollectedAll(keys, values, Cuts(keys, values, rule), newKeys, newValues);
  }

  /** The first upper threshold of the search. */
  method OneAboveTotal(values: seq<nat>) returns (upperThreshold: uint64)
    requires Sum(values) < TWO_TO_THE_63
    ensures upperThreshold == 1 + Sum(values)
  {
    upperThreshold := 1;
    EmptyRange(values, 0);
    WholeRange(values);
    for i := 0 to |values|
      invariant upperThreshold == 1 + SumRange(values, 0, i)
    {
      RunStep(values, 0, i);
      upperThreshold := upperThreshold + values[i];
    }
  }

  lemma ThresholdsFit(total: nat, lower: nat, upper: nat)
    requires total < TWO_TO_THE_63 && lower < upper <= total + 1
    ensures lower + upper < 0x1_0000_0000_0000_0000 && total < TWO_TO_THE_64
  {
  }

  /** Binary search for the least threshold that gives few enough rows. */
  method SearchThreshold(keys: seq<Key>, values: seq<nat>, target: int) returns (threshold: uint64)
    requires 1 <= |values| < |keys| && Sum(values) < TWO_TO_THE_63
    ensures threshold == LeastThreshold(keys, values, target)
  {
    hide *;
    ghost var total, least := Sum(values), LeastThreshold(keys, values, target);
    var upperThreshold: uint64 := OneAboveTotal(values);
    var lowerThreshold: uint64 := 1;
    var targetFocusRows := TargetFocusRows(target);
    LeastFromOne(keys, values, target);
    while lowerThreshold < upperThreshold
      invariant 1 <= lowerThreshold <= upperThreshold <= total + 1
      invariant least == LeastFrom(keys, values, targetFocusRows, total, lowerThreshold)
      invariant upperThreshold <= total ==> FocusRows(keys, values, upperThreshold) <= targetFocusRows
    {
      ThresholdsFit(total, lowerThreshold, upperThreshold);
      var sum: uint64 := lowerThreshold + upperThreshold;
      var mid := sum / 2;
      var focusRows := CountFocusRows(keys, values, mid);
      if focusRows > targetFocusRows {
        SkipTooManyRows(keys, values, targetFocusRows, total, lowerThreshold, mid + 1);
        lowerThreshold := mid + 1;
      } else {
        upperThreshold := mid;
      }
    }
    LeastHere(keys, values, targetFocusRows, total, lowerThreshold);
    threshold := lowerThreshold;
  }

  class Chunk {
    var keys: seq<Key>
    var values: array<nat>

    ghost predicate Valid()
      reads this
    {
      |keys| >= 2 && |keys| == values.Length + 1
    }

    constructor (keys: seq<Key>, values: array<nat>)
      requires |keys| >= 2 && |keys| == values.Length + 1
      ensures Valid() && this.keys == keys && this.values == values
    {
      this.keys, this.values := keys, values;
    }

    /** A chunk from lists built by appending. */
    constructor Of(keys: seq<Key>, column: seq<nat>)
      requires |keys| >= 2 && |keys| == |column| + 1
      ensures Valid() && this.keys == keys && fresh(this.values) && this.values[..] == column
    {
      this.keys, this.values := keys, new nat[|column|](i requires 0 <= i < |column| => column[i]);
    }

    constructor Zero(keys: seq<Key>)
      requires |keys| >= 2
      ensures Valid() && this.keys == keys && fresh(this.values)
      ensures forall i :: 0 <= i < this.values.Length ==> this.values[i] == 0
    {
      this.keys, this.values := keys, new nat[|keys| - 1](_ => 0);
    }

    method SetValues(newValues: array<nat>)
      requires |keys| >= 2 && newValues.Length + 1 == |keys|
      modifies this`values
      ensures Valid() && values == newValues
    {
      values := newValues;
    }

    /** The old column is left as it was; the chunk gets a new one. */
    method SetZeroValues()
      requires Valid()
      modifies this`values
      ensures Valid() && fresh(values)
      ensures forall i :: 0 <= i < values.Length ==> values[i] == 0
    {
      var newValues := new nat[values.Length](_ => 0);
      SetValues(newValues);
    }

    /** The column itself is overwritten. */
    method Clear()
      requires Valid()
      modifies values
      ensures forall i :: 0 <= i < values.Length ==> values[i] == 0
    {
      Memset(values, 0);
    }

    /** Sums the rows between the coarser keys. */
    method Reduce(newKeys: seq<Key>, ghost cuts: seq<nat>) returns (r: Chunk)
      requires Valid() && IsAxis(keys) && Coarsens(newKeys, keys, cuts)
      requires Sum(values[..]) < TWO_TO_THE_64
      ensures fresh(r) && fresh(r.values) && r.Valid()
      ensures r.keys == newKeys && r.values[..] == Merged(values[..], cuts)
    {
      CoarserPassesCheck(newKeys, keys, cuts);
      if |keys| == |newKeys| {
        MergedAtEveryRow(values[..], cuts);
        r := new Chunk.Of(newKeys, values[..]);
      } else {
        var newValues := SumBetween(keys, values[..], newKeys, cuts);
        r := new Chunk.Of(newKeys, newValues);
      }
    }

    /** The number of rows a focus by heat alone would make. */
    method GetFocusRows(threshold: uint64) returns (count: nat)
      requires Valid() && Sum(values[..]) < TWO_TO_THE_64
      ensures count == FocusRows(keys, values[..], threshold)
    {
      count := CountFocusRows(keys, values[..], threshold);
    }

    /** Merges rows greedily and, where that leaves too many, merges cold ranges of them. A negative target is a
        negative capacity. */
    method Focus(cross: Crossing, threshold: uint64, ratio: int, target: int, mode: FocusMode)
      returns (r: Result<Chunk, Panic>)
      requires Valid() && Sum(values[..]) < TWO_TO_THE_64
      ensures target < 0 ==> r == Err(NegativeCapacity)
      ensures target >= 0 ==> r.Ok? && r.value.Valid() && fresh(r.value) && fresh(r.value.values)
      ensures target >= 0 ==>
        var cuts := FocusCuts(keys, values[..], Rule(threshold, ratio, cross), target, mode);
        r.value.keys == PickKeys(keys, cuts) && r.value.values[..] == Merged(values[..], cuts)
    {
      if target < 0 {
        return Err(NegativeCapacity);
      }
      var newKeys, newValues := FocusRowByRow(keys, values[..], cross, threshold, ratio);
      ghost var column: seq<nat> := values[..];
      ghost var base := Cuts(keys, column, Rule(threshold, ratio, cross));
      var newChunk := new Chunk.Of(newKeys, newValues);
      if mode == FocusMode.MergeColdLogicalRange && |newValues| >= target {
        MergedKeepsTotal(column, base);
        ghost var outer := ColdCuts(newKeys, newValues, cross, threshold);
        newChunk := newChunk.MergeColdLogicalRange(cross, threshold);
        PickComposes(keys, column, base, outer);
      }
      r := Ok(newChunk);
    }

    method MergeColdLogicalRange(cross: Crossing, threshold: uint64) returns (r: Chunk)
      requires Valid() && Sum(values[..]) < TWO_TO_THE_64
      ensures r.Valid() && fresh(r) && fresh(r.values)
      ensures var cuts := ColdCuts(keys, values[..], cross, threshold);
        r.keys == PickKeys(keys, cuts) && r.values[..] == Merged(values[..], cuts)
    {
      var newKeys, newValues := MergeColdRows(keys, values[..], cross, threshold);
      r := new Chunk.Of(newKeys, newValues);
    }

    /** Searches the least threshold that gives few enough rows, then focuses with it. */
    method Divide(cross: Crossing, target: int, mode: FocusMode) returns (r: Result<Chunk, Panic>)
      requires Valid() && Sum(values[..]) < TWO_TO_THE_63
      ensures target >= values.Length ==> r.Ok? && r.value.keys == keys && r.value.values == values
      ensures r.Ok? ==> r.value.Valid() && fresh(r.value)
      ensures target < values.Length ==>
        match DivideRule(keys, values[..], cross, target)
        case Err(e) => r == Err(e)
        case Ok(rule) =>
          (var cuts := FocusCuts(keys, values[..], rule, target, mode);
           r.Ok? && fresh(r.value.values) && r.value.keys == PickKeys(keys, cuts)
           && r.value.values[..] == Merged(values[..], cuts))
    {
      if target >= values.Length {
        var same := new Chunk(keys, values);
        return Ok(same);
      }
      hide FocusRows, Sum, FocusCuts, PickKeys, Merged, LeastThreshold;
      var threshold := SearchThreshold(keys, values[..], target);
      var focusRows := GetFocusRows(threshold);
      if target - focusRows == 0 {
        return Err(DivideByZero);
      }
      var ratio := Quotient(values.Length, target - focusRows) + 1;
      assert DivideRule(keys, values[..], cross, target)
        == if target < 0 then Err(NegativeCapacity) else Ok(Rule(threshold, ratio, cross));
      r := Focus(cross, threshold, ratio, target, mode);
    }
  }

  lemma LeastFromOne(keys: seq<Key>, values: seq<nat>, target: int)
    requires |values| < |keys|
    ensures LeastThreshold(keys, values, target) == LeastFrom(keys, values, TargetFocusRows(target), Sum(values), 1)
  {
  }

  lemma LeastHere(keys: seq<Key>, values: seq<nat>, limit: int, top: nat, t: nat)
    requires |values| < |keys| && (t > top || FocusRows(keys, values, t) <= limit)
    ensures LeastFrom(keys, values, limit, top, t) == t
  {
    hide FocusRows;
  }

  lemma WholeRange(values: seq<nat>)
    ensures SumRange(values, 0, |values|) == Sum(values)
  {
    assert values[0..|values|] == values;
  }

  /** While the row estimate is too high just before `next`, no threshold before `next` is the least. */
  lemma {:induction false} SkipTooManyRows(keys: seq<Key>, values: seq<nat>, limit: int, top: nat, from: nat, next: nat)
    requires |values| < |keys| && from < next <= top + 1 && FocusRows(keys, values, next - 1) > limit
    ensures LeastFrom(keys, values, limit, top, from) == LeastFrom(keys, values, limit, top, next)
    decreases next - from
  {
    hide FocusRows, Sum;
    FocusRowsAntitone(keys, values, from, next - 1);
    if from + 1 < next {
      SkipTooManyRows(keys, values, limit, top, from + 1, next);
    }
  }

  lemma CollectedAll(keys: seq<Key>, values: seq<nat>, cuts: seq<nat>, newKeys: seq<Key>, newValues: seq<nat>)
    requires |keys| >= 2 && IsPartition(cuts, |keys| - 1) && Collected(keys, values, cuts, newKeys, newValues)
    ensures newKeys == PickKeys(keys, cuts) && newValues == Merged(values, cuts)
  {
  }

  /** Picking keys and merging rows twice is doing it once. */
  lemma PickComposes(keys: seq<Key>, values: seq<nat>, inner: seq<nat>, outer: seq<nat>)
    requires |keys| >= 2 && |values| == |keys| - 1 && IsPartition(inner, |values|) && IsPartition(outer, |inner| - 1)
    ensures var cuts := PickCuts(inner, outer, |values|);
      && PickKeys(PickKeys(keys, inner), outer) == PickKeys(keys, cuts)
      && Merged(Merged(values, inner), outer) == Merged(values, cuts)
  {
    MergedComposes(values, outer, inner, PickCuts(inner, outer, |values|));
  }

  /** Row `i` starts the bucket after `j` exactly when its key is the end key of bucket `j`. */
  lemma {:induction false} ReachesCut(coarse: seq<Key>, keys: seq<Key>, cuts: seq<nat>, values: seq<nat>, i: nat,
                                      j: nat)
    requires IsAxis(keys) && Coarsens(coarse, keys, cuts) && |values| == |keys| - 1 && i < |values|
    requires j + 1 < |cuts| && cuts[j] <= i <= cuts[j + 1]
    ensures |coarse| == |cuts| && (i > 0 ==> (keys[i] == coarse[j + 1] <==> i == cuts[j + 1]))
    ensures i == cuts[j + 1] ==>
      j + 2 < |cuts| && i < cuts[j + 2] && Merged(values, cuts)[j] == SumRange(values, cuts[j], i)
    ensures i < cuts[j + 1] || i == 0 ==> InBucket(cuts, j, i + 1)
    ensures SumRange(values, i, i) == 0
    ensures SumRange(values, cuts[j], i + 1) == SumRange(values, cuts[j], i) + values[i] <= Sum(values)
  {
    CutAhead(coarse, keys, cuts, j);
    CutAhead(coarse, keys, cuts, j + 1);
    hide Coarsens, IsAxis, SumRange, Sum;
    if i > 0 {
      EqualKeys(keys, i, cuts[j + 1]);
    }
    RunStep(values, cuts[j], i);
  }

  lemma LastBucket(coarse: seq<Key>, keys: seq<Key>, cuts: seq<nat>, values: seq<nat>, newValues: seq<nat>, j: nat)
    requires Coarsens(coarse, keys, cuts) && |values| == |keys| - 1 && InBucket(cuts, j, |values|)
    requires SumsSoFar(values, cuts, newValues, j) && newValues[j] == SumRange(values, cuts[j], |values|)
    ensures newValues == Merged(values, cuts)
  {
    CutAhead(coarse, keys, cuts, j);
  }

  /** Cut `j` and the one after it, unless the rows end at `j`. */
  lemma CutAhead(coarse: seq<Key>, keys: seq<Key>, cuts: seq<nat>, j: nat)
    requires Coarsens(coarse, keys, cuts) && j < |cuts|
    ensures |cuts| == |coarse| >= 2 && |keys| >= 2 && cuts[0] == 0 && cuts[j] <= |keys| - 1
    ensures cuts[j] == |keys| - 1 <==> j == |cuts| - 1
    ensures j < |cuts| - 1 ==> cuts[j] < cuts[j + 1] <= |keys| - 1 && coarse[j + 1] == keys[cuts[j + 1]]
    ensures j < |cuts| - 1 && cuts[j + 1] == |keys| - 1 ==> j == |cuts| - 2
  {
    CutsBounded(cuts, |keys| - 1);
    assert j < |cuts| - 1 ==> StepsUp(cuts, j);
  }

  /** Cutting before every row changes nothing. */
  lemma MergedAtEveryRow(values: seq<nat>, cuts: seq<nat>)
    requires IsPartition(cuts, |values|) && |cuts| == |values| + 1
    ensures Merged(values, cuts) == values
  {
    var m := Merged(values, cuts);
    forall i | 0 <= i < |values|
      ensures m[i] == values[i]
    {
      RowAlone(values, cuts, i);
    }
  }

  lemma RowAlone(values: seq<nat>, cuts: seq<nat>, i: nat)
    requires IsPartition(cuts, |values|) && |cuts| == |values| + 1 && i < |values|
    ensures SumRange(values, cuts[i], cuts[i + 1]) == values[i]
  {
    CutAtIndex(cuts, |values|, i);
    CutAtIndex(cuts, |values|, i + 1);
    RunStep(values, i, i);
  }

  lemma CutAtIndex(cuts: seq<nat>, n: nat, i: nat)
    requires IsPartition(cuts, n) && |cuts| == n + 1 && i <= n
    ensures cuts[i] == i
  {
    InOrder(cuts, 0, i);
    InOrder(cuts, i, |cuts| - 1);
  }
}
