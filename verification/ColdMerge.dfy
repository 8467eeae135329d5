/** Merging cold logical ranges: the cuts chosen, and what each bucket then is. */
module ColdMerge {
  import opened Keys
  import opened Partition
  import opened Greedy
  import opened Seqs

  /** The borders among keys `0..i + 1`: the first key, then every key across a border from the one before. */
  function Borders(keys: seq<Key>, cross: Crossing, i: nat): (r: seq<nat>)
    requires i < |keys|
    ensures |r| >= 1 && r[0] == 0 && r[|r| - 1] <= i
  {
    if i == 0 then [0]
    else Borders(keys, cross, i - 1) + if Crosses(cross, keys[i - 1], keys[i]) then [i] else []
  }

  lemma {:induction false} BordersIncrease(keys: seq<Key>, cross: Crossing, i: nat)
    requires i < |keys|
    ensures Increasing(Borders(keys, cross, i))
  {
    if i > 0 {
      BordersIncrease(keys, cross, i - 1);
      if Crosses(cross, keys[i - 1], keys[i]) {
        ExtendIncreasing(Borders(keys, cross, i - 1), i);
      } else {
        assert Borders(keys, cross, i - 1) + [] == Borders(keys, cross, i - 1);
      }
    }
  }

  /** A key strictly inside a range does not cross the border from the key before it. */
  lemma {:induction false} BordersAreCrossings(keys: seq<Key>, cross: Crossing, i: nat, k: nat)
    requires 0 < k <= i < |keys|
    ensures k in Borders(keys, cross, i) <==> Crosses(cross, keys[k - 1], keys[k])
  {
    hide Borders;
    BordersAtMost(keys, cross, i - 1);
    BordersStep(keys, cross, i, k);
    if k < i {
      BordersAreCrossings(keys, cross, i - 1, k);
    }
  }

  lemma BordersStep(keys: seq<Key>, cross: Crossing, i: nat, k: nat)
    requires 0 < i < |keys|
    ensures k in Borders(keys, cross, i)
      <==> k in Borders(keys, cross, i - 1) || (k == i && Crosses(cross, keys[i - 1], keys[i]))
  {
  }

  lemma {:induction false} BordersAtMost(keys: seq<Key>, cross: Crossing, i: nat)
    requires i < |keys|
    ensures forall k :: k in Borders(keys, cross, i) ==> k <= i
  {
    if i > 0 {
      BordersAtMost(keys, cross, i - 1);
    }
  }

  /** The logical ranges of `n` rows. */
  function Ranges(keys: seq<Key>, cross: Crossing, n: nat): (r: seq<nat>)
    requires 1 <= n < |keys|
    ensures IsPartition(r, n)
  {
    BordersIncrease(keys, cross, n);
    ExtendWhenBelow(Borders(keys, cross, n), n);
    CloseAt(Borders(keys, cross, n), n)
  }

  lemma ExtendWhenBelow(cuts: seq<nat>, n: nat)
    requires cuts != [] && Increasing(cuts)
    ensures Increasing(CloseAt(cuts, n))
  {
    if Last(cuts) < n {
      ExtendIncreasing(cuts, n);
    }
  }

  /** Ends a list of cuts at `n`. */
  function CloseAt(cuts: seq<nat>, n: nat): seq<nat>
    requires cuts != []
  {
    if Last(cuts) < n then cuts + [n] else cuts
  }

  /** The ends of the single rows `from..to`. */
  function RowEnds(from: nat, to: nat): (r: seq<nat>)
    requires from <= to
    ensures |r| == to - from
  {
    if from == to then [] else RowEnds(from, to - 1) + [to]
  }

  predicate IsHot(values: seq<nat>, quarter: nat, from: nat, to: nat) {
    from <= to <= |values| && Sum(values[from..to]) > quarter
  }

  /** The cuts after one more logical range, `from..to`; the open cold run starts at the last cut. */
  function AddRange(values: seq<nat>, quarter: nat, out: seq<nat>, from: nat, to: nat): (r: seq<nat>)
    requires out != [] && from <= to
    ensures r != []
  {
    var start, hot := Last(out), IsHot(values, quarter, from, to);
    var flushed := if start < from && (hot || IsHot(values, quarter, start, from)) then out + [from] else out;
    if hot then flushed + RowEnds(from, to) else flushed
  }

  /** The cuts after the first `j` logical ranges. */
  function AddRanges(values: seq<nat>, quarter: nat, ranges: seq<nat>, j: nat): (r: seq<nat>)
    requires j < |ranges| && Increasing(ranges)
    ensures r != []
  {
    if j == 0 then [ranges[0]]
    else
      assert StepsUp(ranges, j - 1);
      AddRange(values, quarter, AddRanges(values, quarter, ranges, j - 1), ranges[j - 1], ranges[j])
  }

  lemma {:induction false} AddRangesOfPrefix(values: seq<nat>, quarter: nat, ranges: seq<nat>, x: nat, j: nat)
    requires j < |ranges| && Increasing(ranges) && Last(ranges) < x
    ensures Increasing(ranges + [x])
    ensures AddRanges(values, quarter, ranges + [x], j) == AddRanges(values, quarter, ranges, j)
  {
    ExtendIncreasing(ranges, x);
    if j > 0 {
      AddRangesOfPrefix(values, quarter, ranges, x, j - 1);
    }
  }

  /** The final cuts. */
  function MergeCuts(values: seq<nat>, quarter: nat, ranges: seq<nat>): seq<nat>
    requires IsPartition(ranges, |values|)
  {
    CloseAt(AddRanges(values, quarter, ranges, |ranges| - 1), |values|)
  }

  // ---------------------------------------------------------------- what the cuts mean

  /** Row `k` lies in a logical range with more than a quarter of the threshold. */
  ghost predicate HotRow(values: seq<nat>, quarter: nat, ranges: seq<nat>, k: nat) {
    exists j :: 0 <= j < |ranges| - 1 && HotIn(values, quarter, ranges, j, k)
  }

  ghost predicate HotIn(values: seq<nat>, quarter: nat, ranges: seq<nat>, j: nat, k: nat)
    requires j < |ranges| - 1
  {
    ranges[j] <= k < ranges[j + 1] <= |values| && Sum(values[ranges[j]..ranges[j + 1]]) > quarter
  }

  /** All rows of a range are hot, or none is. */
  lemma HotRowOfRange(values: seq<nat>, quarter: nat, ranges: seq<nat>, j: nat, k: nat)
    requires Increasing(ranges) && j < |ranges| - 1 && ranges[j] <= k < ranges[j + 1]
    ensures HotRow(values, quarter, ranges, k) <==> IsHot(values, quarter, ranges[j], ranges[j + 1])
  {
    if IsHot(values, quarter, ranges[j], ranges[j + 1]) {
      assert HotIn(values, quarter, ranges, j, k);
    }
    if HotRow(values, quarter, ranges, k) {
      var m :| 0 <= m < |ranges| - 1 && HotIn(values, quarter, ranges, m, k);
      RangeIsUnique(ranges, j, m, k);
    }
  }

  lemma RangeIsUnique(ranges: seq<nat>, j: nat, m: nat, k: nat)
    requires Increasing(ranges) && j < |ranges| - 1 && m < |ranges| - 1
    requires ranges[j] <= k < ranges[j + 1] && ranges[m] <= k < ranges[m + 1]
    ensures j == m
  {
    if j < m {
      InOrder(ranges, j + 1, m);
    }
    if m < j {
      InOrder(ranges, m + 1, j);
    }
  }

  /** Rows `from..to` are whole cold ranges that stay within the quarter but for the last, and within twice the quarter
      with it. */
  ghost predicate ColdRun(values: seq<nat>, quarter: nat, ranges: seq<nat>, from: nat, to: nat) {
    && from <= to <= |values|
    && from in ranges && to in ranges
    && (forall k :: from <= k < to ==> !HotRow(values, quarter, ranges, k))
    && (forall r :: r in ranges && from < r < to ==> Sum(values[from..r]) <= quarter)
    && Sum(values[from..to]) <= 2 * quarter
  }

  /** A bucket is one hot row, or a cold run. */
  ghost predicate GoodBucket(values: seq<nat>, quarter: nat, ranges: seq<nat>, from: nat, to: nat) {
    || (to == from + 1 && HotRow(values, quarter, ranges, from))
    || (from < to && ColdRun(values, quarter, ranges, from, to))
  }

  /** The bucket could not have taken more: it is a hot row, or already warm enough. */
  ghost predicate Full(values: seq<nat>, quarter: nat, ranges: seq<nat>, from: nat, to: nat) {
    HotRow(values, quarter, ranges, from) || (from <= to <= |values| && Sum(values[from..to]) > quarter)
  }

  /** Buckets `b` and `b + 1` had to be kept apart. */
  ghost predicate Apart(values: seq<nat>, quarter: nat, ranges: seq<nat>, cuts: seq<nat>, b: nat)
    requires b < |cuts| - 1
  {
    Full(values, quarter, ranges, cuts[b], cuts[b + 1]) || HotRow(values, quarter, ranges, cuts[b + 1])
  }

  ghost predicate GoodAt(values: seq<nat>, quarter: nat, ranges: seq<nat>, cuts: seq<nat>, b: nat)
    requires b < |cuts| - 1
  {
    GoodBucket(values, quarter, ranges, cuts[b], cuts[b + 1])
  }

  /** What the cuts promise. */
  ghost predicate MergesColdRanges(values: seq<nat>, quarter: nat, ranges: seq<nat>, cuts: seq<nat>) {
    && cuts != [] && cuts[0] == 0 && Increasing(cuts) && Last(cuts) <= |values|
    && (forall b :: 0 <= b < |cuts| - 1 ==> GoodAt(values, quarter, ranges, cuts, b))
    && (forall b :: 0 <= b < |cuts| - 2 ==> Apart(values, quarter, ranges, cuts, b))
  }

  lemma AppendBucket(values: seq<nat>, quarter: nat, ranges: seq<nat>, cuts: seq<nat>, x: nat)
    requires MergesColdRanges(values, quarter, ranges, cuts)
    requires GoodBucket(values, quarter, ranges, Last(cuts), x) && x <= |values|
    requires |cuts| >= 2 ==> Apart(values, quarter, ranges, cuts, |cuts| - 2)
    ensures MergesColdRanges(values, quarter, ranges, cuts + [x])
  {
    var longer := cuts + [x];
    ExtendIncreasing(cuts, x);
    forall b | 0 <= b < |longer| - 1
      ensures GoodAt(values, quarter, ranges, longer, b)
    {
      assert b < |cuts| - 1 ==> GoodAt(values, quarter, ranges, cuts, b);
    }
    forall b | 0 <= b < |longer| - 2
      ensures Apart(values, quarter, ranges, longer, b)
    {
      assert b < |cuts| - 2 ==> Apart(values, quarter, ranges, cuts, b);
    }
  }

  lemma {:induction false} AppendHotRows(values: seq<nat>, quarter: nat, ranges: seq<nat>, cuts: seq<nat>, to: nat)
    requires MergesColdRanges(values, quarter, ranges, cuts)
    requires Last(cuts) < to <= |values|
    requires forall k :: Last(cuts) <= k < to ==> HotRow(values, quarter, ranges, k)
    ensures var r := cuts + RowEnds(Last(cuts), to);
      MergesColdRanges(values, quarter, ranges, r) && |r| >= 2 && r[|r| - 2] == to - 1 && Last(r) == to
  {
    var from := Last(cuts);
    var before := cuts + RowEnds(from, to - 1);
    if to - 1 == from {
      assert before == cuts;
    } else {
      AppendHotRows(values, quarter, ranges, cuts, to - 1);
    }
    assert Last(before) == to - 1;
    AppendBucket(values, quarter, ranges, before, to);
    assert RowEnds(from, to) == RowEnds(from, to - 1) + [to];
    ConcatAssociates(cuts, RowEnds(from, to - 1), [to]);
  }

  /** The state after some ranges, ending at row `end`: settled buckets, then an open cold run. */
  ghost predicate Merging(values: seq<nat>, quarter: nat, ranges: seq<nat>, out: seq<nat>, end: nat) {
    && MergesColdRanges(values, quarter, ranges, out)
    && (|out| >= 2 ==> Full(values, quarter, ranges, out[|out| - 2], Last(out)))
    && ColdRun(values, quarter, ranges, Last(out), end)
  }

  lemma AddHotRange(values: seq<nat>, quarter: nat, ranges: seq<nat>, out: seq<nat>, from: nat, to: nat)
    requires Merging(values, quarter, ranges, out, from)
    requires from < to <= |values| && to in ranges && IsHot(values, quarter, from, to)
    requires forall k :: from <= k < to ==> HotRow(values, quarter, ranges, k)
    ensures Merging(values, quarter, ranges, AddRange(values, quarter, out, from, to), to)
  {
    assert out != [];
    hide RowEnds, MergesColdRanges, Sum, HotRow;
    EmptyRunIsCold(values, quarter, ranges, to);
    if Last(out) < from {
      AppendBucket(values, quarter, ranges, out, from);
      AppendHotRows(values, quarter, ranges, out + [from], to);
    } else {
      AppendHotRows(values, quarter, ranges, out, to);
    }
  }

  lemma EmptyRunIsCold(values: seq<nat>, quarter: nat, ranges: seq<nat>, to: nat)
    requires to <= |values| && to in ranges
    ensures ColdRun(values, quarter, ranges, to, to)
  {
  }

  lemma AddColdRange(values: seq<nat>, quarter: nat, ranges: seq<nat>, out: seq<nat>, from: nat, to: nat)
    requires Merging(values, quarter, ranges, out, from)
    requires from < to <= |values| && from in ranges && to in ranges && !IsHot(values, quarter, from, to)
    requires forall r :: r in ranges ==> r <= from || to <= r
    requires forall k :: from <= k < to ==> !HotRow(values, quarter, ranges, k)
    ensures Merging(values, quarter, ranges, AddRange(values, quarter, out, from, to), to)
  {
    var start := Last(out);
    if start < from && IsHot(values, quarter, start, from) {
      AppendBucket(values, quarter, ranges, out, from);
    } else {
      SumSplit(values, start, from, to);
    }
  }

  lemma AddRangeKeepsMerging(values: seq<nat>, quarter: nat, ranges: seq<nat>, out: seq<nat>, j: nat)
    requires IsPartition(ranges, |values|) && j < |ranges| - 1
    requires Merging(values, quarter, ranges, out, ranges[j])
    ensures StepsUp(ranges, j)
    ensures Merging(values, quarter, ranges, AddRange(values, quarter, out, ranges[j], ranges[j + 1]), ranges[j + 1])
  {
    var from, to := ranges[j], ranges[j + 1];
    CutsBounded(ranges, |values|);
    assert StepsUp(ranges, j);
    forall k | from <= k < to
      ensures HotRow(values, quarter, ranges, k) <==> IsHot(values, quarter, from, to)
    {
      HotRowOfRange(values, quarter, ranges, j, k);
    }
    forall r | r in ranges
      ensures r <= from || to <= r
    {
      var m :| 0 <= m < |ranges| && ranges[m] == r;
      if m <= j {
        InOrder(ranges, m, j);
      } else {
        InOrder(ranges, j + 1, m);
      }
    }
    if IsHot(values, quarter, from, to) {
      AddHotRange(values, quarter, ranges, out, from, to);
    } else {
      AddColdRange(values, quarter, ranges, out, from, to);
    }
  }

  lemma {:induction false} AddRangesMerge(values: seq<nat>, quarter: nat, ranges: seq<nat>, j: nat)
    requires IsPartition(ranges, |values|) && j < |ranges|
    ensures Merging(values, quarter, ranges, AddRanges(values, quarter, ranges, j), ranges[j])
  {
    if j > 0 {
      AddRangesMerge(values, quarter, ranges, j - 1);
      AddRangeKeepsMerging(values, quarter, ranges, AddRanges(values, quarter, ranges, j - 1), j - 1);
    }
  }

  /** Cold merging splits all rows; hot ranges stay row for row; every other bucket is whole cold ranges
      within twice the quarter; and no two cold buckets that touch could have been one. */
  lemma MergeCutsAreGood(values: seq<nat>, quarter: nat, ranges: seq<nat>)
    requires IsPartition(ranges, |values|)
    ensures var cuts := MergeCuts(values, quarter, ranges);
      IsPartition(cuts, |values|) && MergesColdRanges(values, quarter, ranges, cuts)
  {
    AddRangesMerge(values, quarter, ranges, |ranges| - 1);
    var out := AddRanges(values, quarter, ranges, |ranges| - 1);
    if Last(out) < |values| {
      AppendBucket(values, quarter, ranges, out, |values|);
    }
    CutsBounded(ranges, |values|);
  }

  /** There is one way of merging cold ranges like that. */
  lemma {:induction false} MergeCutsExactly(values: seq<nat>, quarter: nat, ranges: seq<nat>, cuts: seq<nat>)
    requires IsPartition(ranges, |values|) && IsPartition(cuts, |values|)
    ensures cuts == MergeCuts(values, quarter, ranges) <==> MergesColdRanges(values, quarter, ranges, cuts)
  {
    hide MergeCuts;
    MergeCutsAreGood(values, quarter, ranges);
    var good := MergeCuts(values, quarter, ranges);
    if MergesColdRanges(values, quarter, ranges, cuts) {
      hide MergesColdRanges;
      forall m | 0 <= m < |cuts| - 1 && m < |good| - 1
        ensures GoOnAlike(cuts, good, m)
      {
        if cuts[m] == good[m] {
          NoLonger(values, quarter, ranges, cuts, good, m);
          NoLonger(values, quarter, ranges, good, cuts, m);
        }
      }
      SameEnds(cuts, good, |values|);
    }
  }

  /** Of two buckets that begin alike, neither ends before the other. */
  lemma NoLonger(values: seq<nat>, quarter: nat, ranges: seq<nat>, a: seq<nat>, b: seq<nat>, m: nat)
    requires IsPartition(a, |values|) && IsPartition(b, |values|) && m < |a| - 1 && m < |b| - 1 && a[m] == b[m]
    requires MergesColdRanges(values, quarter, ranges, a) && MergesColdRanges(values, quarter, ranges, b)
    ensures a[m + 1] >= b[m + 1]
  {
    hide HotRow, Sum;
    assert GoodAt(values, quarter, ranges, a, m) && GoodAt(values, quarter, ranges, b, m);
    assert m < |a| - 2 ==> Apart(values, quarter, ranges, a, m);
    CutsBounded(b, |values|);
  }

  /** Collecting rows one by one takes their keys and values as they are. */
  lemma {:induction false} CollectRows(keys: seq<Key>, values: seq<nat>, cuts: seq<nat>, newKeys: seq<Key>,
                                       newValues: seq<nat>,
                                       from: nat, to: nat)
    requires Collected(keys, values, cuts, newKeys, newValues) && Last(cuts) == from
    requires from <= to <= |values| < |keys|
    ensures Collected(keys, values, cuts + RowEnds(from, to), newKeys + keys[from + 1..to + 1],
                      newValues + values[from..to])
  {
    if from == to {
      assert cuts + RowEnds(from, to) == cuts && newKeys + keys[from + 1..to + 1] == newKeys
        && newValues + values[from..to] == newValues;
    } else {
      CollectRows(keys, values, cuts, newKeys, newValues, from, to - 1);
      var ends, ks, vs := RowEnds(from, to - 1), keys[from + 1..to], values[from..to - 1];
      RunStep(values, to - 1, to - 1);
      hide Collected, Sum, SumRange;
      assert Last(cuts + ends) == to - 1;
      Collect(keys, values, cuts + ends, newKeys + ks, newValues + vs, to, values[to - 1]);
      ConcatAssociates(cuts, ends, [to]);
      ConcatAssociates(newKeys, ks, [keys[to]]);
      ConcatAssociates(newValues, vs, [values[to - 1]]);
      assert keys[from + 1..to + 1] == ks + [keys[to]] && values[from..to] == vs + [values[to - 1]];
    }
  }

  // ---------------------------------------------------------------- the merge loop's state

  /** What the merge loop holds: the keys and sums emitted, and the open cold run. */
  datatype State = State(newKeys: seq<Key>, newValues: seq<nat>, coldStart: nat, coldEnd: nat, coldRangeSum: nat)

  /** The state says what the ranges so far call for. */
  ghost predicate Sound(keys: seq<Key>, values: seq<nat>, quarter: nat, ranges: seq<nat>, st: State) {
    && |keys| == |values| + 1
    && ranges != [] && ranges[0] == 0 && Increasing(ranges) && Last(ranges) == st.coldEnd <= |values|
    && st.coldStart <= st.coldEnd && st.coldRangeSum == SumRange(values, st.coldStart, st.coldEnd)
    && st.coldStart == Last(AddRanges(values, quarter, ranges, |ranges| - 1))
    && Collected(keys, values, AddRanges(values, quarter, ranges, |ranges| - 1), st.newKeys, st.newValues)
  }

  /** Closing the open run, if it has rows. */
  function Flushed(keys: seq<Key>, st: State): State
    requires st.coldEnd < |keys|
  {
    if st.coldEnd <= st.coldStart then st
    else State(st.newKeys + [keys[st.coldEnd]], st.newValues + [st.coldRangeSum], st.coldEnd, st.coldEnd, 0)
  }

  /** Adding the range that ends at `end`, if it has rows. */
  function Generated(keys: seq<Key>, values: seq<nat>, quarter: nat, st: State, end: nat): State
    requires st.coldEnd <= |values| && end <= |values| < |keys|
  {
    if end <= st.coldEnd then st
    else
      var rangeSum := SumRange(values, st.coldEnd, end);
      var s := if st.coldRangeSum > quarter || rangeSum > quarter then Flushed(keys, st) else st;
      if rangeSum > quarter then
        State(s.newKeys + keys[st.coldEnd + 1..end + 1], s.newValues + values[st.coldEnd..end], end, end,
              s.coldRangeSum)
      else s.(coldEnd := end, coldRangeSum := s.coldRangeSum + rangeSum)
  }

  lemma FirstSound(keys: seq<Key>, values: seq<nat>, quarter: nat)
    requires |keys| == |values| + 1
    ensures Sound(keys, values, quarter, [0], State([keys[0]], [], 0, 0, 0))
  {
  }

  /** One more range adds its cuts to those of the ranges before it. */
  lemma OutAfter(values: seq<nat>, quarter: nat, ranges: seq<nat>, end: nat)
    requires ranges != [] && Increasing(ranges) && Last(ranges) < end <= |values|
    ensures Increasing(ranges + [end])
    ensures AddRanges(values, quarter, ranges + [end], |ranges|)
         == AddRange(values, quarter, AddRanges(values, quarter, ranges, |ranges| - 1), Last(ranges), end)
  {
    AddRangesOfPrefix(values, quarter, ranges, end, |ranges| - 1);
  }

  lemma FlushedCollects(keys: seq<Key>, values: seq<nat>, out: seq<nat>, st: State)
    requires Collected(keys, values, out, st.newKeys, st.newValues) && st.coldEnd < |keys|
    requires st.coldStart == Last(out) <= st.coldEnd && st.coldRangeSum == SumRange(values, st.coldStart, st.coldEnd)
    ensures var s := Flushed(keys, st);
      var flushed := if st.coldStart < st.coldEnd then out + [st.coldEnd] else out;
      && Collected(keys, values, flushed, s.newKeys, s.newValues)
      && Last(flushed) == s.coldStart == s.coldEnd == st.coldEnd && s.coldRangeSum == 0
  {
    EmptyRange(values, st.coldEnd);
    if st.coldStart < st.coldEnd {
      Collect(keys, values, out, st.newKeys, st.newValues, st.coldEnd, st.coldRangeSum);
    }
  }

  lemma {:induction false} GeneratedHot(keys: seq<Key>, values: seq<nat>, quarter: nat, out: seq<nat>, st: State,
                                        end: nat)
    requires Collected(keys, values, out, st.newKeys, st.newValues) && |keys| == |values| + 1
    requires st.coldStart == Last(out) <= st.coldEnd < end <= |values|
    requires st.coldRangeSum == SumRange(values, st.coldStart, st.coldEnd)
    requires SumRange(values, st.coldEnd, end) > quarter
    ensures var s, after := Generated(keys, values, quarter, st, end), AddRange(values, quarter, out, st.coldEnd, end);
      && Collected(keys, values, after, s.newKeys, s.newValues)
      && s.coldStart == Last(after) == end && s.coldEnd == end && s.coldRangeSum == 0
  {
    hide Collected, Sum;
    var from, s := st.coldEnd, Flushed(keys, st);
    var flushed := if st.coldStart < from then out + [from] else out;
    FlushedCollects(keys, values, out, st);
    CollectRows(keys, values, flushed, s.newKeys, s.newValues, from, end);
  }

  lemma {:induction false} GeneratedCold(keys: seq<Key>, values: seq<nat>, quarter: nat, out: seq<nat>, st: State,
                                         end: nat)
    requires Collected(keys, values, out, st.newKeys, st.newValues) && |keys| == |values| + 1
    requires st.coldStart == Last(out) <= st.coldEnd < end <= |values|
    requires st.coldRangeSum == SumRange(values, st.coldStart, st.coldEnd)
    requires SumRange(values, st.coldEnd, end) <= quarter
    ensures var s, after := Generated(keys, values, quarter, st, end), AddRange(values, quarter, out, st.coldEnd, end);
      && Collected(keys, values, after, s.newKeys, s.newValues)
      && s.coldStart == Last(after) <= s.coldEnd == end && s.coldRangeSum == SumRange(values, s.coldStart, end)
  {
    assert IsHot(values, quarter, st.coldEnd, end) <==> SumRange(values, st.coldEnd, end) > quarter;
    assert IsHot(values, quarter, st.coldStart, st.coldEnd) <==> SumRange(values, st.coldStart, st.coldEnd) > quarter;
    hide Collected, Sum, SumRange, IsHot;
    EmptyRange(values, st.coldEnd);
    SumRangeSplit(values, st.coldStart, st.coldEnd, end);
    FlushedCollects(keys, values, out, st);
  }

  /** One more range, added to the output and to the state, keeps the state sound. */
  lemma GeneratedMore(keys: seq<Key>, values: seq<nat>, quarter: nat, ranges: seq<nat>, st: State, end: nat)
    requires Sound(keys, values, quarter, ranges, st) && Last(ranges) < end <= |values|
    ensures Sound(keys, values, quarter, ranges + [end], Generated(keys, values, quarter, st, end))
  {
    hide Generated, AddRange, AddRanges, Collected, Sum, SumRange, Increasing;
    var out, s := AddRanges(values, quarter, ranges, |ranges| - 1), Generated(keys, values, quarter, st, end);
    assert (ranges + [end])[0] == 0 && Last(ranges + [end]) == end && |ranges + [end]| - 1 == |ranges|;
    OutAfter(values, quarter, ranges, end);
    EmptyRange(values, end);
    if SumRange(values, st.coldEnd, end) > quarter {
      GeneratedHot(keys, values, quarter, out, st, end);
    } else {
      GeneratedCold(keys, values, quarter, out, st, end);
    }
  }

  /** The state stays sound. */
  lemma GeneratedIsSound(keys: seq<Key>, values: seq<nat>, quarter: nat, ranges: seq<nat>, st: State, end: nat)
    requires Sound(keys, values, quarter, ranges, st) && end <= |values|
    ensures var s := Generated(keys, values, quarter, st, end);
      Sound(keys, values, quarter, if end <= Last(ranges) then ranges else ranges + [end], s)
    ensures st.coldStart <= st.coldEnd == Last(ranges) <= |values| < |keys|
    ensures st.coldRangeSum == SumRange(values, st.coldStart, st.coldEnd)
  {
    hide AddRange, AddRanges, Collected, Sum, SumRange, Increasing;
    if st.coldEnd < end {
      GeneratedMore(keys, values, quarter, ranges, st, end);
    }
  }

  /** Once all ranges are in, flushing leaves the final cuts collected. */
  lemma FlushedAtEnd(keys: seq<Key>, values: seq<nat>, quarter: nat, ranges: seq<nat>, st: State)
    requires Sound(keys, values, quarter, ranges, st) && st.coldEnd == |values| && IsPartition(ranges, |values|)
    ensures var s := Flushed(keys, st);
      Collected(keys, values, MergeCuts(values, quarter, ranges), s.newKeys, s.newValues)
  {
    hide AddRanges, Collected, Sum, SumRange;
    FlushedCollects(keys, values, AddRanges(values, quarter, ranges, |ranges| - 1), st);
  }
}
