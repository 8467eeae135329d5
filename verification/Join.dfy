/** The outer join of two tables whose join columns may repeat (diagnose/compare.go). */
module Join {
  import opened Wrappers
  import opened Seqs
  import opened RowLabels

  datatype TableRowDef = TableRowDef(values: seq<string>, subValues: seq<seq<string>>)

  const EMPTY_ROW := TableRowDef([], [])

  datatype TableDef = TableDef(rows: seq<TableRowDef>, joinColumns: seq<nat>) {
    /** Every row has a value for every join column. */
    ghost predicate Complete() {
      forall i :: 0 <= i < |rows| ==> HasColumns(rows[i].values, joinColumns)
    }
  }

  // ---------------------------------------------------------------- where a label occurs

  /** The places of a label, in order. */
  function Positions(labels: seq<string>, joinLabel: string): seq<nat> {
    if labels == [] then []
    else
      var n := |labels| - 1;
      Positions(labels[..n], joinLabel) + if labels[n] == joinLabel then [n] else []
  }

  ghost predicate PlaceAt(labels: seq<string>, joinLabel: string, ps: seq<nat>, k: nat)
    requires k < |ps|
  {
    ps[k] < |labels| && labels[ps[k]] == joinLabel && (k > 0 ==> ps[k - 1] < ps[k])
  }

  /** The places are those where the label is, each once. */
  lemma {:induction false} PositionsAre(labels: seq<string>, joinLabel: string)
    ensures forall k :: 0 <= k < |Positions(labels, joinLabel)| ==>
      PlaceAt(labels, joinLabel, Positions(labels, joinLabel), k)
    ensures forall i :: 0 <= i < |labels| && labels[i] == joinLabel ==> i in Positions(labels, joinLabel)
  {
    if labels != [] {
      var n := |labels| - 1;
      var ps, before := Positions(labels, joinLabel), Positions(labels[..n], joinLabel);
      PositionsAre(labels[..n], joinLabel);
      forall k | 0 <= k < |ps|
        ensures PlaceAt(labels, joinLabel, ps, k)
      {
        if k < |before| {
          assert PlaceAt(labels[..n], joinLabel, before, k);
        } else if k > 0 {
          assert PlaceAt(labels[..n], joinLabel, before, k - 1);
        }
      }
    }
  }

  lemma {:induction false} PlacesRise(labels: seq<string>, joinLabel: string, ps: seq<nat>, i: nat, j: nat)
    requires (forall k :: 0 <= k < |ps| ==> PlaceAt(labels, joinLabel, ps, k)) && i < j < |ps|
    ensures ps[i] < ps[j]
    decreases j
  {
    assert PlaceAt(labels, joinLabel, ps, j);
    if i < j - 1 {
      PlacesRise(labels, joinLabel, ps, i, j - 1);
    }
  }

  function Count(labels: seq<string>, joinLabel: string): nat {
    |Positions(labels, joinLabel)|
  }

  /** The rows of the second table with this label that outnumber the first table's. */
  function Unmatched(labels1: seq<string>, labels2: seq<string>, joinLabel: string): seq<nat> {
    var ps, c := Positions(labels2, joinLabel), Count(labels1, joinLabel);
    if c <= |ps| then ps[c..] else []
  }

  /** The row that row `i` of the first table is paired with: that of the second table which is as far along
      among the rows with the same label, if there is one. */
  function Partner(labels1: seq<string>, labels2: seq<string>, i: nat): Option<nat>
    requires i < |labels1|
  {
    var ps, k := Positions(labels2, labels1[i]), Count(labels1[..i], labels1[i]);
    if k < |ps| then Some(ps[k]) else None
  }

  // ---------------------------------------------------------------- what the join gives

  lemma {:induction false} CountMonotone(labels: seq<string>, joinLabel: string, i: nat, j: nat)
    requires i <= j <= |labels|
    ensures Count(labels[..i], joinLabel) <= Count(labels[..j], joinLabel)
    ensures i < j && labels[i] == joinLabel ==> Count(labels[..i], joinLabel) < Count(labels[..j], joinLabel)
    decreases j
  {
    if i < j {
      CountMonotone(labels, joinLabel, i, j - 1);
      assert labels[..j][..j - 1] == labels[..j - 1];
      if i == j - 1 {
        assert labels[..j][j - 1] == labels[i];
      }
    }
  }

  /** The occurrence number of a place is how often the label occurs before it. */
  lemma {:induction false} OccurrenceOf(labels: seq<string>, joinLabel: string, k: nat)
    requires k < Count(labels, joinLabel)
    ensures var p := Positions(labels, joinLabel)[k];
      p < |labels| && labels[p] == joinLabel && Count(labels[..p], joinLabel) == k
    decreases |labels|
  {
    var n := |labels| - 1;
    if k < Count(labels[..n], joinLabel) {
      OccurrenceOf(labels[..n], joinLabel, k);
      var p := Positions(labels, joinLabel)[k];
      assert labels[..n][..p] == labels[..p];
    }
  }

  /** A row's partner is the row with its label that has as many rows with that label before it. */
  lemma PartnerExactly(labels1: seq<string>, labels2: seq<string>, i: nat, j: nat)
    requires i < |labels1|
    ensures Partner(labels1, labels2, i) == Some(j)
      <==> j < |labels2| && labels2[j] == labels1[i]
           && Count(labels2[..j], labels1[i]) == Count(labels1[..i], labels1[i])
  {
    var l, k := labels1[i], Count(labels1[..i], labels1[i]);
    if Partner(labels1, labels2, i) == Some(j) {
      OccurrenceOf(labels2, l, k);
    }
    if j < |labels2| && labels2[j] == l && Count(labels2[..j], l) == k {
      PositionsAre(labels2, l);
      var m :| 0 <= m < Count(labels2, l) && Positions(labels2, l)[m] == j;
      OccurrenceOf(labels2, l, m);
    }
  }

  /** A row of the second table is unmatched if no fewer rows of its label come before it than the first table has. */
  lemma UnmatchedExactly(labels1: seq<string>, labels2: seq<string>, joinLabel: string, j: nat)
    ensures j in Unmatched(labels1, labels2, joinLabel)
      <==> j < |labels2| && labels2[j] == joinLabel && Count(labels2[..j], joinLabel) >= Count(labels1, joinLabel)
  {
    var ps, c := Positions(labels2, joinLabel), Count(labels1, joinLabel);
    if j in Unmatched(labels1, labels2, joinLabel) {
      var m :| 0 <= m < |ps[c..]| && ps[c..][m] == j;
      OccurrenceOf(labels2, joinLabel, c + m);
    }
    if j < |labels2| && labels2[j] == joinLabel && Count(labels2[..j], joinLabel) >= c {
      PositionsAre(labels2, joinLabel);
      var m :| 0 <= m < |ps| && ps[m] == j;
      OccurrenceOf(labels2, joinLabel, m);
      assert ps[c..][m - c] == j;
    }
  }

  /** No two rows of the first table have the same partner. */
  lemma PartnersDiffer(labels1: seq<string>, labels2: seq<string>, i: nat, j: nat)
    requires i < j < |labels1| && Partner(labels1, labels2, i).Some?
    ensures Partner(labels1, labels2, i) != Partner(labels1, labels2, j)
  {
    var ki, kj := Count(labels1[..i], labels1[i]), Count(labels1[..j], labels1[j]);
    OccurrenceOf(labels2, labels1[i], ki);
    if kj < Count(labels2, labels1[j]) {
      OccurrenceOf(labels2, labels1[j], kj);
      if labels1[i] == labels1[j] {
        CountMonotone(labels1, labels1[i], i, j);
      }
    }
  }

  /** Every row of the second table is either the partner of one row of the first table, or unmatched. */
  lemma EveryRowOnce(labels1: seq<string>, labels2: seq<string>, j: nat)
    requires j < |labels2|
    ensures (exists i :: 0 <= i < |labels1| && Partner(labels1, labels2, i) == Some(j))
      <==> j !in Unmatched(labels1, labels2, labels2[j])
  {
    var joinLabel := labels2[j];
    var ps, c := Positions(labels2, joinLabel), Count(labels1, joinLabel);
    PositionsAre(labels2, joinLabel);
    var k :| 0 <= k < |ps| && ps[k] == j;
    if k < c {
      OccurrenceOf(labels1, joinLabel, k);
      var i := Positions(labels1, joinLabel)[k];
      assert Partner(labels1, labels2, i) == Some(j);
      if c <= |ps| && j in ps[c..] {
        var m :| 0 <= m < |ps[c..]| && ps[c..][m] == j;
        PlacesRise(labels2, joinLabel, ps, k, c + m);
      }
    } else {
      assert ps[c..][k - c] == j;
      forall i | 0 <= i < |labels1|
        ensures Partner(labels1, labels2, i) != Some(j)
      {
        NotPartner(labels1, labels2, i, joinLabel, k);
      }
    }
  }

  /** The `k`-th row with a label is nobody's partner if the first table has no more than `k` of them. */
  lemma NotPartner(labels1: seq<string>, labels2: seq<string>, i: nat, joinLabel: string, k: nat)
    requires i < |labels1| && Count(labels1, joinLabel) <= k < Count(labels2, joinLabel)
    ensures Partner(labels1, labels2, i) != Some(Positions(labels2, joinLabel)[k])
  {
    var ki := Count(labels1[..i], labels1[i]);
    OccurrenceOf(labels2, joinLabel, k);
    CountMonotone(labels1, labels1[i], i, |labels1|);
    assert labels1[..|labels1|] == labels1;
    if ki < Count(labels2, labels1[i]) {
      OccurrenceOf(labels2, labels1[i], ki);
    }
  }

  // ---------------------------------------------------------------- the maps of rows

  type LabelsMap = map<string, seq<nat>>

  function LeftIn(m: LabelsMap, joinLabel: string): seq<nat> {
    if joinLabel in m then m[joinLabel] else []
  }

  /** The map holds the unmatched rows of each label, and no empty lists. */
  ghost predicate HoldsUnmatched(m: LabelsMap, labels1: seq<string>, labels2: seq<string>) {
    forall joinLabel ::
      LeftIn(m, joinLabel) == Unmatched(labels1, labels2, joinLabel) && (joinLabel in m ==> m[joinLabel] != [])
  }

  /** One label for each row; a row that is too short has none, and may be given any. */
  ghost predicate AreLabels(table: TableDef, labels: seq<string>) {
    |labels| == |table.rows| && forall i :: 0 <= i < |labels| ==> LabelAt(table, labels, i)
  }

  ghost predicate LabelAt(table: TableDef, labels: seq<string>, i: nat)
    requires i < |labels| && i < |table.rows|
  {
    var values := table.rows[i].values;
    HasColumns(values, table.joinColumns) ==> labels[i] == LabelOf(values, table.joinColumns, |table.joinColumns|)
  }

  /** The row that a pair names, or the empty row. */
  function RowOf(table: TableDef, row: Option<nat>): TableRowDef {
    if row.Some? && row.value < |table.rows| then table.rows[row.value] else EMPTY_ROW
  }

  /** What stops a join; a row too short for a join column makes the original panic. */
  datatype Error<E> = NoJoinColumns | ShortRow | RowError(error: E)

  type JoinRow<!E> = (TableRowDef, TableRowDef) -> Result<TableRowDef, E>

  /** The rows of each label, in order. */
  method GetLabelsMap<E>(table: TableDef, ghost labels: seq<string>) returns (r: Result<LabelsMap, Error<E>>)
    requires AreLabels(table, labels)
    ensures r == Err(NoJoinColumns) <==> table.joinColumns == []
    ensures r == Err(ShortRow) <==> table.joinColumns != [] && !table.Complete()
    ensures r.Ok? ==> table.Complete()
    ensures r.Err? ==> !r.error.RowError?
    ensures r.Ok? ==> HoldsUnmatched(r.value, [], labels)
  {
    hide HoldsUnmatched, LeftIn, LabelOf;
    if |table.joinColumns| == 0 {
      return Err(NoJoinColumns);
    }
    NoRowsYet(labels);
    var labelsMap: LabelsMap := map[];
    for i := 0 to |table.rows|
      invariant HoldsUnmatched(labelsMap, [], labels[..i])
      invariant forall k :: 0 <= k < i ==> HasColumns(table.rows[k].values, table.joinColumns)
    {
      var joinLabel := GenRowLabel(table.rows[i].values, table.joinColumns);
      if joinLabel.None? {
        return Err(ShortRow);
      }
      MapGrows(labelsMap, labels, i);
      assert LabelAt(table, labels, i);
      labelsMap := labelsMap[joinLabel.value := LeftIn(labelsMap, joinLabel.value) + [i]];
    }
    assert labels[..|labels|] == labels;
    r := Ok(labelsMap);
  }

  lemma NoRowsYet(labels: seq<string>)
    ensures HoldsUnmatched(map[], [], labels[..0])
  {
  }

  lemma MapGrows(m: LabelsMap, labels: seq<string>, i: nat)
    requires i < |labels| && HoldsUnmatched(m, [], labels[..i])
    ensures HoldsUnmatched(m[labels[i] := LeftIn(m, labels[i]) + [i]], [], labels[..i + 1])
  {
    assert labels[..i + 1][..i] == labels[..i];
    var grown := m[labels[i] := LeftIn(m, labels[i]) + [i]];
    forall joinLabel
      ensures LeftIn(grown, joinLabel) == Unmatched([], labels[..i + 1], joinLabel)
      ensures joinLabel in grown ==> grown[joinLabel] != []
    {
      assert LeftIn(m, joinLabel) == Unmatched([], labels[..i], joinLabel);
      assert Positions(labels[..i], joinLabel) + [] == Positions(labels[..i], joinLabel);
    }
  }

  /** The map once a label has lost its first row. */
  function Popped(m: LabelsMap, joinLabel: string): LabelsMap {
    var rows := LeftIn(m, joinLabel);
    if |rows| <= 1 then m - {joinLabel} else m[joinLabel := rows[1..]]
  }

  /** One more row of the first table takes one row of the second, if there is one left. */
  lemma TakeOne(m: LabelsMap, labels1: seq<string>, labels2: seq<string>, i: nat)
    requires i < |labels1| && HoldsUnmatched(m, labels1[..i], labels2)
    ensures var joinLabel := labels1[i];
      var rows := LeftIn(m, joinLabel);
      && Partner(labels1, labels2, i) == (if rows == [] then None else Some(rows[0]))
      && HoldsUnmatched(Popped(m, joinLabel), labels1[..i + 1], labels2)
  {
    var taken, rows := labels1[i], LeftIn(m, labels1[i]);
    assert labels1[..i + 1][..i] == labels1[..i];
    assert rows == Unmatched(labels1[..i], labels2, taken);
    var next := Popped(m, taken);
    forall joinLabel
      ensures LeftIn(next, joinLabel) == Unmatched(labels1[..i + 1], labels2, joinLabel)
      ensures joinLabel in next ==> next[joinLabel] != []
    {
      assert LeftIn(m, joinLabel) == Unmatched(labels1[..i], labels2, joinLabel);
    }
  }

  // ---------------------------------------------------------------- joining

  /** The results of joining some rows of the first table with their partners. */
  ghost predicate JoinedFirst<E>(table1: TableDef, table2: TableDef, labels1: seq<string>, labels2: seq<string>,
                                 join: JoinRow<E>,
                                 result: seq<TableRowDef>)
    requires |result| <= |labels1|
  {
    forall i :: 0 <= i < |result| ==> FirstAt(table1, table2, labels1, labels2, join, result, i)
  }

  ghost predicate FirstAt<E>(table1: TableDef, table2: TableDef, labels1: seq<string>, labels2: seq<string>,
                             join: JoinRow<E>,
                             result: seq<TableRowDef>, i: nat)
    requires i < |result| && i < |labels1|
  {
    join(RowOf(table1, Some(i)), RowOf(table2, Partner(labels1, labels2, i))) == Ok(result[i])
  }

  /** Joining a row of the first table with its partner fails. */
  ghost predicate FirstFails<E>(table1: TableDef, table2: TableDef, labels1: seq<string>, labels2: seq<string>,
                                join: JoinRow<E>, e: E, i: nat)
    requires i < |labels1|
  {
    join(RowOf(table1, Some(i)), RowOf(table2, Partner(labels1, labels2, i))) == Err(e)
  }

  /** Takes the next row of the second table for a label, if there is one. */
  method TakeRow2(m: LabelsMap, joinLabel: string) returns (row2: Option<nat>, rest: LabelsMap)
    ensures row2 == (var rows := LeftIn(m, joinLabel); if rows == [] then None else Some(rows[0]))
    ensures rest == Popped(m, joinLabel)
  {
    rest := m;
    if joinLabel in m && |m[joinLabel]| > 0 {
      var row2s := m[joinLabel];
      row2 := Some(row2s[0]);
      if |row2s| == 1 {
        rest := rest - {joinLabel};
      } else {
        rest := rest[joinLabel := row2s[1..]];
      }
    } else {
      rest := rest - {joinLabel};
      row2 := None;
    }
  }

  /** Strikes the next row of the first table off its label's rows. */
  method DropRow1(m: LabelsMap, joinLabel: string) returns (rest: LabelsMap)
    ensures rest == Popped(m, joinLabel)
  {
    rest := m;
    if joinLabel in m {
      var row1s := m[joinLabel];
      if |row1s| <= 1 {
        rest := rest - {joinLabel};
      } else {
        rest := rest[joinLabel := row1s[1..]];
      }
    } else {
      assert m - {joinLabel} == m;
    }
  }

  /** Once all rows have been struck off, no label is left. */
  lemma NoneLeft(m: LabelsMap, labels: seq<string>)
    requires HoldsUnmatched(m, labels, labels)
    ensures m == map[]
  {
    forall joinLabel
      ensures joinLabel !in m
    {
      assert LeftIn(m, joinLabel) == Unmatched(labels, labels, joinLabel);
    }
  }

  /** Joins every row of the first table with its partner. */
  method JoinFirst<E>(table1: TableDef, table2: TableDef, join: JoinRow<E>, map1: LabelsMap, map2: LabelsMap,
                      ghost labels1: seq<string>, ghost labels2: seq<string>)
    returns (r: Result<seq<TableRowDef>, Error<E>>, labelsMap1: LabelsMap, labelsMap2: LabelsMap)
    requires table1.Complete() && AreLabels(table1, labels1)
    requires HoldsUnmatched(map1, [], labels1) && HoldsUnmatched(map2, [], labels2)
    ensures r.Ok? ==> |r.value| == |labels1| && JoinedFirst(table1, table2, labels1, labels2, join, r.value)
    ensures r.Ok? ==> HoldsUnmatched(labelsMap2, labels1, labels2) && labelsMap1 == map[]
    ensures r.Err? ==> r.error.RowError?
    ensures r.Err? ==>
      exists i :: 0 <= i < |labels1| && FirstFails(table1, table2, labels1, labels2, join, r.error.error, i)
  {
    hide HoldsUnmatched, Popped, Partner, LeftIn, LabelOf;
    var resultRows := [];
    labelsMap1, labelsMap2 := map1, map2;
    for i := 0 to |table1.rows|
      invariant |resultRows| == i && JoinedFirst(table1, table2, labels1, labels2, join, resultRows)
      invariant HoldsUnmatched(labelsMap2, labels1[..i], labels2) && HoldsUnmatched(labelsMap1, labels1[..i], labels1)
    {
      var someLabel := GenRowLabel(table1.rows[i].values, table1.joinColumns);
      var joinLabel := someLabel.value;
      assert LabelAt(table1, labels1, i);
      TakeOne(labelsMap2, labels1, labels2, i);
      TakeOne(labelsMap1, labels1, labels1, i);
      var row2;
      row2, labelsMap2 := TakeRow2(labelsMap2, joinLabel);
      labelsMap1 := DropRow1(labelsMap1, joinLabel);
      var newRow := join(table1.rows[i], RowOf(table2, row2));
      if newRow.Err? {
        assert FirstFails(table1, table2, labels1, labels2, join, newRow.error, i);
        return Err(RowError(newRow.error)), labelsMap1, labelsMap2;
      }
      ghost var before := resultRows;
      resultRows := resultRows + [newRow.value];
      JoinedGrows(table1, table2, labels1, labels2, join, before, newRow.value);
    }
    assert labels1[..|labels1|] == labels1;
    NoneLeft(labelsMap1, labels1);
    r := Ok(resultRows);
  }

  lemma JoinedGrows<E>(table1: TableDef, table2: TableDef, labels1: seq<string>, labels2: seq<string>, join: JoinRow<E>,
                       result: seq<TableRowDef>, newRow: TableRowDef)
    requires |result| < |labels1| && JoinedFirst(table1, table2, labels1, labels2, join, result)
    requires join(RowOf(table1, Some(|result|)), RowOf(table2, Partner(labels1, labels2, |result|))) == Ok(newRow)
    ensures JoinedFirst(table1, table2, labels1, labels2, join, result + [newRow])
  {
    var longer := result + [newRow];
    forall i | 0 <= i < |longer|
      ensures FirstAt(table1, table2, labels1, labels2, join, longer, i)
    {
      assert i < |result| ==> FirstAt(table1, table2, labels1, labels2, join, result, i);
    }
  }

  // ---------------------------------------------------------------- the rows that are left

  /** Those of some rows that have a label. */
  function WithLabel(rows: seq<nat>, labels: seq<string>, joinLabel: string): seq<nat> {
    if rows == [] then []
    else
      WithLabel(rows[..|rows| - 1], labels, joinLabel)
      + if Last(rows) < |labels| && labels[Last(rows)] == joinLabel then [Last(rows)] else []
  }

  /** The rows emitted and those still in the map make up the unmatched rows of each label. */
  ghost predicate Draining(m: LabelsMap, rest: seq<nat>, labels1: seq<string>, labels2: seq<string>) {
    && (forall k :: 0 <= k < |rest| ==> rest[k] < |labels2|)
    && (forall joinLabel :: DrainingAt(m, rest, labels1, labels2, joinLabel))
  }

  ghost predicate DrainingAt(m: LabelsMap, rest: seq<nat>, labels1: seq<string>, labels2: seq<string>,
                             joinLabel: string) {
    && WithLabel(rest, labels2, joinLabel) + LeftIn(m, joinLabel) == Unmatched(labels1, labels2, joinLabel)
    && (joinLabel in m ==> m[joinLabel] != [])
  }

  /** `rest` are the unmatched rows of every label, in order within each. */
  ghost predicate IsRest(rest: seq<nat>, labels1: seq<string>, labels2: seq<string>) {
    && (forall k :: 0 <= k < |rest| ==> rest[k] < |labels2|)
    && (forall joinLabel :: WithLabel(rest, labels2, joinLabel) == Unmatched(labels1, labels2, joinLabel))
  }

  lemma AllDrained(m: LabelsMap, rest: seq<nat>, labels1: seq<string>, labels2: seq<string>)
    requires |m| == 0 && Draining(m, rest, labels1, labels2)
    ensures IsRest(rest, labels1, labels2)
  {
    forall joinLabel
      ensures WithLabel(rest, labels2, joinLabel) == Unmatched(labels1, labels2, joinLabel)
    {
      assert DrainingAt(m, rest, labels1, labels2, joinLabel);
      assert WithLabel(rest, labels2, joinLabel) + [] == WithLabel(rest, labels2, joinLabel);
    }
  }

  /** The `k`-th of some rows among those with its label. */
  lemma {:induction false} WithLabelAt(rows: seq<nat>, labels: seq<string>, k: nat, n: nat)
    requires k < n <= |rows| && rows[k] < |labels|
    ensures var joinLabel := labels[rows[k]];
      var place := |WithLabel(rows[..k], labels, joinLabel)|;
      place < |WithLabel(rows[..n], labels, joinLabel)| && WithLabel(rows[..n], labels, joinLabel)[place] == rows[k]
    decreases n
  {
    assert rows[..n][..n - 1] == rows[..n - 1];
    if k < n - 1 {
      WithLabelAt(rows, labels, k, n - 1);
    }
  }

  lemma {:induction false} WithLabelHas(rows: seq<nat>, labels: seq<string>, joinLabel: string, j: nat)
    requires j in WithLabel(rows, labels, joinLabel)
    ensures j in rows
  {
    if j !in WithLabel(rows[..|rows| - 1], labels, joinLabel) {
      assert j == Last(rows);
    } else {
      WithLabelHas(rows[..|rows| - 1], labels, joinLabel, j);
    }
  }

  /** The rest are exactly the unmatched rows, none of them twice. */
  lemma RestIsUnmatched(rest: seq<nat>, labels1: seq<string>, labels2: seq<string>, j: nat)
    requires IsRest(rest, labels1, labels2) && j < |labels2|
    ensures j in rest <==> j in Unmatched(labels1, labels2, labels2[j])
  {
    assert WithLabel(rest, labels2, labels2[j]) == Unmatched(labels1, labels2, labels2[j]);
    if j in rest {
      var k :| 0 <= k < |rest| && rest[k] == j;
      WithLabelAt(rest, labels2, k, |rest|);
      assert rest[..|rest|] == rest;
    }
    if j in Unmatched(labels1, labels2, labels2[j]) {
      WithLabelHas(rest, labels2, labels2[j], j);
    }
  }

  /** No row of the rest is emitted twice, and rows of one label keep their order. */
  lemma RestHasNoRepeats(rest: seq<nat>, labels1: seq<string>, labels2: seq<string>, a: nat, b: nat)
    requires IsRest(rest, labels1, labels2) && a < b < |rest|
    ensures rest[a] != rest[b]
    ensures labels2[rest[a]] == labels2[rest[b]] ==> rest[a] < rest[b]
  {
    hide Unmatched, WithLabel;
    if labels2[rest[a]] == labels2[rest[b]] {
      var joinLabel := labels2[rest[a]];
      assert WithLabel(rest, labels2, joinLabel) == Unmatched(labels1, labels2, joinLabel) && rest[..|rest|] == rest;
      WithLabelAt(rest, labels2, a, b);
      WithLabelAt(rest, labels2, a, |rest|);
      WithLabelAt(rest, labels2, b, |rest|);
      UnmatchedRise(labels1, labels2, joinLabel, |WithLabel(rest[..a], labels2, joinLabel)|,
        |WithLabel(rest[..b], labels2, joinLabel)|);
    }
  }

  lemma UnmatchedRise(labels1: seq<string>, labels2: seq<string>, joinLabel: string, i: nat, j: nat)
    requires i < j < |Unmatched(labels1, labels2, joinLabel)|
    ensures Unmatched(labels1, labels2, joinLabel)[i] < Unmatched(labels1, labels2, joinLabel)[j]
  {
    var ps, c := Positions(labels2, joinLabel), Count(labels1, joinLabel);
    PositionsAre(labels2, joinLabel);
    PlacesRise(labels2, joinLabel, ps, c + i, c + j);
  }

  /** The rows still in the map. */
  ghost function StillIn(m: LabelsMap, labels: seq<string>): set<nat> {
    set j | 0 <= j < |labels| && j in LeftIn(m, labels[j])
  }

  lemma DrainingBegins(m: LabelsMap, labels1: seq<string>, labels2: seq<string>)
    requires HoldsUnmatched(m, labels1, labels2)
    ensures Draining(m, [], labels1, labels2)
  {
    forall joinLabel
      ensures DrainingAt(m, [], labels1, labels2, joinLabel)
    {
      assert LeftIn(m, joinLabel) == Unmatched(labels1, labels2, joinLabel);
    }
  }

  /** The rows in the map under a label have that label, and the first is none of the others. */
  lemma RowsInMap(m: LabelsMap, rest: seq<nat>, labels1: seq<string>, labels2: seq<string>, joinLabel: string)
    requires Draining(m, rest, labels1, labels2) && joinLabel in m
    ensures var rows := m[joinLabel];
      rows != [] && rows[0] < |labels2| && labels2[rows[0]] == joinLabel && rows[0] !in rows[1..]
    ensures m[joinLabel][0] in Unmatched(labels1, labels2, joinLabel)
  {
    assert DrainingAt(m, rest, labels1, labels2, joinLabel);
    var rows, all, ps := m[joinLabel], Unmatched(labels1, labels2, joinLabel), Positions(labels2, joinLabel);
    var c, d := |ps| - |all|, |all| - |rows|;
    PositionsAre(labels2, joinLabel);
    assert all[d] == rows[0] && all == ps[c..];
    assert PlaceAt(labels2, joinLabel, ps, c + d);
    forall k | 1 <= k < |rows|
      ensures rows[k] != rows[0]
    {
      assert rows[k] == all[d + k] == ps[c + d + k];
      PlacesRise(labels2, joinLabel, ps, c + d, c + d + k);
    }
  }

  /** Emitting the first row of a label. */
  lemma DrainOne(m: LabelsMap, rest: seq<nat>, labels1: seq<string>, labels2: seq<string>, joinLabel: string)
    requires Draining(m, rest, labels1, labels2) && joinLabel in m && m[joinLabel] != []
    ensures Draining(Popped(m, joinLabel), rest + [m[joinLabel][0]], labels1, labels2)
    ensures StillIn(Popped(m, joinLabel), labels2) < StillIn(m, labels2)
  {
    hide Unmatched;
    RowsInMap(m, rest, labels1, labels2, joinLabel);
    var next, longer := Popped(m, joinLabel), rest + [m[joinLabel][0]];
    forall other
      ensures DrainingAt(next, longer, labels1, labels2, other)
    {
      assert DrainingAt(m, rest, labels1, labels2, other);
      DrainedAt(m, rest, labels2, joinLabel, other);
    }
    FewerIn(m, labels2, joinLabel);
  }

  /** Moving a row from the map to those emitted keeps them together what they were. */
  lemma DrainedAt(m: LabelsMap, rest: seq<nat>, labels2: seq<string>, joinLabel: string, other: string)
    requires joinLabel in m && m[joinLabel] != [] && m[joinLabel][0] < |labels2|
    requires labels2[m[joinLabel][0]] == joinLabel
    requires other in m ==> m[other] != []
    ensures var next, longer := Popped(m, joinLabel), rest + [m[joinLabel][0]];
      && WithLabel(longer, labels2, other) + LeftIn(next, other) == WithLabel(rest, labels2, other) + LeftIn(m, other)
      && (other in next ==> next[other] != [])
  {
    var rows := m[joinLabel];
    var longer := rest + [rows[0]];
    assert longer[..|longer| - 1] == rest;
    if other == joinLabel {
      assert rows == [rows[0]] + rows[1..];
      ConcatAssociates(WithLabel(rest, labels2, other), [rows[0]], rows[1..]);
    } else {
      assert WithLabel(longer, labels2, other) == WithLabel(rest, labels2, other);
    }
  }

  lemma FewerIn(m: LabelsMap, labels2: seq<string>, joinLabel: string)
    requires joinLabel in m && m[joinLabel] != [] && m[joinLabel][0] !in m[joinLabel][1..]
    requires m[joinLabel][0] < |labels2| && labels2[m[joinLabel][0]] == joinLabel
    ensures StillIn(Popped(m, joinLabel), labels2) < StillIn(m, labels2)
  {
    var rows, next := m[joinLabel], Popped(m, joinLabel);
    assert rows == [rows[0]] + rows[1..];
    forall j | j in StillIn(next, labels2)
      ensures j in StillIn(m, labels2)
    {
      assert j in LeftIn(next, labels2[j]);
    }
    assert rows[0] in StillIn(m, labels2) && rows[0] !in StillIn(next, labels2);
  }

  ghost predicate RestAt<E>(table2: TableDef, join: JoinRow<E>, rest: seq<nat>, result: seq<TableRowDef>, k: nat)
    requires k < |rest| && k < |result|
  {
    join(EMPTY_ROW, RowOf(table2, Some(rest[k]))) == Ok(result[k])
  }

  /** Joining an unmatched row of the second table with the empty row fails. */
  ghost predicate RestFails<E>(table2: TableDef, labels1: seq<string>, labels2: seq<string>, join: JoinRow<E>, e: E,
                               j: nat)
    requires j < |labels2|
  {
    j in Unmatched(labels1, labels2, labels2[j]) && join(EMPTY_ROW, RowOf(table2, Some(j))) == Err(e)
  }

  /** Joins the rows left in the map with the empty row. The map is gone over again and again, in any order,
      one row of each label at a time, until nothing is left. */
  method JoinRest<E>(table2: TableDef, join: JoinRow<E>, map2: LabelsMap, ghost labels1: seq<string>,
                     ghost labels2: seq<string>)
    returns (r: Result<seq<TableRowDef>, Error<E>>, ghost rest: seq<nat>)
    requires HoldsUnmatched(map2, labels1, labels2)
    ensures r.Ok? ==> |r.value| == |rest| && forall k :: 0 <= k < |rest| ==> RestAt(table2, join, rest, r.value, k)
    ensures r.Ok? ==> IsRest(rest, labels1, labels2)
    ensures r.Err? ==> r.error.RowError?
    ensures r.Err? ==>
      exists j :: 0 <= j < |labels2| && RestFails(table2, labels1, labels2, join, r.error.error, j)
  {
    hide Draining, Popped, StillIn, HoldsUnmatched, Unmatched;
    var labelsMap2, resultRows := map2, [];
    rest := [];
    DrainingBegins(map2, labels1, labels2);
    while |labelsMap2| > 0
      invariant Draining(labelsMap2, rest, labels1, labels2)
      invariant |resultRows| == |rest| && forall k :: 0 <= k < |rest| ==> RestAt(table2, join, rest, resultRows, k)
      decreases StillIn(labelsMap2, labels2)
    {
      var keys := labelsMap2.Keys;
      ghost var before := StillIn(labelsMap2, labels2);
      var pending := keys;
      while pending != {}
        invariant pending <= labelsMap2.Keys && Draining(labelsMap2, rest, labels1, labels2)
        invariant |resultRows| == |rest| && forall k :: 0 <= k < |rest| ==> RestAt(table2, join, rest, resultRows, k)
        invariant StillIn(labelsMap2, labels2) < before || (pending == keys && StillIn(labelsMap2, labels2) == before)
      {
        var joinLabel :| joinLabel in pending;
        pending := pending - {joinLabel};
        RowsInMap(labelsMap2, rest, labels1, labels2, joinLabel);
        DrainOne(labelsMap2, rest, labels1, labels2, joinLabel);
        var row2s := labelsMap2[joinLabel];
        var newRow := join(EMPTY_ROW, RowOf(table2, Some(row2s[0])));
        if newRow.Err? {
          assert RestFails(table2, labels1, labels2, join, newRow.error, row2s[0]);
          return Err(RowError(newRow.error)), rest;
        }
        labelsMap2 := PopRow2(labelsMap2, joinLabel);
        ghost var shorter, fewer := rest, resultRows;
        rest, resultRows := rest + [row2s[0]], resultRows + [newRow.value];
        RestGrows(table2, join, shorter, fewer, row2s[0], newRow.value);
      }
    }
    AllDrained(labelsMap2, rest, labels1, labels2);
    r := Ok(resultRows);
  }

  lemma RestGrows<E>(table2: TableDef, join: JoinRow<E>, rest: seq<nat>, result: seq<TableRowDef>, j: nat,
                     newRow: TableRowDef)
    requires |rest| == |result| && forall k :: 0 <= k < |rest| ==> RestAt(table2, join, rest, result, k)
    requires join(EMPTY_ROW, RowOf(table2, Some(j))) == Ok(newRow)
    ensures forall k :: 0 <= k < |rest| + 1 ==> RestAt(table2, join, rest + [j], result + [newRow], k)
  {
    forall k | 0 <= k < |rest| + 1
      ensures RestAt(table2, join, rest + [j], result + [newRow], k)
    {
      assert k < |rest| ==> RestAt(table2, join, rest, result, k);
    }
  }

  /** Takes the first row of a label off the map, and the label with it when it was the last. */
  method PopRow2(m: LabelsMap, joinLabel: string) returns (popped: LabelsMap)
    requires joinLabel in m && m[joinLabel] != []
    ensures popped == Popped(m, joinLabel)
    ensures m.Keys - {joinLabel} <= popped.Keys
  {
    var row2s := m[joinLabel];
    if |row2s| == 1 {
      popped := m - {joinLabel};
    } else {
      popped := m[joinLabel := row2s[1..]];
    }
  }

  /** The join: each row of the first table with its partner, then the rows of the second table that are
      nobody's partner, each once and, within a label, in order. */
  method CompareTableWithNonUniqueKey<E>(table1: TableDef, table2: TableDef, join: JoinRow<E>,
                                         ghost labels1: seq<string>, ghost labels2: seq<string>)
    returns (r: Result<seq<TableRowDef>, Error<E>>, ghost rest: seq<nat>)
    requires AreLabels(table1, labels1) && AreLabels(table2, labels2)
    ensures r == Err(NoJoinColumns) <==> table1.joinColumns == [] || (table1.Complete() && table2.joinColumns == [])
    ensures r == Err(ShortRow)
      <==> table1.joinColumns != [] && (!table1.Complete() || (table2.joinColumns != [] && !table2.Complete()))
    ensures r.Err? && r.error.RowError? ==>
      || (exists i :: 0 <= i < |labels1| && FirstFails(table1, table2, labels1, labels2, join, r.error.error, i))
      || (exists j :: 0 <= j < |labels2| && RestFails(table2, labels1, labels2, join, r.error.error, j))
    ensures r.Ok? ==> IsJoin(table1, table2, labels1, labels2, join, r.value, rest)
  {
    hide HoldsUnmatched, IsRest, JoinedFirst;
    rest := [];
    var r1 := GetLabelsMap<E>(table1, labels1);
    if r1.Err? {
      return Err(r1.error), rest;
    }
    var r2 := GetLabelsMap<E>(table2, labels2);
    if r2.Err? {
      return Err(r2.error), rest;
    }
    var first, labelsMap1, labelsMap2 := JoinFirst(table1, table2, join, r1.value, r2.value, labels1, labels2);
    if first.Err? {
      return Err(first.error), rest;
    }
    var more;
    more, rest := JoinRest(table2, join, labelsMap2, labels1, labels2);
    if more.Err? {
      return Err(more.error), rest;
    }
    assert (first.value + more.value)[..|labels1|] == first.value
      && (first.value + more.value)[|labels1|..] == more.value;
    r := Ok(first.value + more.value);
  }

  /** `result` is the join: one row for each of the first table, and one for each of `rest`, which are, for
      every label, the unmatched rows of the second table. */
  ghost predicate IsJoin<E>(table1: TableDef, table2: TableDef, labels1: seq<string>, labels2: seq<string>,
                            join: JoinRow<E>,
                            result: seq<TableRowDef>, rest: seq<nat>)
  {
    && |result| == |labels1| + |rest|
    && JoinedFirst(table1, table2, labels1, labels2, join, result[..|labels1|])
    && (forall k :: 0 <= k < |rest| ==> RestAt(table2, join, rest, result[|labels1|..], k))
    && IsRest(rest, labels1, labels2)
  }

  // ---------------------------------------------------------------- how many rows a label gets

  /** The labels of the joined rows, in order. */
  ghost function JoinedLabels(labels1: seq<string>, labels2: seq<string>, rest: seq<nat>): (r: seq<string>)
    requires forall k :: 0 <= k < |rest| ==> rest[k] < |labels2|
    ensures |r| == |labels1| + |rest|
  {
    labels1 + seq(|rest|, k requires 0 <= k < |rest| => labels2[rest[k]])
  }

  lemma {:induction false} CountOfJoined(labels1: seq<string>, labels2: seq<string>, rest: seq<nat>, joinLabel: string)
    requires forall k :: 0 <= k < |rest| ==> rest[k] < |labels2|
    ensures Count(JoinedLabels(labels1, labels2, rest), joinLabel)
      == Count(labels1, joinLabel) + |WithLabel(rest, labels2, joinLabel)|
    decreases |rest|
  {
    var joined := JoinedLabels(labels1, labels2, rest);
    if rest == [] {
      assert joined == labels1;
    } else {
      var shorter := rest[..|rest| - 1];
      CountOfJoined(labels1, labels2, shorter, joinLabel);
      assert joined[..|joined| - 1] == JoinedLabels(labels1, labels2, shorter);
      assert joined[|joined| - 1] == labels2[Last(rest)];
    }
  }

  /** Every label has as many joined rows as the table with more such rows has. */
  lemma RowsPerLabel<E>(table1: TableDef, table2: TableDef, labels1: seq<string>, labels2: seq<string>,
                        join: JoinRow<E>, result: seq<TableRowDef>, rest: seq<nat>, joinLabel: string)
    requires IsJoin(table1, table2, labels1, labels2, join, result, rest)
    ensures (forall k :: 0 <= k < |rest| ==> rest[k] < |labels2|)
      && |JoinedLabels(labels1, labels2, rest)| == |result|
      && var c1, c2 := Count(labels1, joinLabel), Count(labels2, joinLabel);
         Count(JoinedLabels(labels1, labels2, rest), joinLabel) == if c1 < c2 then c2 else c1
  {
    assert IsRest(rest, labels1, labels2);
    CountOfJoined(labels1, labels2, rest, joinLabel);
    assert WithLabel(rest, labels2, joinLabel) == Unmatched(labels1, labels2, joinLabel);
  }

  // ---------------------------------------------------------------- when partners have equal join values

  /** Two tables with the same join columns, and their labels. */
  ghost predicate Joinable(table1: TableDef, table2: TableDef, labels1: seq<string>, labels2: seq<string>) {
    && table1.Complete() && table2.Complete() && table1.joinColumns == table2.joinColumns
    && AreLabels(table1, labels1) && AreLabels(table2, labels2)
  }

  ghost predicate SameJoinValues(table1: TableDef, table2: TableDef, i: nat, j: nat)
    requires table1.Complete() && table2.Complete() && table1.joinColumns == table2.joinColumns
    requires i < |table1.rows| && j < |table2.rows|
  {
    SameValues(table1.rows[i].values, table2.rows[j].values, table1.joinColumns, |table1.joinColumns|)
  }

  ghost predicate PartnerAgrees(table1: TableDef, table2: TableDef, labels1: seq<string>, labels2: seq<string>, i: nat)
    requires Joinable(table1, table2, labels1, labels2) && i < |labels1|
  {
    var partner := Partner(labels1, labels2, i);
    partner.Some? ==> partner.value < |labels2| && SameJoinValues(table1, table2, i, partner.value)
  }

  /** Rows are paired only with rows that have the same join values. */
  ghost predicate PartnersAgree(table1: TableDef, table2: TableDef, labels1: seq<string>, labels2: seq<string>) {
    Joinable(table1, table2, labels1, labels2)
    ==> (forall i :: 0 <= i < |labels1| ==> PartnerAgrees(table1, table2, labels1, labels2, i))
  }

  /** There is one join column, or no join value of the table holds a comma. */
  ghost predicate Plain(table: TableDef)
    requires table.Complete()
  {
    |table.joinColumns| <= 1 || forall i :: 0 <= i < |table.rows| ==> PlainRow(table, i)
  }

  ghost predicate PlainRow(table: TableDef, i: nat)
    requires table.Complete() && i < |table.rows|
  {
    NoCommas(table.rows[i].values, table.joinColumns, |table.joinColumns|)
  }

  /** It is enough that one of the two tables is plain. */
  lemma PlainTablesAgree(table1: TableDef, table2: TableDef, labels1: seq<string>, labels2: seq<string>)
    requires Joinable(table1, table2, labels1, labels2) && (Plain(table1) || Plain(table2))
    ensures PartnersAgree(table1, table2, labels1, labels2)
  {
    var columns := table1.joinColumns;
    forall i | 0 <= i < |labels1|
      ensures PartnerAgrees(table1, table2, labels1, labels2, i)
    {
      var k := Count(labels1[..i], labels1[i]);
      if k < Count(labels2, labels1[i]) {
        OccurrenceOf(labels2, labels1[i], k);
        var j := Partner(labels1, labels2, i).value;
        var a, b := table1.rows[i].values, table2.rows[j].values;
        assert LabelAt(table1, labels1, i) && LabelAt(table2, labels2, j);
        if |columns| <= 1 || PlainRow(table1, i) {
          PlainRowTellsApart(a, b, columns);
        } else {
          assert PlainRow(table2, j);
          PlainRowTellsApart(b, a, columns);
        }
      }
    }
  }

  /** A label that is all there is occurs everywhere. */
  lemma {:induction false} CountOfCopies(labels: seq<string>, joinLabel: string)
    requires forall i :: 0 <= i < |labels| ==> labels[i] == joinLabel
    ensures Count(labels, joinLabel) == |labels|
  {
    if labels != [] {
      CountOfCopies(labels[..|labels| - 1], joinLabel);
    }
  }

  lemma {:induction false} CountAtMost(labels: seq<string>, joinLabel: string)
    ensures Count(labels, joinLabel) <= |labels|
  {
    if labels != [] {
      CountAtMost(labels[..|labels| - 1], joinLabel);
    }
  }

  /** A table all of whose rows have the label of a row with a comma, but other join values. */
  lemma Impostor(table: TableDef, labels: seq<string>, i: nat) returns (other: TableDef, copies: seq<string>)
    requires table.Complete() && AreLabels(table, labels) && Distinct(table.joinColumns)
    requires |table.joinColumns| >= 2 && i < |labels| && !PlainRow(table, i)
    ensures other.Complete() && other.joinColumns == table.joinColumns && AreLabels(other, copies)
    ensures |copies| == |labels| && forall j :: 0 <= j < |copies| ==> copies[j] == labels[i]
    ensures forall j :: 0 <= j < |copies| ==> !SameJoinValues(table, other, i, j)
  {
    var b := CommaCollides(table.rows[i].values, table.joinColumns);
    other := TableDef(seq(|labels|, _ => TableRowDef(b, [])), table.joinColumns);
    copies := seq(|labels|, _ => labels[i]);
    assert LabelAt(table, labels, i);
  }

  /** Whatever a first table is joined with, its rows are paired only with rows that have the same join values,
      if and only if it is plain. */
  lemma FirstTableAgrees(table1: TableDef, labels1: seq<string>)
    requires table1.Complete() && AreLabels(table1, labels1) && Distinct(table1.joinColumns)
    ensures (forall table2, labels2 :: PartnersAgree(table1, table2, labels1, labels2)) <==> Plain(table1)
  {
    if Plain(table1) {
      forall table2, labels2 | Joinable(table1, table2, labels1, labels2)
        ensures PartnersAgree(table1, table2, labels1, labels2)
      {
        PlainTablesAgree(table1, table2, labels1, labels2);
      }
    } else {
      var i :| 0 <= i < |table1.rows| && !PlainRow(table1, i);
      var other, copies := Impostor(table1, labels1, i);
      CountOfCopies(copies, labels1[i]);
      CountAtMost(labels1[..i], labels1[i]);
      OccurrenceOf(copies, labels1[i], Count(labels1[..i], labels1[i]));
      assert !PartnerAgrees(table1, other, labels1, copies, i);
      assert !PartnersAgree(table1, other, labels1, copies);
    }
  }

  /** The same for a second table. */
  lemma SecondTableAgrees(table2: TableDef, labels2: seq<string>)
    requires table2.Complete() && AreLabels(table2, labels2) && Distinct(table2.joinColumns)
    ensures (forall table1, labels1 :: PartnersAgree(table1, table2, labels1, labels2)) <==> Plain(table2)
  {
    if Plain(table2) {
      forall table1, labels1 | Joinable(table1, table2, labels1, labels2)
        ensures PartnersAgree(table1, table2, labels1, labels2)
      {
        PlainTablesAgree(table1, table2, labels1, labels2);
      }
    } else {
      var j :| 0 <= j < |table2.rows| && !PlainRow(table2, j);
      var other, copies := Impostor(table2, labels2, j);
      PositionsAre(labels2, labels2[j]);
      CountAtMost(labels2, labels2[j]);
      var k :| 0 <= k < Count(labels2, labels2[j]) && Positions(labels2, labels2[j])[k] == j;
      CountOfCopies(copies[..k], labels2[j]);
      assert Partner(copies, labels2, k) == Some(j) && !SameJoinValues(table2, other, j, k);
      assert !PartnerAgrees(other, table2, copies, labels2, k);
      assert !PartnersAgree(other, table2, copies, labels2);
    }
  }
}
