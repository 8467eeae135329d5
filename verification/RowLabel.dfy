/** The label of a row: its join values, separated by commas (diagnose/compare.go). */
module RowLabels {
  import opened Wrappers

  ghost predicate HasColumns(row: seq<string>, joinColumns: seq<nat>) {
    forall c :: 0 <= c < |joinColumns| ==> joinColumns[c] < |row|
  }

  /** The values of the first `n` join columns, separated by commas. */
  function LabelOf(row: seq<string>, joinColumns: seq<nat>, n: nat): string
    requires n <= |joinColumns| && HasColumns(row, joinColumns)
  {
    if n == 0 then ""
    else if n == 1 then row[joinColumns[0]]
    else LabelOf(row, joinColumns, n - 1) + "," + row[joinColumns[n - 1]]
  }

  /** The label of a row, or none where the row is too short for a join column and the original panics. */
  method GenRowLabel(row: seq<string>, joinColumns: seq<nat>) returns (r: Option<string>)
    ensures r == if HasColumns(row, joinColumns) then Some(LabelOf(row, joinColumns, |joinColumns|)) else None
  {
    var joinLabel := "";
    for i := 0 to |joinColumns|
      invariant HasColumns(row, joinColumns[..i]) && joinLabel == LabelOf(row, joinColumns[..i], i)
    {
      if i > 0 {
        joinLabel := joinLabel + ",";
      }
      if joinColumns[i] >= |row| {
        return None;
      }
      joinLabel := joinLabel + row[joinColumns[i]];
      LabelGrows(row, joinColumns, i);
    }
    assert joinColumns[..|joinColumns|] == joinColumns;
    r := Some(joinLabel);
  }

  lemma LabelGrows(row: seq<string>, joinColumns: seq<nat>, i: nat)
    requires i < |joinColumns| && HasColumns(row, joinColumns[..i]) && joinColumns[i] < |row|
    ensures HasColumns(row, joinColumns[..i + 1])
    ensures var before := LabelOf(row, joinColumns[..i], i);
      LabelOf(row, joinColumns[..i + 1], i + 1) == (if i > 0 then before + "," else before) + row[joinColumns[i]]
  {
    LabelStep(row, joinColumns[..i + 1], i);
    LabelOfPrefix(row, joinColumns[..i], joinColumns[..i + 1], i);
  }

  lemma LabelOfPrefix(row: seq<string>, a: seq<nat>, b: seq<nat>, n: nat)
    requires n <= |a| && n <= |b| && HasColumns(row, a) && HasColumns(row, b)
    requires forall c :: 0 <= c < n ==> a[c] == b[c]
    ensures LabelOf(row, a, n) == LabelOf(row, b, n)
  {
    if n > 0 {
      LabelOfPrefix(row, a, b, n - 1);
    }
  }

  lemma LabelStep(row: seq<string>, joinColumns: seq<nat>, i: nat)
    requires i < |joinColumns| && HasColumns(row, joinColumns)
    ensures var before := LabelOf(row, joinColumns, i);
      LabelOf(row, joinColumns, i + 1) == (if i > 0 then before + "," else before) + row[joinColumns[i]]
  {
    assert LabelOf(row, joinColumns, i) + "" == LabelOf(row, joinColumns, i);
  }

  /** In a label, the value of each join column stands behind those of the columns before it, and behind a comma unless
      it is the first. */
  lemma {:induction false} LabelHolds(row: seq<string>, joinColumns: seq<nat>, c: nat, n: nat)
    requires c < n <= |joinColumns| && HasColumns(row, joinColumns)
    ensures var before, value := LabelOf(row, joinColumns, c), row[joinColumns[c]];
      var joinLabel := LabelOf(row, joinColumns, n);
      var from := if c == 0 then 0 else |before| + 1;
      && from + |value| <= |joinLabel| && joinLabel[from..from + |value|] == value
      && joinLabel[..|before|] == before && (c > 0 ==> joinLabel[|before|] == ',')
      && (c == n - 1 ==> from + |value| == |joinLabel|)
  {
    LabelStep(row, joinColumns, n - 1);
    if c < n - 1 {
      LabelHolds(row, joinColumns, c, n - 1);
    }
  }

  // ---------------------------------------------------------------- rows that a label tells apart

  ghost predicate SameValues(a: seq<string>, b: seq<string>, joinColumns: seq<nat>, n: nat)
    requires n <= |joinColumns| && HasColumns(a, joinColumns) && HasColumns(b, joinColumns)
  {
    forall c :: 0 <= c < n ==> a[joinColumns[c]] == b[joinColumns[c]]
  }

  ghost predicate NoCommas(row: seq<string>, joinColumns: seq<nat>, n: nat)
    requires n <= |joinColumns| && HasColumns(row, joinColumns)
  {
    forall c :: 0 <= c < n ==> ',' !in row[joinColumns[c]]
  }

  ghost predicate Distinct(joinColumns: seq<nat>) {
    forall c, d :: 0 <= c < d < |joinColumns| ==> joinColumns[c] != joinColumns[d]
  }

  /** Rows with the same label as this one have the same join values. */
  ghost predicate TellsApart(a: seq<string>, joinColumns: seq<nat>)
    requires HasColumns(a, joinColumns)
  {
    forall b :: HasColumns(b, joinColumns) ==> SameLabelSameValues(a, b, joinColumns)
  }

  ghost predicate SameLabelSameValues(a: seq<string>, b: seq<string>, joinColumns: seq<nat>)
    requires HasColumns(a, joinColumns) && HasColumns(b, joinColumns)
  {
    var n := |joinColumns|;
    LabelOf(a, joinColumns, n) == LabelOf(b, joinColumns, n) ==> SameValues(a, b, joinColumns, n)
  }

  lemma SameValuesSameLabel(a: seq<string>, b: seq<string>, joinColumns: seq<nat>, n: nat)
    requires n <= |joinColumns| && HasColumns(a, joinColumns) && HasColumns(b, joinColumns)
    requires SameValues(a, b, joinColumns, n)
    ensures LabelOf(a, joinColumns, n) == LabelOf(b, joinColumns, n)
  {
    if n > 0 {
      SameValuesSameLabel(a, b, joinColumns, n - 1);
    }
  }

  /** Rows with different join values can have the same label. */
  lemma LabelsCollide()
    ensures var a, b := ["x,y", "z"], ["x", "y,z"];
      LabelOf(a, [0, 1], 2) == LabelOf(b, [0, 1], 2) && !SameValues(a, b, [0, 1], 2)
  {
    var a, b := ["x,y", "z"], ["x", "y,z"];
    assert LabelOf(a, [0, 1], 1) == "x,y" && LabelOf(b, [0, 1], 1) == "x";
    assert LabelOf(a, [0, 1], 2) == "x,y,z" == LabelOf(b, [0, 1], 2);
    assert a[[0, 1][0]] != b[[0, 1][0]];
  }

  // ---------------------------------------------------------------- without commas

  function Commas(s: string): nat {
    multiset(s)[',']
  }

  /** A label has a comma between any two join values, and those in the values. */
  lemma {:induction false} LabelCommas(row: seq<string>, joinColumns: seq<nat>, n: nat)
    requires 1 <= n <= |joinColumns| && HasColumns(row, joinColumns)
    ensures Commas(LabelOf(row, joinColumns, n)) >= n - 1
    ensures Commas(LabelOf(row, joinColumns, n)) == n - 1 <==> NoCommas(row, joinColumns, n)
  {
    var last := row[joinColumns[n - 1]];
    assert Commas(last) == 0 <==> ',' !in last;
    if n > 1 {
      LabelCommas(row, joinColumns, n - 1);
      var before := LabelOf(row, joinColumns, n - 1);
      assert Commas(before + "," + last) == Commas(before) + 1 + Commas(last);
    }
  }

  /** Where no value has a comma, the label determines the values. */
  lemma {:induction false} LabelsOfPlainRows(a: seq<string>, b: seq<string>, joinColumns: seq<nat>, n: nat)
    requires n <= |joinColumns| && HasColumns(a, joinColumns) && HasColumns(b, joinColumns)
    requires NoCommas(a, joinColumns, n) && NoCommas(b, joinColumns, n)
    requires LabelOf(a, joinColumns, n) == LabelOf(b, joinColumns, n)
    ensures SameValues(a, b, joinColumns, n)
  {
    if n > 1 {
      LastFieldDecides(LabelOf(a, joinColumns, n - 1), a[joinColumns[n - 1]], LabelOf(b, joinColumns, n - 1),
        b[joinColumns[n - 1]]);
      LabelsOfPlainRows(a, b, joinColumns, n - 1);
    }
  }

  lemma LastFieldDecides(p: string, x: string, q: string, y: string)
    requires ',' !in x && ',' !in y && p + "," + x == q + "," + y
    ensures p == q && x == y
  {
    CommaPlaces(p, x, q, y);
    CommaPlaces(q, y, p, x);
    assert (p + "," + x)[..|p|] == p && (q + "," + y)[..|q|] == q;
    assert (p + "," + x)[|p| + 1..] == x && (q + "," + y)[|q| + 1..] == y;
  }

  lemma CommaPlaces(p: string, x: string, q: string, y: string)
    requires ',' !in y && p + "," + x == q + "," + y
    ensures |p| <= |q|
  {
    var s, t := p + "," + x, q + "," + y;
    assert s[|p|] == ',';
    forall k | |q| < k < |s|
      ensures s[k] != ','
    {
      assert t[k] == y[k - |q| - 1];
    }
  }

  // ---------------------------------------------------------------- with a comma

  /** The row with other texts in two neighbouring join columns. */
  function Resplit(a: seq<string>, joinColumns: seq<nat>, d: nat, x: string, y: string): seq<string>
    requires HasColumns(a, joinColumns) && d + 1 < |joinColumns|
  {
    a[joinColumns[d] := x][joinColumns[d + 1] := y]
  }

  /** Moving the border between two neighbouring values leaves the label as it is. */
  lemma {:induction false} ResplitKeepsLabel(a: seq<string>, joinColumns: seq<nat>, d: nat, x: string, y: string,
                                             n: nat)
    requires HasColumns(a, joinColumns) && Distinct(joinColumns) && d + 2 <= n <= |joinColumns|
    requires x + "," + y == a[joinColumns[d]] + "," + a[joinColumns[d + 1]]
    ensures LabelOf(Resplit(a, joinColumns, d, x, y), joinColumns, n) == LabelOf(a, joinColumns, n)
  {
    var b := Resplit(a, joinColumns, d, x, y);
    if n > d + 2 {
      ResplitKeepsLabel(a, joinColumns, d, x, y, n - 1);
    } else {
      SameValuesSameLabel(a, b, joinColumns, d);
      TwoFields(a, joinColumns, d);
      TwoFields(b, joinColumns, d);
    }
  }

  /** A label's last two values stand between commas. */
  lemma TwoFields(row: seq<string>, joinColumns: seq<nat>, d: nat)
    requires HasColumns(row, joinColumns) && d + 1 < |joinColumns|
    ensures var before := if d == 0 then "" else LabelOf(row, joinColumns, d) + ",";
      LabelOf(row, joinColumns, d + 2) == before + (row[joinColumns[d]] + "," + row[joinColumns[d + 1]])
  {
    LabelStep(row, joinColumns, d);
    LabelStep(row, joinColumns, d + 1);
    var before := if d == 0 then "" else LabelOf(row, joinColumns, d) + ",";
    assert before + row[joinColumns[d]] + "," + row[joinColumns[d + 1]]
      == before + (row[joinColumns[d]] + "," + row[joinColumns[d + 1]]);
  }

  /** A comma in a join value can as well be the one between two values. */
  lemma CommaCollides(a: seq<string>, joinColumns: seq<nat>) returns (b: seq<string>)
    requires HasColumns(a, joinColumns) && Distinct(joinColumns)
    requires |joinColumns| >= 2 && !NoCommas(a, joinColumns, |joinColumns|)
    ensures |b| == |a| && LabelOf(b, joinColumns, |joinColumns|) == LabelOf(a, joinColumns, |joinColumns|)
    ensures !SameValues(a, b, joinColumns, |joinColumns|)
  {
    var c :| 0 <= c < |joinColumns| && ',' in a[joinColumns[c]];
    var v := a[joinColumns[c]];
    var k :| 0 <= k < |v| && v[k] == ',';
    var p, q := v[..k], v[k + 1..];
    assert v == p + "," + q;
    var d, x, y;
    if c + 1 < |joinColumns| {
      d, x, y := c, p, q + "," + a[joinColumns[c + 1]];
    } else {
      d, x, y := c - 1, a[joinColumns[c - 1]] + "," + p, q;
    }
    assert x + "," + y == a[joinColumns[d]] + "," + a[joinColumns[d + 1]];
    b := Resplit(a, joinColumns, d, x, y);
    ResplitKeepsLabel(a, joinColumns, d, x, y, |joinColumns|);
    assert b[joinColumns[c]] != a[joinColumns[c]];
  }

  /** A row's label tells it from all rows with other join values if and only if there is only one join column
      or no join value of the row holds a comma, whatever the other rows hold. */
  lemma LabelsTellApart(a: seq<string>, joinColumns: seq<nat>)
    requires HasColumns(a, joinColumns) && Distinct(joinColumns)
    ensures TellsApart(a, joinColumns) <==> |joinColumns| <= 1 || NoCommas(a, joinColumns, |joinColumns|)
  {
    var n := |joinColumns|;
    if n >= 2 && !NoCommas(a, joinColumns, n) {
      var b := CommaCollides(a, joinColumns);
      assert !SameLabelSameValues(a, b, joinColumns);
    } else {
      forall b | HasColumns(b, joinColumns)
        ensures SameLabelSameValues(a, b, joinColumns)
      {
        PlainRowTellsApart(a, b, joinColumns);
      }
    }
  }

  lemma PlainRowTellsApart(a: seq<string>, b: seq<string>, joinColumns: seq<nat>)
    requires HasColumns(a, joinColumns) && HasColumns(b, joinColumns)
    requires |joinColumns| <= 1 || NoCommas(a, joinColumns, |joinColumns|)
    ensures SameLabelSameValues(a, b, joinColumns)
  {
    var n := |joinColumns|;
    if n >= 2 && LabelOf(a, joinColumns, n) == LabelOf(b, joinColumns, n) {
      LabelCommas(a, joinColumns, n);
      LabelCommas(b, joinColumns, n);
      LabelsOfPlainRows(a, b, joinColumns, n);
    }
  }
}
