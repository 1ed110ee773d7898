/** The in-memory student table of the dashboard script: one map from column
    name to cell per record, the relabelling of the binary-coded columns done
    right after loading, and the temporary `Status_Num` column added for the
    correlation chart and dropped again after it. */
module Table {
  import opened Outcomes

  /** One value of the table: an integer code, a float (grades, rates), a text
      label, or pandas' missing value (NaN). */
  datatype Cell = Int(i: int) | Float(x: real) | Text(s: string) | Missing

  /** One student record: column name to cell. */
  type Row = map<string, Cell>

  /** The integer a cell equals under Python's `==`: an integral float such as
      `1.0` equals the integer key `1`; text and NaN equal no integer. */
  function IntValue(c: Cell): Option<int> {
    match c
    case Int(i) => Some(i)
    case Float(x) => if x == x.Floor as real then Some(x.Floor) else None
    case Text(_) => None
    case Missing => None
  }

  /** `series.map(labels)` on one cell: the label of its integer value, and NaN
      for any value without an entry. */
  function LabelCell(c: Cell, labels: map<int, string>): Cell {
    match IntValue(c)
    case Some(k) => if k in labels then Text(labels[k]) else Missing
    case None => Missing
  }

  /** `data[column] = data[column].map(labels)` on a list of records. Records
      without the column are left as they are. */
  function RelabelColumn(rows: seq<Row>, column: string, labels: map<int, string>): seq<Row> {
    seq(|rows|, i requires 0 <= i < |rows| =>
      if column in rows[i] then rows[i][column := LabelCell(rows[i][column], labels)] else rows[i])
  }

  /** The relabelling of every column of `ms`, first item first. */
  function RelabelAll(rows: seq<Row>, ms: seq<(string, map<int, string>)>): seq<Row> {
    if ms == [] then rows
    else
      var last := ms[|ms| - 1];
      RelabelColumn(RelabelAll(rows, ms[..|ms| - 1]), last.0, last.1)
  }

  /** The relabelling keeps the number of records. */
  lemma {:induction false} RelabelAllLength(rows: seq<Row>, ms: seq<(string, map<int, string>)>)
    ensures |RelabelAll(rows, ms)| == |rows|
  {
    if ms != [] {
      RelabelAllLength(rows, ms[..|ms| - 1]);
    }
  }

  /** Relabelling by one more mapping relabels the result so far by it. */
  lemma RelabelAllStep(rows: seq<Row>, ms: seq<(string, map<int, string>)>, k: int)
    requires 0 <= k < |ms|
    ensures RelabelAll(rows, ms[..k + 1]) == RelabelColumn(RelabelAll(rows, ms[..k]), ms[k].0, ms[k].1)
  {
    assert ms[..k + 1][..k] == ms[..k];
  }

  ghost predicate DistinctColumns(ms: seq<(string, map<int, string>)>) {
    forall i, j :: 0 <= i < j < |ms| ==> ms[i].0 != ms[j].0
  }

  /** The seven binary-coded columns and their labels, in the script's order. */
  const BinaryLabels: seq<(string, map<int, string>)> := [
    ("Gender", map[1 := "Male", 0 := "Female"]),
    ("Daytime_evening_attendance", map[1 := "Daytime", 0 := "Evening"]),
    ("Displaced", map[1 := "Yes", 0 := "No"]),
    ("Educational_special_needs", map[1 := "Yes", 0 := "No"]),
    ("Debtor", map[1 := "Yes", 0 := "No"]),
    ("Scholarship_holder", map[1 := "Yes", 0 := "No"]),
    ("International", map[1 := "Yes", 0 := "No"])
  ]

  /** The name of the temporary column that holds the encoded outcome. */
  const StatusNum := "Status_Num"

  /** The ordinal encoding of the outcome used for correlations. */
  const StatusCodes: map<string, int> := map["Graduate" := 1, "Dropout" := 0, "Enrolled" := 2]

  /** `data['Status'].map(status_mapping)` on one cell: NaN for anything but the three outcomes. */
  function EncodeStatus(c: Cell): Cell {
    match c
    case Text(s) => if s in StatusCodes then Int(StatusCodes[s]) else Missing
    case _ => Missing
  }

  /** Every record gains (or has overwritten) the column `Status_Num`, holding
      the encoding of its `Status` cell (NaN when there is none). */
  function WithStatusNum(rows: seq<Row>): seq<Row> {
    seq(|rows|, i requires 0 <= i < |rows| =>
      rows[i][StatusNum := if "Status" in rows[i] then EncodeStatus(rows[i]["Status"]) else Missing])
  }

  /** `drop(columns=[name])` on the records. */
  function WithoutColumn(rows: seq<Row>, name: string): seq<Row> {
    seq(|rows|, i requires 0 <= i < |rows| => rows[i] - {name})
  }

  /** The column list with `name` removed. */
  function RemoveName(columns: seq<string>, name: string): seq<string> {
    if columns == [] then []
    else (if columns[0] == name then [] else [columns[0]]) + RemoveName(columns[1..], name)
  }

  // ---------------------------------------------------------------------------
  // Properties of the relabelling

  /** The relabelling keeps the number of records and each record's columns; a
      relabelled column holds the label of its old value (NaN where the value
      has no label); every other column is untouched. */
  lemma {:induction false} RelabelAllAt(rows: seq<Row>, ms: seq<(string, map<int, string>)>, i: int, col: string)
    requires DistinctColumns(ms) && 0 <= i < |rows|
    ensures |RelabelAll(rows, ms)| == |rows|
    ensures RelabelAll(rows, ms)[i].Keys == rows[i].Keys
    ensures forall k :: 0 <= k < |ms| && ms[k].0 == col && col in rows[i] ==>
      RelabelAll(rows, ms)[i][col] == LabelCell(rows[i][col], ms[k].1)
    ensures (forall k :: 0 <= k < |ms| ==> ms[k].0 != col) && col in rows[i] ==>
      RelabelAll(rows, ms)[i][col] == rows[i][col]
  {
    if ms != [] {
      var n := |ms| - 1;
      var init := ms[..n];
      assert DistinctColumns(init) by {
        forall a, b | 0 <= a < b < n ensures init[a].0 != init[b].0 {
          assert init[a] == ms[a] && init[b] == ms[b];
        }
      }
      RelabelAllAt(rows, init, i, col);
      forall k | 0 <= k < n ensures init[k] == ms[k] { }
    }
  }

  /** A one or zero in a binary-coded column becomes that column's label for it,
      and any other value (another integer, a non-integral float, text, NaN)
      becomes NaN. */
  lemma BinaryLabelsMeaning()
    ensures |BinaryLabels| == 7 && DistinctColumns(BinaryLabels)
    ensures forall k :: 0 <= k < 7 ==> BinaryLabels[k].1.Keys == {0, 1}
    ensures forall k :: 2 <= k < 7 ==> BinaryLabels[k].1 == map[1 := "Yes", 0 := "No"]
    ensures forall k, c :: 0 <= k < 7 && IntValue(c) != Some(0) && IntValue(c) != Some(1) ==>
      LabelCell(c, BinaryLabels[k].1) == Missing
    ensures LabelCell(Float(1.0), BinaryLabels[0].1) == Text("Male")
    ensures LabelCell(Int(0), BinaryLabels[1].1) == Text("Evening")
  {
    forall k, c | 0 <= k < 7 && IntValue(c) != Some(0) && IntValue(c) != Some(1)
      ensures LabelCell(c, BinaryLabels[k].1) == Missing
    {
      assert BinaryLabels[k].1.Keys == {0, 1};
    }
  }

  // ---------------------------------------------------------------------------
  // Properties of the temporary Status_Num column

  /** The three outcomes are encoded 1, 0 and 2 and nothing else has a code. */
  lemma EncodeStatusMeaning(c: Cell)
    ensures EncodeStatus(c) != Missing <==> c in {Text("Graduate"), Text("Dropout"), Text("Enrolled")}
    ensures EncodeStatus(Text("Graduate")) == Int(1)
    ensures EncodeStatus(Text("Dropout")) == Int(0)
    ensures EncodeStatus(Text("Enrolled")) == Int(2)
  {
  }

  /** Adding `Status_Num` to records that lack it and dropping it afterwards
      gives back the records exactly. */
  lemma AddThenDropRestores(rows: seq<Row>)
    requires forall i :: 0 <= i < |rows| ==> StatusNum !in rows[i]
    ensures WithoutColumn(WithStatusNum(rows), StatusNum) == rows
  {
    var back := WithoutColumn(WithStatusNum(rows), StatusNum);
    forall i | 0 <= i < |rows| ensures back[i] == rows[i] {
      assert back[i].Keys == rows[i].Keys;
    }
  }

  lemma {:induction false} RemoveNameAppended(columns: seq<string>, name: string)
    requires name !in columns
    ensures RemoveName(columns + [name], name) == columns
  {
    if columns != [] {
      assert (columns + [name])[1..] == columns[1..] + [name];
      RemoveNameAppended(columns[1..], name);
    }
  }

  lemma {:induction false} RemoveNameMembers(columns: seq<string>, name: string, x: string)
    ensures x in RemoveName(columns, name) <==> x in columns && x != name
  {
    if columns != [] {
      RemoveNameMembers(columns[1..], name, x);
    }
  }

  // ---------------------------------------------------------------------------
  // The loaded table, updated in place

  class Frame {
    var columns: seq<string>
    var rows: seq<Row>

    /** Column names are distinct and every record has exactly these columns. */
    ghost predicate Valid()
      reads this
    {
      (forall a, b :: 0 <= a < b < |columns| ==> columns[a] != columns[b]) &&
      forall i :: 0 <= i < |rows| ==> rows[i].Keys == set c | c in columns
    }

    constructor (columns: seq<string>, rows: seq<Row>)
      requires forall a, b :: 0 <= a < b < |columns| ==> columns[a] != columns[b]
      requires forall i :: 0 <= i < |rows| ==> rows[i].Keys == set c | c in columns
      ensures Valid() && this.columns == columns && this.rows == rows
    {
      this.columns := columns;
      this.rows := rows;
    }

    /** `data[column] = data[column].map(labels)`; `found` is false where pandas
        raises KeyError for a missing column, and then nothing changes. */
    method MapColumn(column: string, labels: map<int, string>) returns (found: bool)
      requires Valid()
      modifies this
      ensures Valid() && columns == old(columns)
      ensures found == (column in columns)
      ensures rows == if found then RelabelColumn(old(rows), column, labels) else old(rows)
    {
      found := column in columns;
      if found {
        var before := rows;
        rows := RelabelColumn(rows, column, labels);
        assert forall i :: 0 <= i < |rows| ==> rows[i].Keys == before[i].Keys;
      }
    }

    /** The loop `for column, mapping in ms`: each column is relabelled in
        turn. `ok` is false when a column is missing (the script stops with
        KeyError there). */
    method ApplyLabels(ms: seq<(string, map<int, string>)>) returns (ok: bool)
      requires Valid()
      modifies this
      ensures Valid() && columns == old(columns)
      ensures ok == forall k :: 0 <= k < |ms| ==> ms[k].0 in columns
      ensures ok ==> rows == RelabelAll(old(rows), ms)
    {
      var k := 0;
      ok := true;
      while k < |ms|
        invariant 0 <= k <= |ms|
        invariant Valid() && columns == old(columns)
        invariant forall j :: 0 <= j < k ==> ms[j].0 in columns
        invariant rows == RelabelAll(old(rows), ms[..k])
      {
        var before := rows;
        var found := MapColumn(ms[k].0, ms[k].1);
        if !found {
          ok := false;
          return;
        }
        assert rows == RelabelColumn(before, ms[k].0, ms[k].1);
        RelabelAllStep(old(rows), ms, k);
        k := k + 1;
      }
      assert ms[..k] == ms;
    }

    /** The loop over `mapping_dict` right after loading. */
    method ApplyBinaryLabels() returns (ok: bool)
      requires Valid()
      modifies this
      ensures Valid() && columns == old(columns)
      ensures ok == forall k :: 0 <= k < |BinaryLabels| ==> BinaryLabels[k].0 in columns
      ensures ok ==> rows == RelabelAll(old(rows), BinaryLabels)
    {
      ok := ApplyLabels(BinaryLabels);
    }

    /** `data['Status_Num'] = data['Status'].map(status_mapping)`; `found` is
        false where pandas raises KeyError for a missing `Status` column. */
    method AddStatusNum() returns (found: bool)
      requires Valid()
      modifies this
      ensures Valid()
      ensures found == ("Status" in old(columns))
      ensures found ==> rows == WithStatusNum(old(rows))
      ensures found ==> columns == if StatusNum in old(columns) then old(columns) else old(columns) + [StatusNum]
      ensures !found ==> rows == old(rows) && columns == old(columns)
    {
      found := "Status" in columns;
      if found {
        var before := rows;
        rows := WithStatusNum(rows);
        if StatusNum !in columns {
          columns := columns + [StatusNum];
        }
        assert forall i :: 0 <= i < |rows| ==> rows[i].Keys == before[i].Keys + {StatusNum};
      }
    }

    /** `data.drop(columns=[name], inplace=True)`; `found` is false where pandas
        raises KeyError, and then nothing changes. */
    method DropColumn(name: string) returns (found: bool)
      requires Valid()
      modifies this
      ensures Valid()
      ensures found == (name in old(columns))
      ensures found ==> rows == WithoutColumn(old(rows), name) && columns == RemoveName(old(columns), name)
      ensures !found ==> rows == old(rows) && columns == old(columns)
    {
      found := name in columns;
      if found {
        var before, cols := rows, columns;
        rows := WithoutColumn(rows, name);
        columns := RemoveName(columns, name);
        forall x ensures x in columns <==> x in cols && x != name {
          RemoveNameMembers(cols, name, x);
        }
        assert forall i :: 0 <= i < |rows| ==> rows[i].Keys == before[i].Keys - {name};
        RemoveNameDistinct(cols, name);
      }
    }

    /** What the correlation section does to the table: add `Status_Num`, use
        it, drop it. When the column was not there before, the table ends as
        it started. */
    method WithTemporaryStatusNum() returns (ok: bool)
      requires Valid() && StatusNum !in columns
      modifies this
      ensures Valid()
      ensures ok == ("Status" in old(columns))
      ensures rows == old(rows) && columns == old(columns)
    {
      ok := AddStatusNum();
      if ok {
        var dropped := DropColumn(StatusNum);
        assert dropped;
        AddThenDropRestores(old(rows));
        RemoveNameAppended(old(columns), StatusNum);
      }
    }
  }

  lemma {:induction false} RemoveNameDistinct(columns: seq<string>, name: string)
    requires forall a, b :: 0 <= a < b < |columns| ==> columns[a] != columns[b]
    ensures var r := RemoveName(columns, name); forall a, b :: 0 <= a < b < |r| ==> r[a] != r[b]
  {
    if columns != [] {
      var tail := columns[1..];
      assert forall a, b :: 0 <= a < b < |tail| ==> tail[a] == columns[a + 1] && tail[b] == columns[b + 1];
      RemoveNameDistinct(tail, name);
      RemoveNameMembers(tail, name, columns[0]);
      assert columns[0] !in tail;
    }
  }
}
