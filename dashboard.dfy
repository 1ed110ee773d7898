/** The dashboard page's data layer: the course filter, the group counts behind
    the stacked bars and the pie chart, the four overview metrics, and the
    splitting of the demographic features into rows of three charts. */
module Dashboard {
  import opened Outcomes
  import opened Catalogs
  import opened Table

  // ---------------------------------------------------------------------------
  // Column access

  /** Why a dashboard computation stops: a column the table does not have
      (pandas' KeyError), or a course name outside the catalog (the
      IndexError of the reverse lookup). */
  datatype DashboardError = MissingColumn(column: string) | UnknownCourse(course: string)

  /** The first of `needed` that is not among the table's columns. */
  function FirstMissing(columns: seq<string>, needed: seq<string>): (r: Option<string>)
    ensures r.None? <==> forall i :: 0 <= i < |needed| ==> needed[i] in columns
    ensures r.Some? ==> r.value !in columns
    ensures r.Some? ==> exists j :: 0 <= j < |needed| && needed[j] == r.value && (forall i :: 0 <= i < j ==> needed[i] in columns)
  {
    if needed == [] then None
    else if needed[0] !in columns then Some(needed[0])
    else
      var r := FirstMissing(columns, needed[1..]);
      assert forall i :: 1 <= i < |needed| ==> needed[i] == needed[1..][i - 1];
      r
  }

  // ---------------------------------------------------------------------------
  // Course filter

  /** The select box's extra option that stands for the whole dataset. */
  const AllStudents := "All Students"

  /** `["All Students"] + list(course_mapping.values())`. */
  function CourseOptions(): seq<string> {
    [AllStudents] + Labels(CourseCatalog)
  }

  /** `data['Course'] == course_id` for one record of a table that has the
      column (an integral float cell compares equal to the code, a missing
      value never does). */
  predicate HasCourse(r: Row, code: int) {
    "Course" in r && IntValue(r["Course"]) == Some(code)
  }

  /** `data[data['Course'] == course_id]`: the records of one course. */
  function RowsOfCourse(rows: seq<Row>, code: int): (r: seq<Row>)
    ensures |r| <= |rows|
    ensures forall t :: 0 <= t < |r| ==> HasCourse(r[t], code) && r[t] in rows
  {
    if rows == [] then []
    else (if HasCourse(rows[0], code) then [rows[0]] else []) + RowsOfCourse(rows[1..], code)
  }

  /** The positions, from `start` on and in increasing order, of the records
      of one course. */
  ghost function CoursePositionsFrom(rows: seq<Row>, code: int, start: nat): seq<int>
    decreases |rows| - start
  {
    if start >= |rows| then []
    else (if HasCourse(rows[start], code) then [start] else []) + CoursePositionsFrom(rows, code, start + 1)
  }

  ghost function CoursePositions(rows: seq<Row>, code: int): seq<int> {
    CoursePositionsFrom(rows, code, 0)
  }

  lemma {:induction false} CoursePositionsInRange(rows: seq<Row>, code: int, start: nat)
    requires start <= |rows|
    ensures var r, ps := RowsOfCourse(rows[start..], code), CoursePositionsFrom(rows, code, start);
      |r| == |ps| && forall t :: 0 <= t < |ps| ==> start <= ps[t] < |rows| && r[t] == rows[ps[t]]
    decreases |rows| - start
  {
    if start < |rows| {
      CoursePositionsInRange(rows, code, start + 1);
      assert rows[start..][1..] == rows[start + 1..];
      var r, ps := RowsOfCourse(rows[start..], code), CoursePositionsFrom(rows, code, start);
      var r', ps' := RowsOfCourse(rows[start + 1..], code), CoursePositionsFrom(rows, code, start + 1);
      var here := HasCourse(rows[start], code);
      assert r == (if here then [rows[start]] else []) + r';
      assert ps == (if here then [start] else []) + ps';
    }
  }

  lemma {:induction false} CoursePositionsIncrease(rows: seq<Row>, code: int, start: nat)
    ensures forall t :: 0 <= t < |CoursePositionsFrom(rows, code, start)| ==> CoursePositionsFrom(rows, code, start)[t] >= start
    ensures forall t, u :: 0 <= t < u < |CoursePositionsFrom(rows, code, start)| ==>
      CoursePositionsFrom(rows, code, start)[t] < CoursePositionsFrom(rows, code, start)[u]
    decreases |rows| - start
  {
    if start < |rows| {
      CoursePositionsIncrease(rows, code, start + 1);
    }
  }

  lemma {:induction false} CoursePositionsExact(rows: seq<Row>, code: int, start: nat)
    ensures forall k :: start <= k < |rows| ==> (HasCourse(rows[k], code) <==> k in CoursePositionsFrom(rows, code, start))
    decreases |rows| - start
  {
    if start < |rows| {
      CoursePositionsExact(rows, code, start + 1);
      CoursePositionsIncrease(rows, code, start + 1);
      var ps' := CoursePositionsFrom(rows, code, start + 1);
      assert start !in ps';
    }
  }

  /** The filtered table is the order-preserving subsequence of the records
      of that course: kept records appear at increasing positions, and a record
      is kept exactly when its course is the code. */
  lemma RowsOfCourseIsSubsequence(rows: seq<Row>, code: int)
    ensures var r, ps := RowsOfCourse(rows, code), CoursePositions(rows, code);
      |r| == |ps| &&
      (forall t :: 0 <= t < |ps| ==> 0 <= ps[t] < |rows| && r[t] == rows[ps[t]]) &&
      (forall t, u :: 0 <= t < u < |ps| ==> ps[t] < ps[u]) &&
      (forall k :: 0 <= k < |rows| ==> (HasCourse(rows[k], code) <==> k in ps))
  {
    CoursePositionsInRange(rows, code, 0);
    CoursePositionsIncrease(rows, code, 0);
    CoursePositionsExact(rows, code, 0);
    assert rows[0..] == rows;
  }

  /** The `if selected_course == "All Students"` branch: the whole table, or
      the records whose code the reverse lookup of the course name gives. The
      lookup comes first, so a name outside the catalog fails even on a table
      without a `Course` column. */
  function FilterByCourse(columns: seq<string>, rows: seq<Row>, selected: string): Result<seq<Row>, DashboardError> {
    if selected == AllStudents then Ok(rows)
    else
      match ReverseLookup(CourseCatalog, selected)
      case None => Err(UnknownCourse(selected))
      case Some(code) => if "Course" !in columns then Err(MissingColumn("Course")) else Ok(RowsOfCourse(rows, code))
  }

  lemma AllStudentsIsNoCourse()
    ensures AllStudents !in Labels(CourseCatalog)
  {
    forall i | 0 <= i < |CourseCatalog| ensures Labels(CourseCatalog)[i] != AllStudents {
      assert Labels(CourseCatalog)[i] == CourseCatalog[i].1;
    }
  }

  /** The filter succeeds exactly on the options the select box offers, with
      a `Course` column needed for every option but "All Students"; "All
      Students" keeps the table unchanged; any other option keeps the records
      of the course that the option names. */
  lemma FilterByCourseMeaning(columns: seq<string>, rows: seq<Row>, selected: string)
    ensures FilterByCourse(columns, rows, selected).Ok? <==>
      selected in CourseOptions() && (selected == AllStudents || "Course" in columns)
    ensures selected !in CourseOptions() ==> FilterByCourse(columns, rows, selected) == Err(UnknownCourse(selected))
    ensures selected in CourseOptions() && selected != AllStudents && "Course" !in columns ==>
      FilterByCourse(columns, rows, selected) == Err(MissingColumn("Course"))
    ensures selected == AllStudents ==> FilterByCourse(columns, rows, selected) == Ok(rows)
    ensures selected != AllStudents && selected in CourseOptions() && "Course" in columns ==>
      exists code :: code in AsMap(CourseCatalog) && AsMap(CourseCatalog)[code] == selected &&
        FilterByCourse(columns, rows, selected) == Ok(RowsOfCourse(rows, code))
  {
    if selected != AllStudents && selected in CourseOptions() {
      assert selected in Labels(CourseCatalog);
      CourseLabelResolves(selected);
    }
  }

  lemma NursingCode()
    ensures ReverseLookup(CourseCatalog, "Nursing") == Some(9500)
  {
    CourseCatalogWellFormed();
    assert CourseCatalog[11] == (9500, "Nursing");
    LookupFindsItem(CourseCatalog, 11);
  }

  /** Choosing "Nursing" on a table with a `Course` column keeps exactly the
      records of code 9500, in order; on a table without one it fails with
      the missing column. */
  lemma NursingFilter(columns: seq<string>, rows: seq<Row>)
    ensures FilterByCourse(columns, rows, "Nursing") ==
      if "Course" in columns then Ok(RowsOfCourse(rows, 9500)) else Err(MissingColumn("Course"))
    ensures forall r :: r in RowsOfCourse(rows, 9500) ==> HasCourse(r, 9500)
    ensures forall k :: 0 <= k < |rows| && HasCourse(rows[k], 9500) ==> rows[k] in RowsOfCourse(rows, 9500)
  {
    NursingCode();
    var r := RowsOfCourse(rows, 9500);
    RowsOfCourseIsSubsequence(rows, 9500);
    forall k | 0 <= k < |rows| && HasCourse(rows[k], 9500) ensures rows[k] in r {
      var ps := CoursePositions(rows, 9500);
      var t :| 0 <= t < |ps| && ps[t] == k;
      assert r[t] == rows[k];
    }
  }

  // ---------------------------------------------------------------------------
  // Group counts: `groupby([...]).size()` and `value_counts()`

  /** One output row of a grouping: the key cells and the number of records. */
  datatype Group = Group(key: seq<Cell>, size: nat)

  /** A record's grouping key over `cols`; None when a key cell is NaN
      (pandas drops such records from the groups). A column the whole table
      lacks is not a NaN key but an error, which `GroupBy` reports; in a
      table whose records all have its columns, the `!in r` test never
      fires. Key cells are compared as values, so `Int(1)` and `Float(1.0)`
      would form two groups where pandas' hashing merges them; within one
      loaded column every cell has the same kind, and the relabelled keys
      are all text or NaN, so the two never meet in a key column. */
  function KeyOf(r: Row, cols: seq<string>): Option<seq<Cell>> {
    if cols == [] then Some([])
    else if cols[0] !in r || r[cols[0]] == Missing then None
    else
      match KeyOf(r, cols[1..])
      case None => None
      case Some(rest) => Some([r[cols[0]]] + rest)
  }

  /** Counts one more record of key `k`. */
  function Bump(gs: seq<Group>, k: seq<Cell>): seq<Group> {
    if gs == [] then [Group(k, 1)]
    else if gs[0].key == k then [Group(k, gs[0].size + 1)] + gs[1..]
    else [gs[0]] + Bump(gs[1..], k)
  }

  /** The group sizes of the records over `cols`, one entry per key that occurs. */
  function GroupSizes(rows: seq<Row>, cols: seq<string>): seq<Group> {
    if rows == [] then []
    else
      var gs := GroupSizes(rows[..|rows| - 1], cols);
      match KeyOf(rows[|rows| - 1], cols)
      case None => gs
      case Some(k) => Bump(gs, k)
  }

  /** `.get(key, 0)` on a grouping. */
  function SizeOf(gs: seq<Group>, k: seq<Cell>): nat {
    if gs == [] then 0 else if gs[0].key == k then gs[0].size else SizeOf(gs[1..], k)
  }

  /** The sum of the group sizes. */
  function Total(gs: seq<Group>): nat {
    if gs == [] then 0 else gs[0].size + Total(gs[1..])
  }

  /** The number of records with key `k` over `cols`. */
  function CountKey(rows: seq<Row>, cols: seq<string>, k: seq<Cell>): nat {
    if rows == [] then 0
    else CountKey(rows[..|rows| - 1], cols, k) + (if KeyOf(rows[|rows| - 1], cols) == Some(k) then 1 else 0)
  }

  /** The number of records that have a complete key over `cols`. */
  function CountKeyed(rows: seq<Row>, cols: seq<string>): nat {
    if rows == [] then 0
    else CountKeyed(rows[..|rows| - 1], cols) + (if KeyOf(rows[|rows| - 1], cols).Some? then 1 else 0)
  }

  /** The number of records whose column `col` holds `v`. */
  function CountCell(rows: seq<Row>, col: string, v: Cell): nat {
    if rows == [] then 0
    else CountCell(rows[..|rows| - 1], col, v) + (if col in rows[|rows| - 1] && rows[|rows| - 1][col] == v then 1 else 0)
  }

  ghost predicate DistinctKeys(gs: seq<Group>) {
    forall t, u :: 0 <= t < u < |gs| ==> gs[t].key != gs[u].key
  }

  ghost predicate AllPositive(gs: seq<Group>) {
    forall t :: 0 <= t < |gs| ==> gs[t].size > 0
  }

  lemma DistinctKeysTail(gs: seq<Group>)
    requires DistinctKeys(gs) && gs != []
    ensures DistinctKeys(gs[1..])
  {
    var tail := gs[1..];
    forall t, u | 0 <= t < u < |tail| ensures tail[t].key != tail[u].key {
      assert tail[t] == gs[t + 1] && tail[u] == gs[u + 1];
    }
  }

  /** Bumping keeps the keys distinct and the sizes positive, and adds no key but `k`. */
  lemma {:induction false} BumpKeys(gs: seq<Group>, k: seq<Cell>)
    requires DistinctKeys(gs) && AllPositive(gs)
    ensures DistinctKeys(Bump(gs, k)) && AllPositive(Bump(gs, k))
    ensures forall t :: 0 <= t < |Bump(gs, k)| ==> Bump(gs, k)[t].key == k || exists u :: 0 <= u < |gs| && gs[u].key == Bump(gs, k)[t].key
  {
    var b := Bump(gs, k);
    if gs != [] && gs[0].key != k {
      var tail := gs[1..];
      DistinctKeysTail(gs);
      BumpKeys(tail, k);
      var bt := Bump(tail, k);
      assert b == [gs[0]] + bt;
      assert forall t :: 1 <= t < |b| ==> b[t] == bt[t - 1];
      forall t | 1 <= t < |b| && b[t].key != k ensures exists u :: 0 <= u < |gs| && gs[u].key == b[t].key {
        var u :| 0 <= u < |tail| && tail[u].key == bt[t - 1].key;
        assert gs[u + 1].key == b[t].key;
      }
      forall u | 1 <= u < |b| ensures b[0].key != b[u].key {
        if b[u].key != k {
          var w :| 0 <= w < |tail| && tail[w].key == bt[u - 1].key;
          assert gs[w + 1].key == b[u].key;
        }
      }
    } else if gs != [] {
      assert forall t :: 1 <= t < |b| ==> b[t] == gs[t];
    }
  }

  /** Bumping adds one to the total. */
  lemma {:induction false} BumpTotal(gs: seq<Group>, k: seq<Cell>)
    ensures Total(Bump(gs, k)) == Total(gs) + 1
  {
    if gs != [] && gs[0].key != k {
      BumpTotal(gs[1..], k);
      assert Bump(gs, k)[1..] == Bump(gs[1..], k);
    } else if gs != [] {
      assert Bump(gs, k)[1..] == gs[1..];
    }
  }

  /** Bumping adds one to the size of `k` and leaves every other size alone. */
  lemma {:induction false} BumpSize(gs: seq<Group>, k: seq<Cell>, k': seq<Cell>)
    ensures SizeOf(Bump(gs, k), k') == SizeOf(gs, k') + (if k' == k then 1 else 0)
  {
    if gs != [] && gs[0].key != k {
      BumpSize(gs[1..], k, k');
      assert Bump(gs, k)[1..] == Bump(gs[1..], k);
    } else if gs != [] {
      assert Bump(gs, k)[1..] == gs[1..];
    }
  }

  /** The groups of `groupby(cols).size()`: no two with one key, every size
      positive, and the sizes summing to the number of records that have a
      complete key. */
  lemma {:induction false} GroupSizesMeaning(rows: seq<Row>, cols: seq<string>)
    ensures DistinctKeys(GroupSizes(rows, cols)) && AllPositive(GroupSizes(rows, cols))
    ensures Total(GroupSizes(rows, cols)) == CountKeyed(rows, cols)
  {
    if rows != [] {
      var init := rows[..|rows| - 1];
      GroupSizesMeaning(init, cols);
      match KeyOf(rows[|rows| - 1], cols)
      case None =>
      case Some(k) =>
        BumpKeys(GroupSizes(init, cols), k);
        BumpTotal(GroupSizes(init, cols), k);
    }
  }

  /** Looking a key up in the groups gives the number of records with that key
      (0 for a key that no record has). */
  lemma {:induction false} GroupSizeIsCount(rows: seq<Row>, cols: seq<string>, k: seq<Cell>)
    ensures SizeOf(GroupSizes(rows, cols), k) == CountKey(rows, cols, k)
  {
    if rows != [] {
      var init := rows[..|rows| - 1];
      GroupSizeIsCount(init, cols, k);
      match KeyOf(rows[|rows| - 1], cols)
      case None =>
      case Some(k0) => BumpSize(GroupSizes(init, cols), k0, k);
    }
  }

  lemma {:induction false} SizeOfEntry(gs: seq<Group>, t: int)
    requires DistinctKeys(gs) && 0 <= t < |gs|
    ensures SizeOf(gs, gs[t].key) == gs[t].size
  {
    if t > 0 {
      var tail := gs[1..];
      DistinctKeysTail(gs);
      assert tail[t - 1] == gs[t];
      SizeOfEntry(tail, t - 1);
      assert gs[0].key != gs[t].key;
    }
  }

  lemma {:induction false} SizeAtMostTotal(gs: seq<Group>, k: seq<Cell>)
    ensures SizeOf(gs, k) <= Total(gs)
  {
    if gs != [] {
      SizeAtMostTotal(gs[1..], k);
    }
  }

  /** Every group of the output counts exactly the records carrying its key. */
  lemma GroupEntriesAreCounts(rows: seq<Row>, cols: seq<string>)
    ensures var gs := GroupSizes(rows, cols);
      forall t :: 0 <= t < |gs| ==> gs[t].size == CountKey(rows, cols, gs[t].key) > 0
  {
    var gs := GroupSizes(rows, cols);
    GroupSizesMeaning(rows, cols);
    forall t | 0 <= t < |gs| ensures gs[t].size == CountKey(rows, cols, gs[t].key) > 0 {
      SizeOfEntry(gs, t);
      GroupSizeIsCount(rows, cols, gs[t].key);
    }
  }

  /** With no grouping key missing, every record is counted in some group. */
  lemma {:induction false} CountKeyedAll(rows: seq<Row>, cols: seq<string>)
    requires forall i :: 0 <= i < |rows| ==> KeyOf(rows[i], cols).Some?
    ensures CountKeyed(rows, cols) == |rows|
  {
    if rows != [] {
      CountKeyedAll(rows[..|rows| - 1], cols);
    }
  }

  lemma KeyOfSingle(r: Row, col: string)
    ensures KeyOf(r, [col]) == if col in r && r[col] != Missing then Some([r[col]]) else None
  {
    assert [col][1..] == [];
    assert KeyOf(r, []) == Some([]);
    if col in r && r[col] != Missing {
      assert [r[col]] + [] == [r[col]];
    }
  }

  lemma {:induction false} CountKeySingle(rows: seq<Row>, col: string, v: Cell)
    requires v != Missing
    ensures CountKey(rows, [col], [v]) == CountCell(rows, col, v)
  {
    if rows != [] {
      CountKeySingle(rows[..|rows| - 1], col, v);
      KeyOfSingle(rows[|rows| - 1], col);
    }
  }

  /** `ColumnCounts(rows, col)` is `rows[col].value_counts()` over the records
      of a table that has the column. */
  function ColumnCounts(rows: seq<Row>, col: string): seq<Group> {
    GroupSizes(rows, [col])
  }

  /** `groupby(cols).size()` on a table with the given columns: KeyError for
      the first key column the table lacks, otherwise the group sizes. */
  function GroupBy(columns: seq<string>, rows: seq<Row>, cols: seq<string>): (r: Result<seq<Group>, DashboardError>)
    ensures r.Ok? <==> forall i :: 0 <= i < |cols| ==> cols[i] in columns
    ensures r.Err? ==> r.error.MissingColumn? && r.error.column in cols && r.error.column !in columns
    ensures r.Ok? ==> r.value == GroupSizes(rows, cols)
  {
    match FirstMissing(columns, cols)
    case Some(c) => Err(MissingColumn(c))
    case None => Ok(GroupSizes(rows, cols))
  }

  /** `filtered_data.groupby([feature, 'Status']).size()`. */
  function DemographicGroups(columns: seq<string>, rows: seq<Row>, feature: string): Result<seq<Group>, DashboardError> {
    GroupBy(columns, rows, [feature, "Status"])
  }

  /** `filtered_data['Status'].value_counts()`; also `data[col].value_counts()`. */
  function ValueCounts(columns: seq<string>, rows: seq<Row>, col: string): Result<seq<Group>, DashboardError> {
    GroupBy(columns, rows, [col])
  }

  /** A stacked bar chart needs both columns; then, when no record has a NaN
      feature or outcome, it shows every record once: the groups are positive
      and add up to the number of records shown. */
  lemma DemographicGroupsSum(columns: seq<string>, rows: seq<Row>, feature: string)
    requires forall i :: 0 <= i < |rows| ==> KeyOf(rows[i], [feature, "Status"]).Some?
    ensures DemographicGroups(columns, rows, feature).Ok? <==> feature in columns && "Status" in columns
    ensures DemographicGroups(columns, rows, feature).Ok? ==>
      AllPositive(DemographicGroups(columns, rows, feature).value) &&
      Total(DemographicGroups(columns, rows, feature).value) == |rows|
  {
    GroupSizesMeaning(rows, [feature, "Status"]);
    CountKeyedAll(rows, [feature, "Status"]);
  }

  /** The slices of the outcome counts add up to the records when each has an
      outcome, and each slice is the number of records with it. */
  lemma StatusTally(rows: seq<Row>)
    requires forall i :: 0 <= i < |rows| ==> "Status" in rows[i] && rows[i]["Status"] != Missing
    ensures Total(ColumnCounts(rows, "Status")) == |rows|
    ensures forall v :: v != Missing ==> SizeOf(ColumnCounts(rows, "Status"), [v]) == CountCell(rows, "Status", v)
  {
    GroupSizesMeaning(rows, ["Status"]);
    forall i | 0 <= i < |rows| ensures KeyOf(rows[i], ["Status"]).Some? {
      KeyOfSingle(rows[i], "Status");
    }
    CountKeyedAll(rows, ["Status"]);
    forall v | v != Missing ensures SizeOf(ColumnCounts(rows, "Status"), [v]) == CountCell(rows, "Status", v) {
      GroupSizeIsCount(rows, ["Status"], [v]);
      CountKeySingle(rows, "Status", v);
    }
  }

  /** The pie chart needs a `Status` column; then its slices add up to the
      filtered table's records when each has an outcome, and each slice is the
      number of records with it. */
  lemma StatusCountsSum(columns: seq<string>, rows: seq<Row>)
    requires forall i :: 0 <= i < |rows| ==> "Status" in rows[i] && rows[i]["Status"] != Missing
    ensures ValueCounts(columns, rows, "Status").Ok? <==> "Status" in columns
    ensures ValueCounts(columns, rows, "Status").Ok? ==>
      Total(ValueCounts(columns, rows, "Status").value) == |rows| &&
      forall v :: v != Missing ==> SizeOf(ValueCounts(columns, rows, "Status").value, [v]) == CountCell(rows, "Status", v)
  {
    StatusTally(rows);
  }

  // ---------------------------------------------------------------------------
  // Overview metrics

  datatype Overview = Overview(totalStudents: nat, dropoutRate: real, specialNeeds: nat, totalGraduates: nat)

  /** `part` as a percentage of `whole`; no part is 0 % even of nothing. */
  function Percent(part: nat, whole: nat): real
    requires part <= whole
  {
    if part == 0 then 0.0 else 100.0 * part as real / whole as real
  }

  lemma {:induction false} PercentMeaning(part: nat, whole: nat)
    requires part <= whole
    ensures 0.0 <= Percent(part, whole) <= 100.0
    ensures Percent(part, whole) == 0.0 <==> part == 0
    ensures Percent(part, whole) * whole as real == 100.0 * part as real
  {
    if part > 0 {
      var p := 100.0 * part as real / whole as real;
      assert p * whole as real == 100.0 * part as real;
      assert part as real <= whole as real;
    }
  }

  /** The four metric tiles over the records of a table that has the
      columns, computed from value counts as the script does: the dropout
      rate is the Dropout share of the counted outcomes times 100, and 0 when
      no record is a Dropout. */
  function OverviewOf(rows: seq<Row>): Overview {
    var status := ColumnCounts(rows, "Status");
    var dropouts := SizeOf(status, [Text("Dropout")]);
    var rate := (SizeAtMostTotal(status, [Text("Dropout")]); Percent(dropouts, Total(status)));
    Overview(|rows|, rate, SizeOf(ColumnCounts(rows, "Educational_special_needs"), [Text("Yes")]),
      SizeOf(status, [Text("Graduate")]))
  }

  /** The tiles in the script's order: the dropout rate reads `Status` first,
      so a table without it fails there, and one with it but without
      `Educational_special_needs` fails at the third tile. */
  function OverviewMetrics(columns: seq<string>, rows: seq<Row>): (r: Result<Overview, DashboardError>)
    ensures r.Ok? <==> "Status" in columns && "Educational_special_needs" in columns
    ensures "Status" !in columns ==> r == Err(MissingColumn("Status"))
    ensures "Status" in columns && "Educational_special_needs" !in columns ==>
      r == Err(MissingColumn("Educational_special_needs"))
    ensures r.Ok? ==> r.value == OverviewOf(rows)
  {
    match ValueCounts(columns, rows, "Status")
    case Err(e) => Err(e)
    case Ok(_) =>
      match ValueCounts(columns, rows, "Educational_special_needs")
      case Err(e) => Err(e)
      case Ok(_) => Ok(OverviewOf(rows))
  }

  /** The count tiles are the reference counts over the table: the records,
      the records whose outcome is Graduate, and the records whose relabelled
      special-needs flag is Yes. */
  lemma OverviewCounts(rows: seq<Row>)
    ensures OverviewOf(rows).totalStudents == |rows|
    ensures OverviewOf(rows).totalGraduates == CountCell(rows, "Status", Text("Graduate"))
    ensures OverviewOf(rows).specialNeeds == CountCell(rows, "Educational_special_needs", Text("Yes"))
  {
    GroupSizeIsCount(rows, ["Status"], [Text("Graduate")]);
    CountKeySingle(rows, "Status", Text("Graduate"));
    GroupSizeIsCount(rows, ["Educational_special_needs"], [Text("Yes")]);
    CountKeySingle(rows, "Educational_special_needs", Text("Yes"));
  }

  /** The number of records whose `col` cell equals the integer `k` under
      Python's `==`. */
  function CountCoded(rows: seq<Row>, col: string, k: int): nat {
    if rows == [] then 0
    else CountCoded(rows[..|rows| - 1], col, k) + (if col in rows[|rows| - 1] && IntValue(rows[|rows| - 1][col]) == Some(k) then 1 else 0)
  }

  /** Counting the records whose cell is `v` in one table gives the count of
      those whose cell is coded `k` in another, when the two agree record by
      record on which ones qualify. */
  lemma {:induction false} CountCellOfCoded(rows: seq<Row>, raw: seq<Row>, col: string, v: Cell, k: int)
    requires |rows| == |raw|
    requires forall i :: 0 <= i < |raw| ==>
      ((col in rows[i] && rows[i][col] == v) <==> (col in raw[i] && IntValue(raw[i][col]) == Some(k)))
    ensures CountCell(rows, col, v) == CountCoded(raw, col, k)
  {
    if rows != [] {
      var n := |rows| - 1;
      CountCellOfCoded(rows[..n], raw[..n], col, v, k);
    }
  }

  /** The special-needs tile counts the loaded records whose raw flag is 1:
      the relabelling turns exactly those into "Yes". */
  lemma SpecialNeedsFromRaw(raw: seq<Row>)
    ensures OverviewOf(RelabelAll(raw, BinaryLabels)).specialNeeds == CountCoded(raw, "Educational_special_needs", 1)
  {
    var col := "Educational_special_needs";
    var rows := RelabelAll(raw, BinaryLabels);
    RelabelAllLength(raw, BinaryLabels);
    BinaryLabelsMeaning();
    assert BinaryLabels[3] == (col, map[1 := "Yes", 0 := "No"]);
    forall i | 0 <= i < |raw|
      ensures (col in rows[i] && rows[i][col] == Text("Yes")) <==> (col in raw[i] && IntValue(raw[i][col]) == Some(1))
    {
      RelabelAllAt(raw, BinaryLabels, i, col);
    }
    CountCellOfCoded(rows, raw, col, Text("Yes"), 1);
    OverviewCounts(rows);
  }

  /** The dropout rate is the percentage of Dropout records among the
      records that have an outcome. */
  lemma DropoutRateIsPercent(rows: seq<Row>)
    ensures CountCell(rows, "Status", Text("Dropout")) <= Total(ColumnCounts(rows, "Status"))
    ensures OverviewOf(rows).dropoutRate ==
      Percent(CountCell(rows, "Status", Text("Dropout")), Total(ColumnCounts(rows, "Status")))
  {
    var status := ColumnCounts(rows, "Status");
    GroupSizeIsCount(rows, ["Status"], [Text("Dropout")]);
    CountKeySingle(rows, "Status", Text("Dropout"));
    SizeAtMostTotal(status, [Text("Dropout")]);
  }

  /** The dropout rate lies in [0, 100] and is 0 exactly when no record is a
      Dropout. */
  lemma DropoutRateBounds(rows: seq<Row>)
    ensures 0.0 <= OverviewOf(rows).dropoutRate <= 100.0
    ensures OverviewOf(rows).dropoutRate == 0.0 <==> CountCell(rows, "Status", Text("Dropout")) == 0
  {
    DropoutRateIsPercent(rows);
    PercentMeaning(CountCell(rows, "Status", Text("Dropout")), Total(ColumnCounts(rows, "Status")));
  }

  /** When every record has an outcome, the dropout rate is the percentage
      of Dropout records among all records shown. */
  lemma DropoutRateExact(rows: seq<Row>)
    requires forall i :: 0 <= i < |rows| ==> "Status" in rows[i] && rows[i]["Status"] != Missing
    ensures CountCell(rows, "Status", Text("Dropout")) <= |rows|
    ensures OverviewOf(rows).dropoutRate == Percent(CountCell(rows, "Status", Text("Dropout")), |rows|)
  {
    StatusTally(rows);
    DropoutRateIsPercent(rows);
  }

  /** The dashboard over 100 records, 40 Dropout and 50 Graduate, shows a
      dropout rate of 40 and 50 graduates. */
  lemma DropoutRateExample(rows: seq<Row>)
    requires |rows| == 100
    requires forall i :: 0 <= i < |rows| ==> "Status" in rows[i] && rows[i]["Status"] != Missing
    requires CountCell(rows, "Status", Text("Dropout")) == 40
    requires CountCell(rows, "Status", Text("Graduate")) == 50
    ensures OverviewOf(rows).dropoutRate == 40.0
    ensures OverviewOf(rows).totalGraduates == 50
  {
    OverviewCounts(rows);
    DropoutRateExact(rows);
  }

  // ---------------------------------------------------------------------------
  // Layout chunking

  /** The seven features drawn as stacked bar charts. */
  const DemographicFeatures: seq<string> := [
    "Gender", "Daytime_evening_attendance", "Displaced", "Educational_special_needs",
    "Debtor", "Scholarship_holder", "International"
  ]

  /** The number of charts per layout row. */
  const ChartsPerRow := 3

  function Min(a: int, b: int): int {
    if a <= b then a else b
  }

  /** `[s[i:i + width] for i in range(start, len(s), width)]`. */
  function ChunksFrom<T>(s: seq<T>, width: nat, start: nat): seq<seq<T>>
    requires width > 0
    decreases |s| - start
  {
    if start >= |s| then [] else [s[start..Min(start + width, |s|)]] + ChunksFrom(s, width, start + width)
  }

  function Chunks<T>(s: seq<T>, width: nat): seq<seq<T>>
    requires width > 0
  {
    ChunksFrom(s, width, 0)
  }

  function Flatten<T>(ss: seq<seq<T>>): seq<T> {
    if ss == [] then [] else ss[0] + Flatten(ss[1..])
  }

  lemma {:induction false} ChunksFromMeaning<T>(s: seq<T>, width: nat, start: nat)
    requires width > 0 && start <= |s|
    ensures Flatten(ChunksFrom(s, width, start)) == s[start..]
    ensures forall t :: 0 <= t < |ChunksFrom(s, width, start)| ==> 0 < |ChunksFrom(s, width, start)[t]| <= width
    ensures forall t :: 0 <= t < |ChunksFrom(s, width, start)| - 1 ==> |ChunksFrom(s, width, start)[t]| == width
    decreases |s| - start
  {
    if start < |s| {
      var next := Min(start + width, |s|);
      var cs := ChunksFrom(s, width, start);
      if next < |s| {
        ChunksFromMeaning(s, width, next);
        assert cs[1..] == ChunksFrom(s, width, next);
        assert s[start..] == s[start..next] + s[next..];
      } else {
        assert ChunksFrom(s, width, next) == [];
        assert cs == [s[start..next]];
        assert Flatten(cs) == s[start..next] + Flatten(cs[1..]);
      }
    }
  }

  /** The layout rows: each holds at most `width` features and at least one,
      only the last may hold fewer than `width`, and read in order they give
      the feature list back. */
  lemma ChunksMeaning<T>(s: seq<T>, width: nat)
    requires width > 0
    ensures Flatten(Chunks(s, width)) == s
    ensures forall t :: 0 <= t < |Chunks(s, width)| ==> 0 < |Chunks(s, width)[t]| <= width
    ensures forall t :: 0 <= t < |Chunks(s, width)| - 1 ==> |Chunks(s, width)[t]| == width
  {
    ChunksFromMeaning(s, width, 0);
  }

  /** The seven demographic features make rows of 3, 3 and 1 charts. */
  lemma DemographicRows()
    ensures Chunks(DemographicFeatures, ChartsPerRow) ==
      [DemographicFeatures[..3], DemographicFeatures[3..6], ["International"]]
  {
    var s := DemographicFeatures;
    assert |s| == 7;
    assert ChunksFrom(s, 3, 9) == [];
    assert ChunksFrom(s, 3, 6) == [s[6..7]] + ChunksFrom(s, 3, 9);
    assert ChunksFrom(s, 3, 3) == [s[3..6]] + ChunksFrom(s, 3, 6);
    assert ChunksFrom(s, 3, 0) == [s[0..3]] + ChunksFrom(s, 3, 3);
    assert s[6..7] == ["International"];
  }
}
