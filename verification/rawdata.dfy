/** The raw-telemetry page (frontend/src/pages/RawData.jsx): its CSV export, its
    zone/status/search filter, and the decision of which rows `reportFaults`
    sends to the server as log entries. */
module RawData {
  import opened Wrappers
  import opened Js
  import opened Seqs
  import opened Csv

  /** One table row: a substation's latest readings. */
  datatype Row = Row(
    zone: Value, substation: Value, load: Value,
    singlePhaseVoltage: Value, singlePhaseCurrent: Value,
    threePhaseVoltage: Value, threePhaseCurrent: Value,
    status: Value)

  // ---------------------------------------------------------------------------
  // CSV export

  const HEADERS: seq<string> := [
    "Zone", "Substation", "Load (kW)", "Single-phase V (V)", "Single-phase I (A)",
    "Three-phase V (V)", "Three-phase I (A)", "Status"]

  /** A row's eight columns, in header order. */
  function Columns(r: Row): (c: seq<Value>)
    ensures |c| == |HEADERS|
  {
    [ r.zone, r.substation, r.load, r.singlePhaseVoltage, r.singlePhaseCurrent,
      r.threePhaseVoltage, r.threePhaseCurrent, r.status ]
  }

  /** The eight values of a row's line, before escaping: every column but the
      first two falls back to `''` when absent. */
  function Cells(r: Row): seq<Value>
  {
    var cols := Columns(r);
    seq(|cols|, i requires 0 <= i < |cols| => if i < 2 then cols[i] else Coalesce(cols[i], Str("")))
  }

  /** What a row's line says, field by field: the text of each column, empty
      when the column is absent. */
  function CellTexts(r: Row): (t: seq<string>)
    ensures |t| == |HEADERS|
  {
    var cols := Columns(r);
    seq(|cols|, i requires 0 <= i < |cols| => CellText(cols[i]))
  }

  /** The table a CSV export denotes: one record per row. */
  function Table(rows: seq<Row>): (t: seq<seq<string>>)
    ensures |t| == |rows|
    ensures forall i :: 0 <= i < |rows| ==> t[i] == CellTexts(rows[i])
    ensures NoEmptyRecords(t)
  {
    if |rows| == 0 then [] else [CellTexts(rows[0])] + Table(rows[1..])
  }

  function RowLine(r: Row): string
  {
    Join(EscValues(Cells(r)), ",")
  }

  function RowLines(rows: seq<Row>): (r: seq<string>)
    ensures |r| == |rows|
    ensures forall i :: 0 <= i < |rows| ==> r[i] == RowLine(rows[i])
  {
    if |rows| == 0 then [] else [RowLine(rows[0])] + RowLines(rows[1..])
  }

  /** `rowsToCSV(rowsArr)`; `None` stands for a `null` or `undefined` argument.
      Read back, the text is the header record followed by one record per row
      holding that row's eight column texts. */
  function RowsToCsv(rows: Option<seq<Row>>): (csv: string)
    ensures Decode(csv) == Some([HEADERS] + Table(rows.GetOr([])))
    ensures rows.None? || rows == Some([]) ==> csv == Join(HEADERS, ",")
  {
    var rs := rows.GetOr([]);
    RowLinesDecode(rs);
    WriteTable(HEADERS, RowLines(rs))
  }

  lemma RowLinesDecode(rs: seq<Row>)
    ensures Decode(WriteTable(HEADERS, RowLines(rs))) == Some([HEADERS] + Table(rs))
  {
    HeaderEncoded();
    RowLinesEncoded(rs);
    DecodeTable(HEADERS, Table(rs), RowLines(rs));
  }

  /** A column that falls back to `''` reads back as the column's own text. */
  lemma CellTextCoalesce(v: Value)
    ensures Esc(Coalesce(v, Str(""))) == EscText(CellText(v))
  {
  }

  lemma RowLineEncoded(r: Row)
    ensures RowLine(r) == EncodeRecord(CellTexts(r))
  {
    var vs := Cells(r);
    var ts := CellTexts(r);
    forall i | 0 <= i < |vs| ensures Esc(vs[i]) == EscText(ts[i]) {
      if i >= 2 {
        CellTextCoalesce(Columns(r)[i]);
      }
    }
    EscValuesEscapeAll(vs, ts);
  }

  /** No header needs quoting, so the header line is the names joined by commas. */
  lemma HeaderEncoded()
    ensures EncodeRecord(HEADERS) == Join(HEADERS, ",")
  {
    HeadersPlain();
    EscapeAllPlain(HEADERS);
  }

  lemma HeadersPlain()
    ensures forall i :: 0 <= i < |HEADERS| ==> !NeedsQuoting(HEADERS[i])
  {
    ShortHeadersPlain();
    PhaseHeadersPlain();
  }

  lemma ShortHeadersPlain()
    ensures !NeedsQuoting("Zone") && !NeedsQuoting("Substation")
    ensures !NeedsQuoting("Load (kW)") && !NeedsQuoting("Status")
  {
    PlainText("Zone");
    PlainText("Substation");
    PlainText("Load (kW)");
    PlainText("Status");
  }

  lemma PhaseHeadersPlain()
    ensures !NeedsQuoting("Single-phase V (V)") && !NeedsQuoting("Single-phase I (A)")
    ensures !NeedsQuoting("Three-phase V (V)") && !NeedsQuoting("Three-phase I (A)")
  {
    PlainText("Single-phase V (V)");
    PlainText("Single-phase I (A)");
    PlainText("Three-phase V (V)");
    PlainText("Three-phase I (A)");
  }

  lemma {:induction false} RowLinesEncoded(rs: seq<Row>)
    ensures EncodeLines(Table(rs)) == RowLines(rs)
    decreases |rs|
  {
    if |rs| > 0 {
      var t := Table(rs);
      assert t[1..] == Table(rs[1..]);
      RowLinesEncoded(rs[1..]);
      RowLineEncoded(rs[0]);
    }
  }

  // ---------------------------------------------------------------------------
  // Filtering

  /** `(search || '').trim().toLowerCase()`. */
  function SearchKey(search: string): string
  {
    ToLower(Trim(search))
  }

  /** `String(v || '').toLowerCase()`. */
  function LowerText(v: Value): string
  {
    ToLower(JsString(Or(v, Str(""))))
  }

  predicate ZoneMatches(r: Row, zoneFilter: string)
  {
    zoneFilter == "all" || StrictEquals(r.zone, Str(zoneFilter))
  }

  predicate StatusMatches(r: Row, statusFilter: string)
  {
    statusFilter == "all" || LowerText(r.status) == statusFilter
  }

  predicate SearchMatches(r: Row, q: string)
  {
    q == "" || Includes(LowerText(r.substation), q) || Includes(LowerText(r.zone), q)
  }

  /** The `filteredRows` memo: the rows passing the zone selector, the status
      selector and the search box, in table order. */
  function FilteredRows(rows: Option<seq<Row>>, zoneFilter: string, statusFilter: string, search: string): (r: seq<Row>)
    ensures IsSubseq(r, rows.GetOr([]))
    ensures forall x :: x in r <==>
      && x in rows.GetOr([])
      && ZoneMatches(x, zoneFilter)
      && StatusMatches(x, statusFilter)
      && SearchMatches(x, SearchKey(search))
    ensures forall x :: x in rows.GetOr([]) ==>
      multiset(r)[x] == if ZoneMatches(x, zoneFilter) && StatusMatches(x, statusFilter) && SearchMatches(x, SearchKey(search))
                        then multiset(rows.GetOr([]))[x] else 0
  {
    var q := SearchKey(search);
    Filter(rows.GetOr([]), (x: Row) =>
      ZoneMatches(x, zoneFilter) && StatusMatches(x, statusFilter) && SearchMatches(x, q))
  }

  /** With both selectors on `all` and a blank search box every row is shown. */
  lemma FilteredRowsShowsAll(rows: seq<Row>, search: string)
    requires forall i :: 0 <= i < |search| ==> IsJsSpace(search[i])
    ensures FilteredRows(Some(rows), "all", "all", search) == rows
  {
    TrimEmptyIffBlank(search);
    FilterKeepsAll(rows, (x: Row) =>
      ZoneMatches(x, "all") && StatusMatches(x, "all") && SearchMatches(x, SearchKey(search)));
  }

  /** The status text is lower-cased before the comparison, so a status filter
      holding a capital letter matches no row. */
  lemma CapitalisedStatusFilterMatchesNothing(rows: seq<Row>, zoneFilter: string, statusFilter: string, search: string, k: int)
    requires statusFilter != "all"
    requires 0 <= k < |statusFilter| && 'A' <= statusFilter[k] <= 'Z'
    ensures FilteredRows(Some(rows), zoneFilter, statusFilter, search) == []
  {
  }

  // ---------------------------------------------------------------------------
  // Change detection in `reportFaults`

  /** The `${r.zone}::${r.substation}` key under which the last status is kept. */
  function RowKey(r: Row): string
  {
    JsString(r.zone) + "::" + JsString(r.substation)
  }

  /** No two rows share a key. */
  predicate DistinctKeys(rows: seq<Row>)
  {
    forall i, j :: 0 <= i < j < |rows| ==> RowKey(rows[i]) != RowKey(rows[j])
  }

  /** `status === 'fault' || status === 'warning'`. */
  predicate IsAlert(status: Value)
  {
    StrictEquals(status, Str("fault")) || StrictEquals(status, Str("warning"))
  }

  /** The outcome of one `reportFaults` call: the updated last-status map, and
      for each row whether a log entry was posted for it. */
  datatype Report = Report(recorded: map<string, Value>, posted: seq<bool>)

  /** `reportFaults(rowsArr)` against the last-status map `last`; `None` stands
      for an argument that is not an array, which is ignored. */
  function ReportFaults(rows: Option<seq<Row>>, last: map<string, Value>): (r: Report)
    ensures rows.None? ==> r == Report(last, [])
    ensures rows.Some? ==> |r.posted| == |rows.value|
    ensures rows.Some? ==> forall i :: 0 <= i < |r.posted| && r.posted[i] ==> IsAlert(rows.value[i].status)
  {
    match rows
    case None => Report(last, [])
    case Some(rs) => ReportAll(rs, last)
  }

  /** The map after one row: a changed status is recorded under the row's key. */
  function RecordedAfter(x: Row, last: map<string, Value>): (m: map<string, Value>)
    ensures forall k :: Get(m, k) == if k == RowKey(x) then x.status else Get(last, k)
  {
    if StrictEquals(Get(last, RowKey(x)), x.status) then last else last[RowKey(x) := x.status]
  }

  /** The loop over the rows: a row whose status equals the recorded one is
      skipped; otherwise its status is recorded and, when it is an alert, posted. */
  function ReportAll(rows: seq<Row>, last: map<string, Value>): (r: Report)
    ensures |r.posted| == |rows|
    ensures forall i :: 0 <= i < |rows| && r.posted[i] ==> IsAlert(rows[i].status)
  {
    if |rows| == 0 then Report(last, [])
    else
      var x := rows[0];
      var changed := !StrictEquals(Get(last, RowKey(x)), x.status);
      var rest := ReportAll(rows[1..], RecordedAfter(x, last));
      Report(rest.recorded, [changed && IsAlert(x.status)] + rest.posted)
  }

  /** The status of the last row keyed `k`, or `d` when no row has that key. */
  function LastStatus(rows: seq<Row>, k: string, d: Value): Value
  {
    if |rows| == 0 then d
    else if RowKey(rows[|rows| - 1]) == k then rows[|rows| - 1].status
    else LastStatus(rows[..|rows| - 1], k, d)
  }

  lemma {:induction false} LastStatusCons(x: Row, rows: seq<Row>, k: string, d: Value)
    ensures LastStatus([x] + rows, k, d) == LastStatus(rows, k, if RowKey(x) == k then x.status else d)
    decreases |rows|
  {
    if |rows| > 0 {
      var init := rows[..|rows| - 1];
      assert ([x] + rows)[..|rows|] == [x] + init;
      LastStatusCons(x, init, k, d);
    }
  }

  /** Every row's status is recorded: afterwards the map reads, for each key,
      the status of the last row with that key, and is unchanged elsewhere. */
  lemma {:induction false} ReportAllRecords(rows: seq<Row>, last: map<string, Value>)
    ensures forall k :: Get(ReportAll(rows, last).recorded, k) == LastStatus(rows, k, Get(last, k))
    decreases |rows|
  {
    if |rows| > 0 {
      var x := rows[0];
      var kx := RowKey(x);
      assert rows == [x] + rows[1..];
      var next := RecordedAfter(x, last);
      ReportAllRecords(rows[1..], next);
      forall k ensures Get(ReportAll(rows, last).recorded, k) == LastStatus(rows, k, Get(last, k)) {
        LastStatusCons(x, rows[1..], k, Get(last, k));
        assert Get(next, k) == if kx == k then x.status else Get(last, k);
      }
    }
  }

  /** A row is posted exactly when its status is an alert and differs from the
      status recorded for its key by the time the loop reaches it. */
  lemma {:induction false} ReportAllPosts(rows: seq<Row>, last: map<string, Value>)
    ensures forall i :: 0 <= i < |rows| ==>
      (ReportAll(rows, last).posted[i] <==>
        IsAlert(rows[i].status)
        && !StrictEquals(LastStatus(rows[..i], RowKey(rows[i]), Get(last, RowKey(rows[i]))), rows[i].status))
    decreases |rows|
  {
    if |rows| > 0 {
      var x := rows[0];
      var next := RecordedAfter(x, last);
      ReportAllPosts(rows[1..], next);
      forall i | 0 < i < |rows|
        ensures ReportAll(rows, last).posted[i] <==>
          IsAlert(rows[i].status)
          && !StrictEquals(LastStatus(rows[..i], RowKey(rows[i]), Get(last, RowKey(rows[i]))), rows[i].status)
      {
        PostedShift(rows, last, i);
        StatusShift(rows, last, i);
      }
    }
  }

  /** The loop's decision for a later row is taken in its second step. */
  lemma PostedShift(rows: seq<Row>, last: map<string, Value>, i: int)
    requires 0 < i < |rows|
    ensures ReportAll(rows, last).posted[i] == ReportAll(rows[1..], RecordedAfter(rows[0], last)).posted[i - 1]
  {
  }

  /** The status a later row is compared with, seen from the loop's second step. */
  lemma StatusShift(rows: seq<Row>, last: map<string, Value>, i: int)
    requires 0 < i < |rows|
    ensures var k := RowKey(rows[i]);
      LastStatus(rows[..i], k, Get(last, k)) == LastStatus(rows[1..][..i - 1], k, Get(RecordedAfter(rows[0], last), k))
  {
    assert rows[..i] == [rows[0]] + rows[1..][..i - 1];
    LastStatusAfter(rows[0], rows[1..][..i - 1], last, RowKey(rows[i]));
  }

  /** Reading the last status through the map the first row leaves behind. */
  lemma LastStatusAfter(x: Row, rows: seq<Row>, last: map<string, Value>, k: string)
    ensures LastStatus([x] + rows, k, Get(last, k)) == LastStatus(rows, k, Get(RecordedAfter(x, last), k))
  {
    LastStatusCons(x, rows, k, Get(last, k));
  }

  /** When the map already holds every row's status, with one row per key, the
      loop posts nothing and leaves the map as it is. */
  lemma {:induction false} ReportAllSilent(rows: seq<Row>, m: map<string, Value>)
    requires DistinctKeys(rows)
    requires forall i :: 0 <= i < |rows| ==> Get(m, RowKey(rows[i])) == rows[i].status
    ensures ReportAll(rows, m) == Report(m, seq(|rows|, _ => false))
    decreases |rows|
  {
    if |rows| > 0 {
      var x := rows[0];
      var k := RowKey(x);
      ReportAllSilent(rows[1..], m);
      if !StrictEquals(Get(m, k), x.status) {
        assert x.status.Obj? || x.status.Arr?;
        assert m[k := x.status] == m;
      }
      assert [false] + seq(|rows| - 1, _ => false) == seq(|rows|, _ => false);
    }
  }

  lemma {:induction false} LastStatusOfDistinct(rows: seq<Row>, i: int, d: Value)
    requires DistinctKeys(rows)
    requires 0 <= i < |rows|
    ensures LastStatus(rows, RowKey(rows[i]), d) == rows[i].status
    decreases |rows|
  {
    var n := |rows| - 1;
    if i < n {
      LastStatusOfDistinct(rows[..n], i, d);
    }
  }

  /** Reporting an unchanged list of distinct rows a second time posts nothing
      and leaves the last-status map unchanged. */
  lemma ReReportPostsNothing(rows: seq<Row>, last: map<string, Value>)
    requires DistinctKeys(rows)
    ensures var m := ReportFaults(Some(rows), last).recorded;
      ReportFaults(Some(rows), m) == Report(m, seq(|rows|, _ => false))
  {
    var m := ReportAll(rows, last).recorded;
    ReportAllRecords(rows, last);
    forall i | 0 <= i < |rows| ensures Get(m, RowKey(rows[i])) == rows[i].status {
      LastStatusOfDistinct(rows, i, Get(last, RowKey(rows[i])));
    }
    ReportAllSilent(rows, m);
  }

  /** On the first report (nothing recorded yet), every alert row of a list of
      distinct rows is posted, and nothing else. */
  lemma FirstReportPostsAlerts(rows: seq<Row>)
    requires DistinctKeys(rows)
    ensures forall i :: 0 <= i < |rows| ==>
      (ReportFaults(Some(rows), map[]).posted[i] <==> IsAlert(rows[i].status))
  {
    ReportAllPosts(rows, map[]);
    forall i | 0 <= i < |rows|
      ensures LastStatus(rows[..i], RowKey(rows[i]), Undefined) == Undefined
    {
      LastStatusAbsent(rows[..i], RowKey(rows[i]), Undefined);
      forall j | 0 <= j < i ensures RowKey(rows[..i][j]) != RowKey(rows[i]) {
      }
    }
  }

  lemma {:induction false} LastStatusAbsent(rows: seq<Row>, k: string, d: Value)
    requires forall j :: 0 <= j < |rows| ==> RowKey(rows[j]) != k
    ensures LastStatus(rows, k, d) == d
    decreases |rows|
  {
    if |rows| > 0 {
      LastStatusAbsent(rows[..|rows| - 1], k, d);
    }
  }

  /** With two rows under one key the map ends on the second status, so a
      second report of the same list posts the first row again. */
  lemma DuplicateKeyPostsAgain()
    ensures var a := Row(Str("Z"), Str("S"), Null, Null, Null, Null, Null, Str("fault"));
      var b := a.(status := Str("ok"));
      var m := ReportFaults(Some([a, b]), map[]).recorded;
      ReportFaults(Some([a, b]), m).posted == [true, false]
  {
    var a := Row(Str("Z"), Str("S"), Null, Null, Null, Null, Null, Str("fault"));
    var b := a.(status := Str("ok"));
    var k := RowKey(a);
    assert k == "Z::S";
    assert [a, b][1..] == [b];
    assert ReportAll([b], map[k := Str("fault")]).recorded == map[k := Str("ok")];
    var m := map[k := Str("ok")];
    assert ReportAll([a, b], map[]).recorded == m;
    assert ReportAll([b], m[k := Str("fault")]).posted == [false];
  }

  /** The key joins zone and substation with `::` and no escaping, so two
      different substations can share one last-status entry. */
  lemma KeysCanCollide()
    ensures var x := Row(Str("a::b"), Str("c"), Null, Null, Null, Null, Null, Str("ok"));
      var y := Row(Str("a"), Str("b::c"), Null, Null, Null, Null, Null, Str("ok"));
      RowKey(x) == RowKey(y) && x.zone != y.zone
  {
    assert "a::b" + "::" + "c" == "a" + "::" + "b::c";
  }
}
