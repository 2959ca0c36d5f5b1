/** The system-logs page (frontend/src/pages/Logs.jsx): its status/search
    filter and its CSV export. The filter reads the zone, substation and message
    with `(v || '').toLowerCase()`, which throws when the value is a truthy
    non-string; `FilteredAsWritten` models that, `Filtered` is the filter with
    the `String(...)` conversion the status test and the raw-telemetry page use. */
module LogsPage {
  import opened Wrappers
  import opened Js
  import opened Seqs
  import opened Csv
  import Server

  /** One entry of the page's list: the five fields it keeps from each log. */
  datatype Item = Item(time: Value, zone: Value, substation: Value, status: Value, message: Value)

  /** The list the page builds from the server's log entries. */
  function ItemOf(e: Server.LogStore.Entry, isoTime: string): Item
  {
    Item(Str(isoTime), e.zone, e.substation, e.status, e.message)
  }

  // ---------------------------------------------------------------------------
  // Filtering

  /** `(search || '').trim().toLowerCase()`. */
  function SearchKey(search: string): string
  {
    ToLower(Trim(search))
  }

  /** `String(v || '').toLowerCase()`. */
  function LowerText(v: Value): string
  {
    ToLower(JsString(Or(v, Str(""))))
  }

  predicate StatusMatches(l: Item, statusFilter: string)
  {
    statusFilter == "all" || LowerText(l.status) == statusFilter
  }

  predicate SearchMatches(l: Item, q: string)
  {
    q == "" || Includes(LowerText(l.zone), q) || Includes(LowerText(l.substation), q) || Includes(LowerText(l.message), q)
  }

  /** The `filtered` memo with every field converted by `String`: the entries
      passing the status selector and the search box, in list order. */
  function Filtered(list: seq<Item>, statusFilter: string, search: string): (r: seq<Item>)
    ensures IsSubseq(r, list)
    ensures forall l :: l in r <==>
      l in list && StatusMatches(l, statusFilter) && SearchMatches(l, SearchKey(search))
    ensures forall l :: l in list ==>
      multiset(r)[l] == if StatusMatches(l, statusFilter) && SearchMatches(l, SearchKey(search))
                        then multiset(list)[l] else 0
  {
    var q := SearchKey(search);
    Filter(list, (l: Item) => StatusMatches(l, statusFilter) && SearchMatches(l, q))
  }

  /** With status `all` and a blank search box the whole list is shown. */
  lemma FilteredShowsAll(list: seq<Item>, search: string)
    requires forall i :: 0 <= i < |search| ==> IsJsSpace(search[i])
    ensures Filtered(list, "all", search) == list
  {
    TrimEmptyIffBlank(search);
    FilterKeepsAll(list, (l: Item) => StatusMatches(l, "all") && SearchMatches(l, SearchKey(search)));
  }

  /** `(v || '').toLowerCase()`: `None` when it throws, because `v` is truthy
      but not a string. */
  function LowerOrThrow(v: Value): (r: Option<string>)
    ensures r.None? <==> Truthy(v) && !v.Str?
    ensures r.Some? ==> r.value == LowerText(v)
  {
    var w := Or(v, Str(""));
    if w.Str? then Some(ToLower(w.s)) else None
  }

  /** The filter callback as written, for one entry; `None` when it throws.
      The three searches run left to right and stop at the first hit. */
  function KeepAsWritten(l: Item, statusFilter: string, q: string): Option<bool>
  {
    if statusFilter != "all" && LowerText(l.status) != statusFilter then Some(false)
    else if q == "" then Some(true)
    else match LowerOrThrow(l.zone)
      case None => None
      case Some(z) =>
        if Includes(z, q) then Some(true)
        else match LowerOrThrow(l.substation)
          case None => None
          case Some(s) =>
            if Includes(s, q) then Some(true)
            else match LowerOrThrow(l.message)
              case None => None
              case Some(m) => Some(Includes(m, q))
  }

  /** The callback as written, as a test: it accepts the entry without throwing. */
  function AcceptsAsWritten(statusFilter: string, q: string): Item -> bool
  {
    l => KeepAsWritten(l, statusFilter, q) == Some(true)
  }

  /** Whether the callback as written throws for some entry of `list`. */
  predicate ThrowsOnSome(list: seq<Item>, statusFilter: string, q: string)
    ensures ThrowsOnSome(list, statusFilter, q) <==>
      exists i :: 0 <= i < |list| && KeepAsWritten(list[i], statusFilter, q).None?
    decreases |list|
  {
    if |list| == 0 then false
    else
      assert forall i :: 1 <= i < |list| ==> list[i] == list[1..][i - 1];
      KeepAsWritten(list[0], statusFilter, q).None? || ThrowsOnSome(list[1..], statusFilter, q)
  }

  /** `list.filter(...)` as written: `None` when the callback throws for some
      entry, which aborts the page's render. */
  function FilteredAsWritten(list: seq<Item>, statusFilter: string, search: string): (r: Option<seq<Item>>)
    ensures r.None? <==> ThrowsOnSome(list, statusFilter, SearchKey(search))
    ensures r.Some? ==> r.value == Filter(list, AcceptsAsWritten(statusFilter, SearchKey(search)))
    decreases |list|
  {
    if |list| == 0 then Some([])
    else
      var q := SearchKey(search);
      match KeepAsWritten(list[0], statusFilter, q)
      case None => None
      case Some(keep) =>
        match FilteredAsWritten(list[1..], statusFilter, search)
        case None => None
        case Some(rest) => Some(if keep then [list[0]] + rest else rest)
  }

  /** A field the search reads safely: a string, or a falsy value. */
  predicate Textual(v: Value)
  {
    !Truthy(v) || v.Str?
  }

  /** When every zone, substation and message is text or absent, the filter as
      written never throws and keeps exactly what `Filtered` keeps. */
  lemma {:induction false} AsWrittenAgreesOnText(list: seq<Item>, statusFilter: string, search: string)
    requires forall i :: 0 <= i < |list| ==>
      Textual(list[i].zone) && Textual(list[i].substation) && Textual(list[i].message)
    ensures FilteredAsWritten(list, statusFilter, search) == Some(Filtered(list, statusFilter, search))
    decreases |list|
  {
    if |list| > 0 {
      AsWrittenAgreesOnText(list[1..], statusFilter, search);
      KeepOnText(list[0], statusFilter, SearchKey(search));
    }
  }

  lemma KeepOnText(l: Item, statusFilter: string, q: string)
    requires Textual(l.zone) && Textual(l.substation) && Textual(l.message)
    ensures KeepAsWritten(l, statusFilter, q) == Some(StatusMatches(l, statusFilter) && SearchMatches(l, q))
  {
  }

  /** The server stores whatever truthy `zone` a log request carries, a number
      included; listing that entry makes the page's filter throw as soon as the
      search box holds anything, while the corrected filter simply does not
      match it. */
  lemma NumericZoneBreaksSearch(st: Server.State, now: int, parseTime: Value -> Option<int>, isoTime: string)
    ensures var r := Server.PostLog(st, map["zone" := Num(7)], now, parseTime);
      && r.code == 200
      && FilteredAsWritten([ItemOf(r.body.entry, isoTime)], "all", "x") == None
      && Filtered([ItemOf(r.body.entry, isoTime)], "all", "x") == []
  {
    ServerStoresNumericZone(st, now, parseTime);
    NumericZoneItem(Server.PostLog(st, map["zone" := Num(7)], now, parseTime).body.entry, isoTime);
  }

  lemma ServerStoresNumericZone(st: Server.State, now: int, parseTime: Value -> Option<int>)
    ensures var r := Server.PostLog(st, map["zone" := Num(7)], now, parseTime);
      && r.code == 200 && r.body.LogStored?
      && r.body.entry.zone == Num(7) && r.body.entry.substation == Null && r.body.entry.message == Str("")
  {
  }

  lemma NumericZoneItem(e: Server.LogStore.Entry, isoTime: string)
    requires e.zone == Num(7) && e.substation == Null && e.message == Str("")
    ensures FilteredAsWritten([ItemOf(e, isoTime)], "all", "x") == None
    ensures Filtered([ItemOf(e, isoTime)], "all", "x") == []
  {
    var l := ItemOf(e, isoTime);
    SearchKeyOfX();
    assert KeepAsWritten(l, "all", "x") == None;
    LowerTextOfSeven();
    LacksX("7");
    LacksX("");
    assert !SearchMatches(l, "x");
    assert l !in Filtered([l], "all", "x");
  }

  lemma SearchKeyOfX()
    ensures SearchKey("x") == "x"
  {
    assert TrimStart("x") == "x";
    assert TrimEnd("x") == "x";
  }

  lemma LowerTextOfSeven()
    ensures LowerText(Num(7)) == "7" && LowerText(Null) == "" && LowerText(Str("")) == ""
  {
    assert NatToDecimal(7) == "7";
  }

  /** A text without the letter `x` does not include `"x"`. */
  lemma LacksX(s: string)
    requires forall i :: 0 <= i < |s| ==> s[i] != 'x'
    ensures !Includes(s, "x")
  {
    forall i | 0 <= i <= |s| ensures !OccursAt(s, "x", i) {
      if i + 1 <= |s| {
        assert s[i..i + 1][0] == s[i];
      }
    }
  }

  // ---------------------------------------------------------------------------
  // CSV export

  const CSV_HEADERS: seq<string> := ["Time", "Message"]

  /** `[l.time, l.message || '']`. */
  function CsvCells(l: Item): seq<Value>
  {
    [l.time, Or(l.message, Str(""))]
  }

  /** What an entry's line says: its time and its message, empty when falsy. */
  function CsvTexts(l: Item): (t: seq<string>)
    ensures |t| == 2
  {
    [CellText(l.time), if Truthy(l.message) then JsString(l.message) else ""]
  }

  function CsvTable(list: seq<Item>): (t: seq<seq<string>>)
    ensures |t| == |list|
    ensures forall i :: 0 <= i < |list| ==> t[i] == CsvTexts(list[i])
    ensures NoEmptyRecords(t)
  {
    if |list| == 0 then [] else [CsvTexts(list[0])] + CsvTable(list[1..])
  }

  function CsvLine(l: Item): string
  {
    Join(EscValues(CsvCells(l)), ",")
  }

  function CsvLines(list: seq<Item>): (r: seq<string>)
    ensures |r| == |list|
    ensures forall i :: 0 <= i < |list| ==> r[i] == CsvLine(list[i])
  {
    if |list| == 0 then [] else [CsvLine(list[0])] + CsvLines(list[1..])
  }

  /** `csv()`: the export of the whole list, whatever the filter shows. Read
      back, it is the `Time,Message` header followed by one record per entry. */
  function LogsCsv(list: seq<Item>): (csv: string)
    ensures Decode(csv) == Some([CSV_HEADERS] + CsvTable(list))
    ensures list == [] ==> csv == "Time,Message"
  {
    CsvHeaderEncoded();
    CsvLinesEncoded(list);
    DecodeWithHeader(CSV_HEADERS, "Time,Message", CsvTable(list), CsvLines(list));
    WriteLines("Time,Message", CsvLines(list))
  }

  lemma CsvLineEncoded(l: Item)
    ensures CsvLine(l) == EncodeRecord(CsvTexts(l))
  {
    var vs := CsvCells(l);
    var ts := CsvTexts(l);
    forall i | 0 <= i < 2 ensures Esc(vs[i]) == EscText(ts[i]) {
    }
    EscValuesEscapeAll(vs, ts);
  }

  lemma {:induction false} CsvLinesEncoded(list: seq<Item>)
    ensures EncodeLines(CsvTable(list)) == CsvLines(list)
    decreases |list|
  {
    if |list| > 0 {
      assert CsvTable(list)[1..] == CsvTable(list[1..]);
      CsvLinesEncoded(list[1..]);
      CsvLineEncoded(list[0]);
    }
  }

  lemma CsvHeaderEncoded()
    ensures EncodeRecord(CSV_HEADERS) == "Time,Message"
  {
    assert !NeedsQuoting("Time") && !NeedsQuoting("Message");
    EscapeAllPlain(CSV_HEADERS);
  }
}
