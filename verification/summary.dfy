/** `GET /logs/summary` (backend/server.js): the last N calendar days, oldest
    first, and for every zone that has entries on those days its count per day
    and its total. Days are UTC calendar days, numbered from the epoch; the
    `YYYY-MM-DD` strings of the source are these numbers written as dates. */
module Summary {
  import opened Js
  import opened Seqs
  import opened Tally
  import opened LogStore
  import opened Wrappers

  /** The `?days` query after `parseInt(req.query.days || '30', 10)`: absent or
      empty, a number, or text that parses to `NaN`. */
  datatype DaysQuery = Absent | Parsed(n: int) | NotANumber

  /** The values `i` takes in `for (i = start; i >= 0; i--)`, in order. */
  function Countdown(start: int): (r: seq<int>)
    ensures |r| == if start >= 0 then start + 1 else 0
    ensures forall j :: 0 <= j < |r| ==> r[j] == start - j
    decreases start
  {
    if start < 0 then [] else [start] + Countdown(start - 1)
  }

  /** How many days the loop `for (i = days - 1; i >= 0; i--)` produces: as many
      as the count asks for, 30 by default, and none for a count below one. A
      `NaN` count makes the loop's condition false at once. */
  function DayCount(q: DaysQuery): (n: nat)
    ensures q.Absent? ==> n == 30
    ensures q.Parsed? ==> n == if q.n > 0 then q.n else 0
    ensures q.NotANumber? ==> n == 0
  {
    match q
    case Absent => |Countdown(30 - 1)|
    case Parsed(d) => |Countdown(d - 1)|
    case NotANumber => 0
  }

  /** The UTC calendar day of an instant, which `toISOString().slice(0, 10)`
      names for the years 0 to 9999. Division rounds down, as days before the
      epoch need. */
  function DayOf(ms: int): int
  {
    ms / DAY_MS
  }

  lemma DayOfShift(ms: int, i: int)
    ensures DayOf(ms - i * DAY_MS) == DayOf(ms) - i
  {
    var q := ms / DAY_MS;
    var r := ms % DAY_MS;
    assert ms - i * DAY_MS == (q - i) * DAY_MS + r;
  }

  /** The day `k` days before the day of `now`: `new Date(now - k * DAY_MS)`. */
  function DaysBefore(now: int, k: int): (d: int)
    ensures d == DayOf(now) - k
  {
    DayOfShift(now, k);
    DayOf(now - k * DAY_MS)
  }

  /** The day list: day `j` of `n` is the day of `now - (n - 1 - j)` days. */
  function DayList(n: nat, now: int): (r: seq<int>)
    ensures |r| == n
    ensures forall j :: 0 <= j < n ==> r[j] == DayOf(now) - n + 1 + j
    // the j-th push is the day of the loop's j-th index
    ensures forall j :: 0 <= j < n ==> r[j] == DaysBefore(now, Countdown(n - 1)[j])
    ensures Distinct(r)
  {
    seq(n, j requires 0 <= j < n => DaysBefore(now, n - 1 - j))
  }

  /** The running record of one zone: its key, the zone value of its first
      entry (what the reply shows), and its per-day counter. */
  datatype ZoneAcc = ZoneAcc(key: string, zone: Value, perDay: Counts<int>)

  /** One zone of the reply. */
  datatype ZoneRow = ZoneRow(zone: Value, counts: seq<nat>, total: nat)

  datatype Report = Report(days: seq<int>, zones: seq<ZoneRow>)

  function AccKeys(acc: seq<ZoneAcc>): (r: seq<string>)
    ensures |r| == |acc|
    ensures forall i :: 0 <= i < |acc| ==> r[i] == acc[i].key
  {
    if |acc| == 0 then [] else [acc[0].key] + AccKeys(acc[1..])
  }

  /** Every per-day counter has distinct keys. */
  predicate CountersWellFormed(acc: seq<ZoneAcc>)
  {
    forall i :: 0 <= i < |acc| ==> Distinct(Keys(acc[i].perDay))
  }

  function IndexOfKey(acc: seq<ZoneAcc>, key: string): (i: int)
    ensures -1 <= i < |acc|
    ensures i >= 0 ==> acc[i].key == key
    ensures i < 0 ==> key !in AccKeys(acc)
  {
    if |acc| == 0 then -1
    else if acc[|acc| - 1].key == key then |acc| - 1
    else
      var i := IndexOfKey(acc[..|acc| - 1], key);
      assert AccKeys(acc) == AccKeys(acc[..|acc| - 1]) + [acc[|acc| - 1].key];
      i
  }

  /** The body of `storedLogs.forEach`: skip an entry dated outside the day list,
      otherwise count it for its zone, creating the zone on its first entry. */
  function Step(acc: seq<ZoneAcc>, e: Entry, days: seq<int>): (r: seq<ZoneAcc>)
    requires CountersWellFormed(acc)
    ensures CountersWellFormed(r)
  {
    var d := DayOf(e.time);
    if d !in days then acc
    else
      var key := JsString(e.zone);
      var i := IndexOfKey(acc, key);
      if i >= 0 then
        assert Distinct(Keys(acc[i].perDay));
        BumpDistinct(acc[i].perDay, d);
        var a := acc[i].(perDay := Bump(acc[i].perDay, d));
        CountersUpdate(acc, i, a);
        acc[i := a]
      else
        assert Keys<int>([]) == [];
        BumpDistinct([], d);
        var a := ZoneAcc(key, e.zone, Bump([], d));
        CountersSnoc(acc, a);
        acc + [a]
  }

  lemma CountersUpdate(acc: seq<ZoneAcc>, i: nat, a: ZoneAcc)
    requires i < |acc|
    requires CountersWellFormed(acc) && Distinct(Keys(a.perDay))
    ensures CountersWellFormed(acc[i := a])
  {
  }

  lemma CountersSnoc(acc: seq<ZoneAcc>, a: ZoneAcc)
    requires CountersWellFormed(acc) && Distinct(Keys(a.perDay))
    ensures CountersWellFormed(acc + [a])
  {
  }

  /** The zone table after the first `|logs|` entries. */
  function Accumulate(logs: seq<Entry>, days: seq<int>): (r: seq<ZoneAcc>)
    ensures CountersWellFormed(r)
  {
    if |logs| == 0 then []
    else Step(Accumulate(logs[..|logs| - 1], days), logs[|logs| - 1], days)
  }

  /** The in-window days of the entries of the zone keyed `key`, in log order. */
  function KeyDays(logs: seq<Entry>, key: string, days: seq<int>): (r: seq<int>)
    ensures forall d :: d in r ==> d in days
  {
    if |logs| == 0 then []
    else
      var e := logs[|logs| - 1];
      KeyDays(logs[..|logs| - 1], key, days)
        + (if JsString(e.zone) == key && DayOf(e.time) in days then [DayOf(e.time)] else [])
  }

  /** The number of entries of the zone keyed `key` dated on day `d`. */
  function CountOn(logs: seq<Entry>, key: string, d: int): nat
  {
    |Filter(logs, (e: Entry) => JsString(e.zone) == key && DayOf(e.time) == d)|
  }

  /** The running record of one zone agrees with the log read so far. */
  ghost predicate RowMatches(a: ZoneAcc, logs: seq<Entry>, days: seq<int>)
  {
    && JsString(a.zone) == a.key
    && (forall d :: Lookup(a.perDay, d) == Occ(KeyDays(logs, a.key, days), d))
    && Sum(Values(a.perDay)) == |KeyDays(logs, a.key, days)|
  }

  /** Every running record agrees with the log read so far. */
  ghost predicate RowsMatch(acc: seq<ZoneAcc>, logs: seq<Entry>, days: seq<int>)
  {
    forall j :: 0 <= j < |acc| ==> RowMatches(acc[j], logs, days)
  }

  /** `keys` are exactly the zone keys with an entry on a listed day. */
  ghost predicate KeysCovered(keys: seq<string>, logs: seq<Entry>, days: seq<int>)
  {
    forall k :: k in keys <==> |KeyDays(logs, k, days)| > 0
  }

  /** What the zone table knows after any prefix of the log. */
  ghost predicate TableInvariant(acc: seq<ZoneAcc>, logs: seq<Entry>, days: seq<int>)
  {
    && Distinct(AccKeys(acc))
    && RowsMatch(acc, logs, days)
    && KeysCovered(AccKeys(acc), logs, days)
  }

  lemma {:induction false} AccumulateInvariant(logs: seq<Entry>, days: seq<int>)
    ensures TableInvariant(Accumulate(logs, days), logs, days)
    decreases |logs|
  {
    if |logs| == 0 {
      EmptyTableInvariant(days);
    } else {
      var init := logs[..|logs| - 1];
      var e := logs[|logs| - 1];
      AccumulateInvariant(init, days);
      AccumulateExtends(init, e, days);
      assert init + [e] == logs;
    }
  }

  lemma EmptyTableInvariant(days: seq<int>)
    ensures TableInvariant([], [], days)
  {
    assert AccKeys([]) == [];
  }

  /** One more entry keeps the table invariant. */
  lemma AccumulateExtends(init: seq<Entry>, e: Entry, days: seq<int>)
    requires TableInvariant(Accumulate(init, days), init, days)
    ensures TableInvariant(Accumulate(init + [e], days), init + [e], days)
  {
    assert (init + [e])[..|init|] == init;
    assert Accumulate(init + [e], days) == Step(Accumulate(init, days), e, days);
    StepInvariant(Accumulate(init, days), init, e, days);
  }

  lemma KeyDaysSnoc(logs: seq<Entry>, e: Entry, days: seq<int>, k: string)
    ensures KeyDays(logs + [e], k, days) == KeyDays(logs, k, days)
      + (if JsString(e.zone) == k && DayOf(e.time) in days then [DayOf(e.time)] else [])
  {
    assert (logs + [e])[..|logs|] == logs;
  }

  lemma RowUnaffected(a: ZoneAcc, logs: seq<Entry>, e: Entry, days: seq<int>)
    requires RowMatches(a, logs, days)
    requires a.key != JsString(e.zone) || DayOf(e.time) !in days
    ensures RowMatches(a, logs + [e], days)
  {
    KeyDaysSnoc(logs, e, days, a.key);
  }

  lemma RowBumped(a: ZoneAcc, logs: seq<Entry>, e: Entry, days: seq<int>)
    requires RowMatches(a, logs, days)
    requires a.key == JsString(e.zone) && DayOf(e.time) in days
    ensures RowMatches(a.(perDay := Bump(a.perDay, DayOf(e.time))), logs + [e], days)
  {
    var d := DayOf(e.time);
    var kd := KeyDays(logs, a.key, days);
    var b := a.(perDay := Bump(a.perDay, d));
    BumpCounts(a.perDay, d);
    KeyDaysSnoc(logs, e, days, a.key);
    assert KeyDays(logs + [e], a.key, days) == kd + [d];
    assert multiset(kd + [d]) == multiset(kd) + multiset{d};
    forall x ensures Lookup(b.perDay, x) == Occ(kd + [d], x) {
      assert Lookup(a.perDay, x) == Occ(kd, x);
    }
    assert Sum(Values(b.perDay)) == |kd + [d]|;
  }

  lemma RowCreated(logs: seq<Entry>, e: Entry, days: seq<int>)
    requires |KeyDays(logs, JsString(e.zone), days)| == 0
    requires DayOf(e.time) in days
    ensures RowMatches(ZoneAcc(JsString(e.zone), e.zone, Bump([], DayOf(e.time))), logs + [e], days)
  {
    var d := DayOf(e.time);
    KeyDaysSnoc(logs, e, days, JsString(e.zone));
    assert KeyDays(logs + [e], JsString(e.zone), days) == [d];
    BumpCounts([], d);
    assert Keys<int>([]) == [];
    assert Sum(Values<int>([])) == 0;
    forall x ensures Lookup<int>([], x) == 0 {
    }
  }

  lemma StepInvariant(acc: seq<ZoneAcc>, logs: seq<Entry>, e: Entry, days: seq<int>)
    requires CountersWellFormed(acc)
    requires TableInvariant(acc, logs, days)
    ensures TableInvariant(Step(acc, e, days), logs + [e], days)
  {
    var d := DayOf(e.time);
    var i := IndexOfKey(acc, JsString(e.zone));
    StepShape(acc, e, days);
    if d !in days {
      StepSkip(acc, logs, e, days);
    } else if i >= 0 {
      StepExisting(acc, i, logs, e, days);
    } else {
      StepNew(acc, logs, e, days);
    }
  }

  /** The three outcomes of `Step`, one per branch of its body. */
  lemma StepShape(acc: seq<ZoneAcc>, e: Entry, days: seq<int>)
    requires CountersWellFormed(acc)
    ensures DayOf(e.time) !in days ==> Step(acc, e, days) == acc
    ensures DayOf(e.time) in days && IndexOfKey(acc, JsString(e.zone)) >= 0 ==>
      var i := IndexOfKey(acc, JsString(e.zone));
      Step(acc, e, days) == acc[i := acc[i].(perDay := Bump(acc[i].perDay, DayOf(e.time)))]
    ensures DayOf(e.time) in days && IndexOfKey(acc, JsString(e.zone)) < 0 ==>
      Step(acc, e, days) == acc + [ZoneAcc(JsString(e.zone), e.zone, Bump([], DayOf(e.time)))]
  {
  }

  lemma StepSkip(acc: seq<ZoneAcc>, logs: seq<Entry>, e: Entry, days: seq<int>)
    requires TableInvariant(acc, logs, days)
    requires DayOf(e.time) !in days
    ensures TableInvariant(acc, logs + [e], days)
  {
    forall k ensures KeyDays(logs + [e], k, days) == KeyDays(logs, k, days) {
      KeyDaysSnoc(logs, e, days, k);
    }
    forall j | 0 <= j < |acc| ensures RowMatches(acc[j], logs + [e], days) {
      RowUnaffected(acc[j], logs, e, days);
    }
  }

  lemma StepExisting(acc: seq<ZoneAcc>, i: nat, logs: seq<Entry>, e: Entry, days: seq<int>)
    requires i < |acc| && acc[i].key == JsString(e.zone)
    requires TableInvariant(acc, logs, days)
    requires DayOf(e.time) in days
    ensures TableInvariant(acc[i := acc[i].(perDay := Bump(acc[i].perDay, DayOf(e.time)))], logs + [e], days)
  {
    var r := acc[i := acc[i].(perDay := Bump(acc[i].perDay, DayOf(e.time)))];
    AccKeysUpdate(acc, i, r[i]);
    assert JsString(e.zone) in AccKeys(acc);
    KeysAfterExisting(AccKeys(acc), logs, e, days);
    RowsAfterExisting(acc, i, logs, e, days);
  }

  /** Replacing a record by one with the same key leaves the key list alone. */
  lemma AccKeysUpdate(acc: seq<ZoneAcc>, i: nat, a: ZoneAcc)
    requires i < |acc| && a.key == acc[i].key
    ensures AccKeys(acc[i := a]) == AccKeys(acc)
  {
  }

  lemma AccKeysSnoc(acc: seq<ZoneAcc>, a: ZoneAcc)
    ensures AccKeys(acc + [a]) == AccKeys(acc) + [a.key]
  {
  }

  lemma KeysAfterExisting(keys: seq<string>, logs: seq<Entry>, e: Entry, days: seq<int>)
    requires KeysCovered(keys, logs, days)
    requires JsString(e.zone) in keys
    ensures KeysCovered(keys, logs + [e], days)
  {
    forall k ensures k in keys <==> |KeyDays(logs + [e], k, days)| > 0 {
      KeyDaysSnoc(logs, e, days, k);
    }
  }

  lemma RowsAfterExisting(acc: seq<ZoneAcc>, i: nat, logs: seq<Entry>, e: Entry, days: seq<int>)
    requires i < |acc| && acc[i].key == JsString(e.zone) && DayOf(e.time) in days
    requires Distinct(AccKeys(acc))
    requires RowsMatch(acc, logs, days)
    ensures RowsMatch(acc[i := acc[i].(perDay := Bump(acc[i].perDay, DayOf(e.time)))], logs + [e], days)
  {
    var r := acc[i := acc[i].(perDay := Bump(acc[i].perDay, DayOf(e.time)))];
    forall j | 0 <= j < |r| ensures RowMatches(r[j], logs + [e], days) {
      if j == i {
        RowBumped(acc[i], logs, e, days);
      } else {
        assert AccKeys(acc)[j] != AccKeys(acc)[i];
        RowUnaffected(acc[j], logs, e, days);
      }
    }
  }

  lemma StepNew(acc: seq<ZoneAcc>, logs: seq<Entry>, e: Entry, days: seq<int>)
    requires TableInvariant(acc, logs, days)
    requires DayOf(e.time) in days
    requires JsString(e.zone) !in AccKeys(acc)
    ensures TableInvariant(acc + [ZoneAcc(JsString(e.zone), e.zone, Bump([], DayOf(e.time)))], logs + [e], days)
  {
    var key := JsString(e.zone);
    AccKeysSnoc(acc, ZoneAcc(key, e.zone, Bump([], DayOf(e.time))));
    DistinctSnoc(AccKeys(acc), key);
    KeysAfterNew(AccKeys(acc), logs, e, days);
    RowsAfterNew(acc, logs, e, days);
  }

  lemma KeysAfterNew(keys: seq<string>, logs: seq<Entry>, e: Entry, days: seq<int>)
    requires KeysCovered(keys, logs, days)
    requires DayOf(e.time) in days
    ensures KeysCovered(keys + [JsString(e.zone)], logs + [e], days)
  {
    forall k ensures k in keys + [JsString(e.zone)] <==> |KeyDays(logs + [e], k, days)| > 0 {
      KeyDaysSnoc(logs, e, days, k);
    }
  }

  lemma RowsAfterNew(acc: seq<ZoneAcc>, logs: seq<Entry>, e: Entry, days: seq<int>)
    requires DayOf(e.time) in days
    requires JsString(e.zone) !in AccKeys(acc)
    requires KeysCovered(AccKeys(acc), logs, days)
    requires RowsMatch(acc, logs, days)
    ensures RowsMatch(acc + [ZoneAcc(JsString(e.zone), e.zone, Bump([], DayOf(e.time)))], logs + [e], days)
  {
    var r := acc + [ZoneAcc(JsString(e.zone), e.zone, Bump([], DayOf(e.time)))];
    assert |KeyDays(logs, JsString(e.zone), days)| == 0;
    forall j | 0 <= j < |r| ensures RowMatches(r[j], logs + [e], days) {
      if j == |acc| {
        RowCreated(logs, e, days);
      } else {
        assert acc[j].key in AccKeys(acc);
        RowUnaffected(acc[j], logs, e, days);
      }
    }
  }

  /** For a day of the list, the per-day count the table keeps is the number of
      the zone's entries dated that day. */
  lemma {:induction false} KeyDaysCount(logs: seq<Entry>, key: string, days: seq<int>, d: int)
    requires d in days
    ensures Occ(KeyDays(logs, key, days), d) == CountOn(logs, key, d)
    decreases |logs|
  {
    var p := (e: Entry) => JsString(e.zone) == key && DayOf(e.time) == d;
    if |logs| == 0 {
    } else {
      var init := logs[..|logs| - 1];
      var e := logs[|logs| - 1];
      assert init + [e] == logs;
      KeyDaysCount(init, key, days, d);
      FilterAppend(init, [e], p);
      var extra := if JsString(e.zone) == key && DayOf(e.time) in days then [DayOf(e.time)] else [];
      assert KeyDays(logs, key, days) == KeyDays(init, key, days) + extra;
      assert multiset(KeyDays(init, key, days) + extra) == multiset(KeyDays(init, key, days)) + multiset(extra);
      assert Occ(extra, d) == |Filter([e], p)|;
      assert CountOn(logs, key, d) == CountOn(init, key, d) + |Filter([e], p)|;
    }
  }

  /** `dayList.map(d => z.counts[d] || 0)`. */
  function ReadCounts(t: Counts<int>, ds: seq<int>): (r: seq<nat>)
    ensures |r| == |ds|
    ensures forall j :: 0 <= j < |ds| ==> r[j] == Lookup(t, ds[j])
  {
    if |ds| == 0 then [] else [Lookup(t, ds[0])] + ReadCounts(t, ds[1..])
  }

  lemma {:induction false} ReadCountsSum(t: Counts<int>, ds: seq<int>, kd: seq<int>)
    requires forall x :: Lookup(t, x) == Occ(kd, x)
    ensures Sum(ReadCounts(t, ds)) == SumOcc(ds, kd)
    decreases |ds|
  {
    if |ds| > 0 {
      ReadCountsSum(t, ds[1..], kd);
      assert ReadCounts(t, ds)[1..] == ReadCounts(t, ds[1..]);
    }
  }

  /** One zone of the reply, from its running record. */
  function Row(a: ZoneAcc, days: seq<int>): ZoneRow
  {
    var total := Sum(Values(a.perDay));
    ZoneRow(a.zone, ReadCounts(a.perDay, days), if total >= 0 then total else 0)
  }

  function Rows(acc: seq<ZoneAcc>, days: seq<int>): (r: seq<ZoneRow>)
    ensures |r| == |acc|
    ensures forall i :: 0 <= i < |acc| ==> r[i] == Row(acc[i], days)
  {
    if |acc| == 0 then [] else [Row(acc[0], days)] + Rows(acc[1..], days)
  }

  /** The zone key of every row, in reply order. */
  function RowKeys(zones: seq<ZoneRow>): (r: seq<string>)
    ensures |r| == |zones|
    ensures forall i :: 0 <= i < |zones| ==> r[i] == JsString(zones[i].zone)
  {
    if |zones| == 0 then [] else [JsString(zones[0].zone)] + RowKeys(zones[1..])
  }

  /** `GET /logs/summary?days` at time `now`. */
  function Summarize(logs: seq<Entry>, q: DaysQuery, now: int): (r: Report)
    // the day list: N consecutive days, oldest first, ending today
    ensures |r.days| == DayCount(q)
    ensures forall j :: 0 <= j < |r.days| ==> r.days[j] == DayOf(now) - |r.days| + 1 + j
    // one row per zone with an entry on one of those days, and no other rows
    ensures Distinct(RowKeys(r.zones))
    ensures forall e :: e in logs && DayOf(e.time) in r.days ==> JsString(e.zone) in RowKeys(r.zones)
    ensures forall i :: 0 <= i < |r.zones| ==>
      exists e :: e in logs && DayOf(e.time) in r.days && JsString(e.zone) == RowKeys(r.zones)[i]
    // counts aligned with the days; entries on other days are not counted
    ensures forall i :: 0 <= i < |r.zones| ==>
      && |r.zones[i].counts| == |r.days|
      && (forall j :: 0 <= j < |r.days| ==> r.zones[i].counts[j] == CountOn(logs, RowKeys(r.zones)[i], r.days[j]))
      && r.zones[i].total == Sum(r.zones[i].counts)
    // each row shows the zone value of its zone's first entry on a listed day
    ensures forall i :: 0 <= i < |r.zones| ==> FirstZone(logs, RowKeys(r.zones)[i], r.days) == Some(r.zones[i].zone)
  {
    var days := DayList(DayCount(q), now);
    var acc := Accumulate(logs, days);
    AccumulateInvariant(logs, days);
    var zones := Rows(acc, days);
    SummaryFacts(logs, days, acc, zones);
    SummaryZones(logs, days, acc, zones);
    Report(days, zones)
  }

  lemma SummaryFacts(logs: seq<Entry>, days: seq<int>, acc: seq<ZoneAcc>, zones: seq<ZoneRow>)
    requires Distinct(days)
    requires TableInvariant(acc, logs, days)
    requires zones == Rows(acc, days)
    ensures RowKeys(zones) == AccKeys(acc)
    ensures Distinct(RowKeys(zones))
    ensures forall e :: e in logs && DayOf(e.time) in days ==> JsString(e.zone) in RowKeys(zones)
    ensures forall i :: 0 <= i < |zones| ==>
      exists e :: e in logs && DayOf(e.time) in days && JsString(e.zone) == RowKeys(zones)[i]
    ensures forall i :: 0 <= i < |zones| ==>
      && |zones[i].counts| == |days|
      && (forall j :: 0 <= j < |days| ==> zones[i].counts[j] == CountOn(logs, RowKeys(zones)[i], days[j]))
      && zones[i].total == Sum(zones[i].counts)
  {
    RowKeysOfRows(logs, days, acc, zones);
    SummaryCovers(logs, days, AccKeys(acc));
    forall i | 0 <= i < |zones|
      ensures exists e :: e in logs && DayOf(e.time) in days && JsString(e.zone) == RowKeys(zones)[i]
    {
      assert RowKeys(zones)[i] in AccKeys(acc);
    }
    SummaryCounts(logs, days, acc, zones);
  }

  /** A row's zone key is its record's key. */
  lemma RowKeysOfRows(logs: seq<Entry>, days: seq<int>, acc: seq<ZoneAcc>, zones: seq<ZoneRow>)
    requires RowsMatch(acc, logs, days)
    requires zones == Rows(acc, days)
    ensures RowKeys(zones) == AccKeys(acc)
  {
    forall i | 0 <= i < |acc| ensures RowKeys(zones)[i] == AccKeys(acc)[i] {
      assert RowMatches(acc[i], logs, days);
    }
  }

  /** The keys that cover the log are exactly the zones with a listed entry. */
  lemma SummaryCovers(logs: seq<Entry>, days: seq<int>, keys: seq<string>)
    requires KeysCovered(keys, logs, days)
    ensures forall e :: e in logs && DayOf(e.time) in days ==> JsString(e.zone) in keys
    ensures forall k :: k in keys ==>
      exists e :: e in logs && DayOf(e.time) in days && JsString(e.zone) == k
  {
    forall e | e in logs && DayOf(e.time) in days ensures JsString(e.zone) in keys {
      KeyDaysHas(logs, e, days);
    }
    forall k | k in keys
      ensures exists e :: e in logs && DayOf(e.time) in days && JsString(e.zone) == k
    {
      KeyDaysFrom(logs, k, days);
    }
  }

  /** Every reply row counts its zone's entries per listed day. */
  lemma SummaryCounts(logs: seq<Entry>, days: seq<int>, acc: seq<ZoneAcc>, zones: seq<ZoneRow>)
    requires Distinct(days)
    requires RowsMatch(acc, logs, days)
    requires zones == Rows(acc, days)
    requires RowKeys(zones) == AccKeys(acc)
    ensures forall i :: 0 <= i < |zones| ==>
      && |zones[i].counts| == |days|
      && (forall j :: 0 <= j < |days| ==> zones[i].counts[j] == CountOn(logs, RowKeys(zones)[i], days[j]))
      && zones[i].total == Sum(zones[i].counts)
  {
    forall i | 0 <= i < |zones|
      ensures && |zones[i].counts| == |days|
              && (forall j :: 0 <= j < |days| ==> zones[i].counts[j] == CountOn(logs, RowKeys(zones)[i], days[j]))
              && zones[i].total == Sum(zones[i].counts)
    {
      assert RowMatches(acc[i], logs, days);
      RowFacts(acc[i], logs, days);
    }
  }

  /** A reply row counts, for each listed day, the zone's entries of that day,
      and its total is the sum of those counts. */
  lemma RowFacts(a: ZoneAcc, logs: seq<Entry>, days: seq<int>)
    requires Distinct(days)
    requires RowMatches(a, logs, days)
    ensures forall j :: 0 <= j < |days| ==> Row(a, days).counts[j] == CountOn(logs, a.key, days[j])
    ensures Row(a, days).total == Sum(Row(a, days).counts)
  {
    var kd := KeyDays(logs, a.key, days);
    forall j | 0 <= j < |days| ensures Row(a, days).counts[j] == CountOn(logs, a.key, days[j]) {
      KeyDaysCount(logs, a.key, days, days[j]);
    }
    ReadCountsSum(a.perDay, days, kd);
    SumOccCovers(days, kd);
  }

  lemma {:induction false} KeyDaysHas(logs: seq<Entry>, e: Entry, days: seq<int>)
    requires e in logs && DayOf(e.time) in days
    ensures |KeyDays(logs, JsString(e.zone), days)| > 0
    decreases |logs|
  {
    var init := logs[..|logs| - 1];
    if logs[|logs| - 1] != e {
      assert logs == init + [logs[|logs| - 1]];
      assert e in init;
      KeyDaysHas(init, e, days);
    }
  }

  lemma {:induction false} KeyDaysFrom(logs: seq<Entry>, key: string, days: seq<int>)
    requires |KeyDays(logs, key, days)| > 0
    ensures exists e :: e in logs && DayOf(e.time) in days && JsString(e.zone) == key
    decreases |logs|
  {
    var init := logs[..|logs| - 1];
    var e := logs[|logs| - 1];
    if !(JsString(e.zone) == key && DayOf(e.time) in days) {
      KeyDaysFrom(init, key, days);
      var x :| x in init && DayOf(x.time) in days && JsString(x.zone) == key;
      assert x in logs;
    } else {
      assert e in logs;
    }
  }

  /** The entry is dated on a listed day and its zone has the key `key`. */
  predicate Hits(e: Entry, key: string, days: seq<int>)
  {
    JsString(e.zone) == key && DayOf(e.time) in days
  }

  /** The zone value of the first entry that hits `key`, if any: the value
      `zoneMap[l.zone] || { zone: l.zone, … }` stores when the key is new. */
  function FirstZone(logs: seq<Entry>, key: string, days: seq<int>): Option<Value>
  {
    if |logs| == 0 then None
    else
      var first := FirstZone(logs[..|logs| - 1], key, days);
      if first.Some? then first
      else if Hits(logs[|logs| - 1], key, days) then Some(logs[|logs| - 1].zone)
      else None
  }

  /** Entry `n` is the first of the log to hit `key`. */
  predicate FirstHit(logs: seq<Entry>, n: int, key: string, days: seq<int>)
  {
    && 0 <= n < |logs|
    && Hits(logs[n], key, days)
    && forall m :: 0 <= m < n ==> !Hits(logs[m], key, days)
  }

  /** `FirstZone` is the zone of the first hitting entry, and there is none
      exactly when no entry hits. */
  lemma {:induction false} FirstZoneIsFirstHit(logs: seq<Entry>, key: string, days: seq<int>)
    ensures FirstZone(logs, key, days).None? <==> forall m :: 0 <= m < |logs| ==> !Hits(logs[m], key, days)
    ensures forall n :: FirstHit(logs, n, key, days) ==> FirstZone(logs, key, days) == Some(logs[n].zone)
    decreases |logs|
  {
    if |logs| > 0 {
      var init := logs[..|logs| - 1];
      var e := logs[|logs| - 1];
      FirstZoneIsFirstHit(init, key, days);
      assert forall m :: 0 <= m < |init| ==> logs[m] == init[m];
      forall n | FirstHit(logs, n, key, days) ensures FirstZone(logs, key, days) == Some(logs[n].zone) {
        if n < |init| {
          assert FirstHit(init, n, key, days);
        } else {
          assert FirstZone(init, key, days).None?;
        }
      }
    }
  }

  lemma FirstZoneSnoc(logs: seq<Entry>, e: Entry, key: string, days: seq<int>)
    ensures FirstZone(logs + [e], key, days) ==
      if FirstZone(logs, key, days).Some? then FirstZone(logs, key, days)
      else if Hits(e, key, days) then Some(e.zone)
      else None
  {
    assert (logs + [e])[..|logs|] == logs;
  }

  /** Each running record holds its key's first zone value, and a key without
      a record has no hitting entry. */
  ghost predicate ZonesFirst(acc: seq<ZoneAcc>, logs: seq<Entry>, days: seq<int>)
  {
    && (forall j :: 0 <= j < |acc| ==> FirstZone(logs, acc[j].key, days) == Some(acc[j].zone))
    && (forall k :: k !in AccKeys(acc) ==> FirstZone(logs, k, days).None?)
  }

  lemma {:induction false} AccumulateZones(logs: seq<Entry>, days: seq<int>)
    ensures ZonesFirst(Accumulate(logs, days), logs, days)
    decreases |logs|
  {
    if |logs| == 0 {
      assert AccKeys([]) == [];
    } else {
      var init := logs[..|logs| - 1];
      var e := logs[|logs| - 1];
      AccumulateZones(init, days);
      assert init + [e] == logs;
      StepZones(Accumulate(init, days), init, e, days);
    }
  }

  lemma StepZones(acc: seq<ZoneAcc>, logs: seq<Entry>, e: Entry, days: seq<int>)
    requires CountersWellFormed(acc)
    requires ZonesFirst(acc, logs, days)
    ensures ZonesFirst(Step(acc, e, days), logs + [e], days)
  {
    var i := IndexOfKey(acc, JsString(e.zone));
    StepShape(acc, e, days);
    if DayOf(e.time) !in days {
      ZonesSkip(acc, logs, e, days);
    } else if i >= 0 {
      ZonesExisting(acc, i, acc[i].(perDay := Bump(acc[i].perDay, DayOf(e.time))), logs, e, days);
    } else {
      ZonesNew(acc, logs, e, days);
    }
  }

  /** A key already hit keeps its first zone value. */
  lemma FirstZoneKept(logs: seq<Entry>, e: Entry, key: string, days: seq<int>)
    requires FirstZone(logs, key, days).Some?
    ensures FirstZone(logs + [e], key, days) == FirstZone(logs, key, days)
  {
    FirstZoneSnoc(logs, e, key, days);
  }

  /** A key not hit so far, and not hit by `e`, stays without one. */
  lemma FirstZoneStillNone(logs: seq<Entry>, e: Entry, key: string, days: seq<int>)
    requires FirstZone(logs, key, days).None? && !Hits(e, key, days)
    ensures FirstZone(logs + [e], key, days).None?
  {
    FirstZoneSnoc(logs, e, key, days);
  }

  /** The rows of `acc` keep their first zone values. */
  lemma ZonesRowsKept(acc: seq<ZoneAcc>, logs: seq<Entry>, e: Entry, days: seq<int>)
    requires forall j :: 0 <= j < |acc| ==> FirstZone(logs, acc[j].key, days) == Some(acc[j].zone)
    ensures forall j :: 0 <= j < |acc| ==> FirstZone(logs + [e], acc[j].key, days) == Some(acc[j].zone)
  {
    forall j | 0 <= j < |acc| ensures FirstZone(logs + [e], acc[j].key, days) == Some(acc[j].zone) {
      FirstZoneKept(logs, e, acc[j].key, days);
    }
  }

  lemma ZonesSkip(acc: seq<ZoneAcc>, logs: seq<Entry>, e: Entry, days: seq<int>)
    requires ZonesFirst(acc, logs, days)
    requires DayOf(e.time) !in days
    ensures ZonesFirst(acc, logs + [e], days)
  {
    ZonesRowsKept(acc, logs, e, days);
    forall k | k !in AccKeys(acc) ensures FirstZone(logs + [e], k, days).None? {
      FirstZoneStillNone(logs, e, k, days);
    }
  }

  lemma ZonesExisting(acc: seq<ZoneAcc>, i: nat, a: ZoneAcc, logs: seq<Entry>, e: Entry, days: seq<int>)
    requires i < |acc| && acc[i].key == JsString(e.zone)
    requires a.key == acc[i].key && a.zone == acc[i].zone
    requires ZonesFirst(acc, logs, days)
    ensures ZonesFirst(acc[i := a], logs + [e], days)
  {
    ZonesRowsKept(acc, logs, e, days);
    AccKeysUpdate(acc, i, a);
    assert AccKeys(acc)[i] == JsString(e.zone);
    forall k | k !in AccKeys(acc) ensures FirstZone(logs + [e], k, days).None? {
      FirstZoneStillNone(logs, e, k, days);
    }
  }

  lemma ZonesNew(acc: seq<ZoneAcc>, logs: seq<Entry>, e: Entry, days: seq<int>)
    requires ZonesFirst(acc, logs, days)
    requires DayOf(e.time) in days
    requires JsString(e.zone) !in AccKeys(acc)
    ensures ZonesFirst(acc + [ZoneAcc(JsString(e.zone), e.zone, Bump([], DayOf(e.time)))], logs + [e], days)
  {
    var a := ZoneAcc(JsString(e.zone), e.zone, Bump([], DayOf(e.time)));
    ZonesRowsKept(acc, logs, e, days);
    FirstZoneSnoc(logs, e, a.key, days);
    AccKeysSnoc(acc, a);
    forall k | k !in AccKeys(acc + [a]) ensures FirstZone(logs + [e], k, days).None? {
      FirstZoneStillNone(logs, e, k, days);
    }
  }

  /** Every reply row shows its zone's first zone value. */
  lemma SummaryZones(logs: seq<Entry>, days: seq<int>, acc: seq<ZoneAcc>, zones: seq<ZoneRow>)
    requires TableInvariant(acc, logs, days)
    requires acc == Accumulate(logs, days)
    requires zones == Rows(acc, days)
    ensures forall i :: 0 <= i < |zones| ==> FirstZone(logs, RowKeys(zones)[i], days) == Some(zones[i].zone)
  {
    AccumulateZones(logs, days);
    RowKeysOfRows(logs, days, acc, zones);
    assert forall i :: 0 <= i < |zones| ==> RowKeys(zones)[i] == acc[i].key;
  }

  /** One fault entry for zone A dated today,
      summarised over three days, counts `[0, 0, 1]` with total 1. */
  lemma OneEntryToday(now: int)
    ensures var e := Entry(Str("zoneA"), Null, Str("fault"), Str(""), now);
      var r := Summarize([e], Parsed(3), now);
      && |r.days| == 3
      && r.zones == [ZoneRow(Str("zoneA"), [0, 0, 1], 1)]
  {
    var e := Entry(Str("zoneA"), Null, Str("fault"), Str(""), now);
    var d := DayOf(now);
    var days := DayList(3, now);
    assert days[2] == d;
    assert [e][..0] == [];
    assert Accumulate([e], days) == Step([], e, days);
    var perDay: Counts<int> := [(d, 1)];
    assert Step([], e, days) == [ZoneAcc("zoneA", Str("zoneA"), perDay)];
    assert Values(perDay) == [1];
    assert Values(perDay)[1..] == [];
    assert Sum(Values(perDay)) == 1;
    var counts := ReadCounts(perDay, days);
    assert days[0] == d - 2 && days[1] == d - 1;
    assert perDay[1..] == [];
    assert counts[0] == Lookup(perDay, d - 2) == 0;
    assert counts[1] == Lookup(perDay, d - 1) == 0;
    assert counts[2] == Lookup(perDay, d) == 1;
    assert counts == [0, 0, 1];
    assert Row(ZoneAcc("zoneA", Str("zoneA"), perDay), days) == ZoneRow(Str("zoneA"), [0, 0, 1], 1);
    assert Rows([ZoneAcc("zoneA", Str("zoneA"), perDay)], days) == [ZoneRow(Str("zoneA"), [0, 0, 1], 1)];
  }

  /** An entry dated outside the listed days changes nothing in the reply. */
  lemma OutOfWindowIgnored(logs: seq<Entry>, e: Entry, q: DaysQuery, now: int)
    requires DayOf(e.time) !in Summarize(logs, q, now).days
    ensures Summarize(logs + [e], q, now) == Summarize(logs, q, now)
  {
    var days := DayList(DayCount(q), now);
    assert (logs + [e])[..|logs|] == logs;
    assert Accumulate(logs + [e], days) == Accumulate(logs, days);
  }
}
