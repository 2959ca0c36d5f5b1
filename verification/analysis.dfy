/** The outage-analysis page (frontend/src/pages/Analysis.jsx): raw logs are
    normalised, the fault and warning entries kept, narrowed by the zone and
    substation selectors, then counted per substation, day, status and zone,
    ranked into the five busiest substations, and sorted into the ten most
    recent critical events. */
module Analysis {
  import opened Js
  import opened Seqs
  import opened Tally
  import opened Sorting
  import LogStore

  /** One normalised log. The page builds it with exactly these seven fields. */
  datatype Outage = Outage(
    time: Value, zoneId: Value, zoneName: Value, ssId: Value, ssName: Value,
    status: Value, message: Value)

  // ---------------------------------------------------------------------------
  // Normalisation

  /** The `logs.map(l => ({ ... }))` step for one raw log. */
  function Normalize(l: Object): (o: Outage)
    ensures o.time == Get(l, "time")
    // status and message get defaults, and are kept when present
    ensures Truthy(o.status)
    ensures Truthy(Get(l, "status")) ==> o.status == Get(l, "status")
    ensures !Truthy(Get(l, "status")) ==> o.status == Str("ok")
    ensures Truthy(Get(l, "message")) ==> o.message == Get(l, "message")
    ensures !Truthy(Get(l, "message")) ==> o.message == Str("")
    // each identifier prefers its own field, then the shared one, then its partner
    ensures Truthy(Get(l, "zoneId")) ==> o.zoneId == Get(l, "zoneId")
    ensures Truthy(Get(l, "zoneName")) ==> o.zoneName == Get(l, "zoneName")
    ensures Truthy(Get(l, "ssId")) ==> o.ssId == Get(l, "ssId")
    ensures Truthy(Get(l, "ssName")) ==> o.ssName == Get(l, "ssName")
    // failing its own field, an identifier takes the shared field, and failing that its partner
    ensures !Truthy(Get(l, "zoneId")) && Truthy(Get(l, "zone")) ==> o.zoneId == Get(l, "zone")
    ensures !Truthy(Get(l, "zoneId")) && !Truthy(Get(l, "zone")) ==> o.zoneId == Get(l, "zoneName")
    ensures !Truthy(Get(l, "zoneName")) && Truthy(Get(l, "zone")) ==> o.zoneName == Get(l, "zone")
    ensures !Truthy(Get(l, "zoneName")) && !Truthy(Get(l, "zone")) ==> o.zoneName == Get(l, "zoneId")
    ensures !Truthy(Get(l, "ssId")) && Truthy(Get(l, "substation")) ==> o.ssId == Get(l, "substation")
    ensures !Truthy(Get(l, "ssId")) && !Truthy(Get(l, "substation")) ==> o.ssId == Get(l, "ssName")
    ensures !Truthy(Get(l, "ssName")) && Truthy(Get(l, "substation")) ==> o.ssName == Get(l, "substation")
    ensures !Truthy(Get(l, "ssName")) && !Truthy(Get(l, "substation")) ==> o.ssName == Get(l, "ssId")
    ensures Truthy(o.zoneId) <==> Truthy(Get(l, "zoneId")) || Truthy(Get(l, "zone")) || Truthy(Get(l, "zoneName"))
    ensures Truthy(o.zoneName) <==> Truthy(o.zoneId)
    ensures Truthy(o.ssId) <==> Truthy(Get(l, "ssId")) || Truthy(Get(l, "substation")) || Truthy(Get(l, "ssName"))
    ensures Truthy(o.ssName) <==> Truthy(o.ssId)
  {
    Outage(
      Get(l, "time"),
      Or(Or(Get(l, "zoneId"), Get(l, "zone")), Get(l, "zoneName")),
      Or(Or(Get(l, "zoneName"), Get(l, "zone")), Get(l, "zoneId")),
      Or(Or(Get(l, "ssId"), Get(l, "substation")), Get(l, "ssName")),
      Or(Or(Get(l, "ssName"), Get(l, "substation")), Get(l, "ssId")),
      Or(Get(l, "status"), Str("ok")),
      Or(Get(l, "message"), Str("")))
  }

  function NormalizeAll(logs: seq<Object>): (r: seq<Outage>)
    ensures |r| == |logs|
    ensures forall i :: 0 <= i < |logs| ==> r[i] == Normalize(logs[i])
  {
    if |logs| == 0 then [] else [Normalize(logs[0])] + NormalizeAll(logs[1..])
  }

  /** A server log entry as JSON, its time written as an ISO string. */
  function EntryObject(e: LogStore.Entry, isoTime: string): Object
  {
    map["zone" := e.zone, "substation" := e.substation, "status" := e.status,
        "message" := e.message, "time" := Str(isoTime)]
  }

  /** For an entry the server stored (its zone and status are always truthy),
      both zone identifiers are the entry's zone, both substation identifiers
      its substation when it has one, and status and message are kept. */
  lemma ServerEntryNormalized(e: LogStore.Entry, isoTime: string)
    requires Truthy(e.zone) && Truthy(e.status)
    ensures var o := Normalize(EntryObject(e, isoTime));
      && o.time == Str(isoTime)
      && o.zoneId == e.zone && o.zoneName == e.zone
      && (Truthy(e.substation) ==> o.ssId == e.substation && o.ssName == e.substation)
      && (!Truthy(e.substation) ==> !Truthy(o.ssId) && !Truthy(o.ssName))
      && o.status == e.status
      && (Truthy(e.message) ==> o.message == e.message)
  {
  }

  // ---------------------------------------------------------------------------
  // Selection

  /** `log.status === 'fault' || log.status === 'warning'`. */
  predicate IsCritical(o: Outage)
  {
    StrictEquals(o.status, Str("fault")) || StrictEquals(o.status, Str("warning"))
  }

  /** `outagesList`: the normalised logs that are faults or warnings, in order. */
  function OutagesList(logs: seq<Object>): (r: seq<Outage>)
    ensures IsSubseq(r, NormalizeAll(logs))
    ensures forall o :: o in r <==> o in NormalizeAll(logs) && IsCritical(o)
    ensures forall o :: o in NormalizeAll(logs) ==>
      multiset(r)[o] == if IsCritical(o) then multiset(NormalizeAll(logs))[o] else 0
  {
    Filter(NormalizeAll(logs), IsCritical)
  }

  /** The zone and substation selectors; `all` lets everything through. */
  predicate Selected(o: Outage, zone: string, ss: string)
  {
    && (zone == "all" || StrictEquals(o.zoneId, Str(zone)))
    && (ss == "all" || StrictEquals(o.ssId, Str(ss)))
  }

  /** `filtered`. */
  function Filtered(outages: seq<Outage>, zone: string, ss: string): (r: seq<Outage>)
    ensures IsSubseq(r, outages)
    ensures forall o :: o in r <==> o in outages && Selected(o, zone, ss)
    ensures forall o :: o in outages ==>
      multiset(r)[o] == if Selected(o, zone, ss) then multiset(outages)[o] else 0
  {
    Filter(outages, (o: Outage) => Selected(o, zone, ss))
  }

  /** With both selectors on `all` nothing is filtered out. */
  lemma FilteredAll(outages: seq<Outage>)
    ensures Filtered(outages, "all", "all") == outages
  {
    FilterKeepsAll(outages, (o: Outage) => Selected(o, "all", "all"));
  }

  // ---------------------------------------------------------------------------
  // Counting

  /** The counter keys of the per-substation count: `String(o.ssName)`. */
  function SsKeys(s: seq<Outage>): (r: seq<string>)
    ensures |r| == |s|
    ensures forall i :: 0 <= i < |s| ==> r[i] == JsString(s[i].ssName)
  {
    if |s| == 0 then [] else [JsString(s[0].ssName)] + SsKeys(s[1..])
  }

  /** A `time` the page can slice: a string, or a falsy value. */
  predicate TimeIsText(o: Outage)
  {
    !Truthy(o.time) || o.time.Str?
  }

  /** A `time` with a `slice` method: a string or an array, or a falsy value
      that is never sliced. */
  predicate TimeIsSliceable(o: Outage)
  {
    !Truthy(o.time) || o.time.Str? || o.time.Arr?
  }

  /** `o.time ? o.time.slice(0, 10) : "unknown"`. A string gives its first ten
      characters; an array gives its first ten elements, which become a
      counter key through `String`. */
  function DayKey(o: Outage): (k: string)
    requires TimeIsSliceable(o)
    ensures !Truthy(o.time) ==> k == "unknown"
    ensures Truthy(o.time) && o.time.Str? ==>
      k <= o.time.s && |k| == if |o.time.s| < 10 then |o.time.s| else 10
    ensures o.time.Arr? ==>
      k == JsString(Arr(o.time.elems[..if |o.time.elems| < 10 then |o.time.elems| else 10]))
  {
    if !Truthy(o.time) then "unknown"
    else if o.time.Str? then Take(o.time.s, 10)
    else
      var a := o.time.elems;
      assert Take(a, 10) == a[..if |a| < 10 then |a| else 10];
      JsString(Arr(Take(a, 10)))
  }

  function DayKeys(s: seq<Outage>): (r: seq<string>)
    requires forall i :: 0 <= i < |s| ==> TimeIsSliceable(s[i])
    ensures |r| == |s|
    ensures forall i :: 0 <= i < |s| ==> r[i] == DayKey(s[i])
  {
    if |s| == 0 then [] else [DayKey(s[0])] + DayKeys(s[1..])
  }

  /** The per-zone key `o.zoneName || o.zone || o.zoneId`. A normalised record
      has no `zone` field, so the middle operand is always `undefined`. */
  function ZoneKey(o: Outage): string
  {
    JsString(Or(Or(o.zoneName, Undefined), o.zoneId))
  }

  function ZoneKeys(s: seq<Outage>): (r: seq<string>)
    ensures |r| == |s|
    ensures forall i :: 0 <= i < |s| ==> r[i] == ZoneKey(s[i])
  {
    if |s| == 0 then [] else [ZoneKey(s[0])] + ZoneKeys(s[1..])
  }

  function StatusKeys(s: seq<Outage>): (r: seq<string>)
    ensures |r| == |s|
    ensures forall i :: 0 <= i < |s| ==> r[i] == JsString(s[i].status)
  {
    if |s| == 0 then [] else [JsString(s[0].status)] + StatusKeys(s[1..])
  }

  /** A count map built from empty: each key counts its occurrences, keys are
      distinct, and the counts add up to the number of keys. */
  function Tallied(keys: seq<string>): (r: Counts<string>)
    ensures Distinct(Keys(r))
    ensures forall k :: Lookup(r, k) == Occ(keys, k)
    ensures forall k :: k in Keys(r) <==> k in keys
    ensures Sum(Values(r)) == |keys|
  {
    assert Keys<string>([]) == [];
    assert Values<string>([]) == [];
    CountInto([], keys)
  }

  /** `outagesBySS`. */
  function OutagesBySS(filtered: seq<Outage>): (r: Counts<string>)
    ensures Distinct(Keys(r))
    ensures forall k :: Lookup(r, k) == Occ(SsKeys(filtered), k)
    ensures forall k :: k in Keys(r) <==> k in SsKeys(filtered)
    ensures Sum(Values(r)) == |filtered|
  {
    Tallied(SsKeys(filtered))
  }

  /** `outagesByDay`. */
  function OutagesByDay(filtered: seq<Outage>): (r: Counts<string>)
    requires forall i :: 0 <= i < |filtered| ==> TimeIsSliceable(filtered[i])
    ensures Distinct(Keys(r))
    ensures forall k :: Lookup(r, k) == Occ(DayKeys(filtered), k)
    ensures forall k :: k in Keys(r) <==> k in DayKeys(filtered)
    ensures Sum(Values(r)) == |filtered|
  {
    Tallied(DayKeys(filtered))
  }

  /** `outagesByZone`. */
  function OutagesByZone(filtered: seq<Outage>): (r: Counts<string>)
    ensures Distinct(Keys(r))
    ensures forall k :: Lookup(r, k) == Occ(ZoneKeys(filtered), k)
    ensures forall k :: k in Keys(r) <==> k in ZoneKeys(filtered)
    ensures Sum(Values(r)) == |filtered|
  {
    Tallied(ZoneKeys(filtered))
  }

  const STATUS_INIT: Counts<string> := [("fault", 0), ("warning", 0), ("ok", 0)]

  /** `statusCounts`, starting from `{ fault: 0, warning: 0, ok: 0 }`. */
  function StatusCounts(filtered: seq<Outage>): (r: Counts<string>)
    ensures Distinct(Keys(r))
    ensures forall k :: Lookup(r, k) == Lookup(STATUS_INIT, k) + Occ(StatusKeys(filtered), k)
    ensures forall k :: k in Keys(r) <==> k in Keys(STATUS_INIT) || k in StatusKeys(filtered)
    ensures Sum(Values(r)) == |filtered|
  {
    assert Distinct(Keys(STATUS_INIT)) && Sum(Values(STATUS_INIT)) == 0 by {
      StatusInitFacts();
    }
    CountInto(STATUS_INIT, StatusKeys(filtered))
  }

  /** The initial counter: three distinct keys, all at zero. */
  lemma StatusInitFacts()
    ensures Distinct(Keys(STATUS_INIT))
    ensures Sum(Values(STATUS_INIT)) == 0
    ensures forall k :: Lookup(STATUS_INIT, k) == 0
  {
    var vs := Values(STATUS_INIT);
    assert vs == [0, 0, 0];
    assert vs[1..][1..][1..] == [];
    assert Sum(vs[1..][1..]) == 0;
    assert Sum(vs[1..]) == 0;
  }

  /** On the page's own data every counted outage is a fault or a warning, so
      those two counts add up to the number of outages and `ok` stays zero. */
  lemma StatusCountsOfOutages(logs: seq<Object>, zone: string, ss: string)
    ensures var f := Filtered(OutagesList(logs), zone, ss);
      && Lookup(StatusCounts(f), "fault") + Lookup(StatusCounts(f), "warning") == |f|
      && Lookup(StatusCounts(f), "ok") == 0
  {
    OutagesAreCritical(logs, zone, ss);
    StatusCountsOfCritical(Filtered(OutagesList(logs), zone, ss));
  }

  /** Counting statuses of faults and warnings only. */
  lemma StatusCountsOfCritical(f: seq<Outage>)
    requires forall i :: 0 <= i < |f| ==> IsCritical(f[i])
    ensures Lookup(StatusCounts(f), "fault") + Lookup(StatusCounts(f), "warning") == |f|
    ensures Lookup(StatusCounts(f), "ok") == 0
  {
    StatusKeysCritical(f);
    FaultWarningCount(StatusKeys(f));
    StatusInitFacts();
  }

  /** Keys that are all `fault` or `warning` split between those two. */
  lemma FaultWarningCount(ks: seq<string>)
    requires forall k :: k in ks ==> k == "fault" || k == "warning"
    ensures Occ(ks, "fault") + Occ(ks, "warning") == |ks|
    ensures Occ(ks, "ok") == 0
  {
    var ds := ["fault", "warning"];
    assert Distinct(ds);
    SumOccCovers(ds, ks);
    SumOccPair("fault", "warning", ks);
    assert "ok" !in ks;
  }

  lemma StatusKeysCritical(f: seq<Outage>)
    requires forall i :: 0 <= i < |f| ==> IsCritical(f[i])
    ensures forall k :: k in StatusKeys(f) ==> k == "fault" || k == "warning"
  {
    var ks := StatusKeys(f);
    forall k | k in ks ensures k == "fault" || k == "warning" {
      var i :| 0 <= i < |ks| && ks[i] == k;
      assert IsCritical(f[i]);
    }
  }

  lemma SumOccPair(a: string, b: string, ks: seq<string>)
    ensures SumOcc([a, b], ks) == Occ(ks, a) + Occ(ks, b)
  {
    assert [a, b][1..] == [b];
    assert [b][1..] == [];
    assert SumOcc([b], ks) == Occ(ks, b) + SumOcc([], ks);
  }

  // ---------------------------------------------------------------------------
  // Rankings

  /** `(a, b) => b[1] - a[1]` read as "a may come first". */
  function CountGeq(a: (string, nat), b: (string, nat)): bool
  {
    a.1 >= b.1
  }

  lemma CountGeqPreorder()
    ensures TotalPreorder(CountGeq)
  {
  }

  /** `Object.entries(outagesBySS).sort(...).slice(0, 5)`: the five substations
      with most outages, most first; no substation left out has more outages
      than one kept. */
  function TopSubstations(bySS: Counts<string>): (r: seq<(string, nat)>)
    ensures |r| == if |bySS| < 5 then |bySS| else 5
    ensures SortedDesc(r, CountGeq)
    ensures multiset(r) <= multiset(bySS)
    ensures forall x, y :: x in multiset(bySS) - multiset(r) && y in r ==> x.1 <= y.1
    // among equal counts, the kept entries are the counter's earliest, in its order
    ensures forall c :: OfRank(r, CountGeq, c) <= OfRank(bySS, CountGeq, c)
  {
    TopSubstationsFacts(bySS);
    TopSubstationsStable(bySS);
    Take(SortDesc(bySS, CountGeq), 5)
  }

  lemma TopSubstationsFacts(bySS: Counts<string>)
    ensures var r := Take(SortDesc(bySS, CountGeq), 5);
      && |r| == (if |bySS| < 5 then |bySS| else 5)
      && SortedDesc(r, CountGeq)
      && multiset(r) <= multiset(bySS)
      && forall x, y :: x in multiset(bySS) - multiset(r) && y in r ==> x.1 <= y.1
  {
    CountGeqPreorder();
    TopK(bySS, CountGeq, 5);
    var r := Take(SortDesc(bySS, CountGeq), 5);
    forall x, y | x in multiset(bySS) - multiset(r) && y in r ensures x.1 <= y.1 {
      assert CountGeq(y, x);
    }
  }

  lemma TopSubstationsStable(bySS: Counts<string>)
    ensures forall c :: OfRank(Take(SortDesc(bySS, CountGeq), 5), CountGeq, c) <= OfRank(bySS, CountGeq, c)
  {
    CountGeqPreorder();
    forall c ensures OfRank(Take(SortDesc(bySS, CountGeq), 5), CountGeq, c) <= OfRank(bySS, CountGeq, c) {
      TopKStable(bySS, CountGeq, 5, c);
    }
  }

  /** `o.time || ''` for a textual time. */
  function TimeText(o: Outage): string
  {
    if o.time.Str? then o.time.s else ""
  }

  /** `(a, b) => (b.time || '').localeCompare(a.time || '')` read as "a may come
      first": the later time first. */
  function LaterFirst(a: Outage, b: Outage): bool
  {
    StrLeq(TimeText(b), TimeText(a))
  }

  lemma LaterFirstPreorder()
    ensures TotalPreorder(LaterFirst)
  {
    forall a: Outage, b: Outage ensures LaterFirst(a, b) || LaterFirst(b, a) {
      StrLeqTotal(TimeText(a), TimeText(b));
    }
    forall a: Outage, b: Outage, c: Outage | LaterFirst(a, b) && LaterFirst(b, c)
      ensures LaterFirst(a, c)
    {
      StrLeqTransitive(TimeText(c), TimeText(b), TimeText(a));
    }
  }

  /** `recentCritical`: the ten latest faults and warnings, latest first; no
      critical outage left out is later than one kept. */
  function RecentCritical(filtered: seq<Outage>): (r: seq<Outage>)
    requires forall i :: 0 <= i < |filtered| ==> TimeIsText(filtered[i])
    ensures |r| == if |Filter(filtered, IsCritical)| < 10 then |Filter(filtered, IsCritical)| else 10
    ensures forall o :: o in r ==> o in filtered && IsCritical(o)
    ensures multiset(r) <= multiset(Filter(filtered, IsCritical))
    ensures SortedDesc(r, LaterFirst)
    ensures forall x, y :: x in multiset(Filter(filtered, IsCritical)) - multiset(r) && y in r ==>
      StrLeq(TimeText(x), TimeText(y))
    // among equal times, the kept outages are the selection's earliest, in its order
    ensures forall c :: OfRank(r, LaterFirst, c) <= OfRank(Filter(filtered, IsCritical), LaterFirst, c)
  {
    var critical := Filter(filtered, IsCritical);
    RecentCriticalFacts(critical);
    RecentCriticalStable(critical);
    Take(SortDesc(critical, LaterFirst), 10)
  }

  lemma RecentCriticalStable(critical: seq<Outage>)
    ensures forall c :: OfRank(Take(SortDesc(critical, LaterFirst), 10), LaterFirst, c) <= OfRank(critical, LaterFirst, c)
  {
    LaterFirstPreorder();
    forall c ensures OfRank(Take(SortDesc(critical, LaterFirst), 10), LaterFirst, c) <= OfRank(critical, LaterFirst, c) {
      TopKStable(critical, LaterFirst, 10, c);
    }
  }

  lemma RecentCriticalFacts(critical: seq<Outage>)
    ensures var r := Take(SortDesc(critical, LaterFirst), 10);
      && |r| == (if |critical| < 10 then |critical| else 10)
      && SortedDesc(r, LaterFirst)
      && multiset(r) <= multiset(critical)
      && (forall o :: o in r ==> o in critical)
      && forall x, y :: x in multiset(critical) - multiset(r) && y in r ==> StrLeq(TimeText(x), TimeText(y))
  {
    LaterFirstPreorder();
    TopK(critical, LaterFirst, 10);
    var r := Take(SortDesc(critical, LaterFirst), 10);
    forall x, y | x in multiset(critical) - multiset(r) && y in r ensures StrLeq(TimeText(x), TimeText(y)) {
      assert LaterFirst(y, x);
    }
    forall o | o in r ensures o in critical {
      assert o in multiset(r);
    }
  }

  /** On the page's own data the inner fault/warning filter drops nothing: the
      list holds the ten latest outages of the selection, or all of them. */
  lemma RecentCriticalOfOutages(logs: seq<Object>, zone: string, ss: string)
    requires forall i :: 0 <= i < |logs| ==> !Truthy(Get(logs[i], "time")) || Get(logs[i], "time").Str?
    ensures var f := Filtered(OutagesList(logs), zone, ss);
      && (forall i :: 0 <= i < |f| ==> TimeIsText(f[i]))
      && Filter(f, IsCritical) == f
      && |RecentCritical(f)| == (if |f| < 10 then |f| else 10)
      && multiset(RecentCritical(f)) <= multiset(f)
  {
    var f := Filtered(OutagesList(logs), zone, ss);
    OutagesAreCritical(logs, zone, ss);
    FilterKeepsAll(f, IsCritical);
  }

  /** Every outage the page counts is a fault or a warning, and its time is
      text when the raw logs' times are. */
  lemma OutagesAreCritical(logs: seq<Object>, zone: string, ss: string)
    ensures var f := Filtered(OutagesList(logs), zone, ss);
      forall i :: 0 <= i < |f| ==>
        && IsCritical(f[i])
        && ((forall j :: 0 <= j < |logs| ==> !Truthy(Get(logs[j], "time")) || Get(logs[j], "time").Str?) ==> TimeIsText(f[i]))
  {
    var f := Filtered(OutagesList(logs), zone, ss);
    forall i | 0 <= i < |f|
      ensures IsCritical(f[i])
      ensures (forall j :: 0 <= j < |logs| ==> !Truthy(Get(logs[j], "time")) || Get(logs[j], "time").Str?) ==> TimeIsText(f[i])
    {
      assert f[i] in f;
      NormalizedTime(logs, f[i]);
    }
  }

  /** A normalised log carries the time of some raw log. */
  lemma NormalizedTime(logs: seq<Object>, o: Outage)
    requires o in NormalizeAll(logs)
    ensures exists j :: 0 <= j < |logs| && o.time == Get(logs[j], "time")
  {
    var n := NormalizeAll(logs);
    var j :| 0 <= j < |n| && n[j] == o;
    assert n[j] == Normalize(logs[j]);
  }
}
