/** The request handlers of backend/server.js as pure state transitions over the
    three pieces of in-memory state (telemetry snapshots, per-zone protection
    records, the event log) plus the copies last written to disk. The clock is the
    parameter `now` (milliseconds); date parsing is the parameter `parseTime`. */
module Server {
  import opened Wrappers
  import opened Js
  import opened LogStore
  import opened ApiKey

  /** A zone's protection record; `lastActionAt` is `null` until the first action. */
  datatype Record = Record(enabled: bool, isolated: bool, lastActionAt: Option<int>)

  const DEFAULT_RECORD: Record := Record(false, false, None)

  /** What `autoProtect.json` and `logs.json` hold: the state as last persisted. */
  datatype Disk = Disk(protect: map<string, Record>, logs: seq<Entry>)

  /** Zone maps are keyed by `String(zoneId)`, as JavaScript object keys are. */
  datatype State = State(
    telemetry: map<string, Object>,
    protect: map<string, Record>,
    logs: seq<Entry>,
    disk: Disk)

  /** The JSON body of a reply. */
  datatype Body =
    | Error(error: string)
    | Stored(message: string, zoneId: Value)
    | ProtectState(zoneId: Value, state: Record)
    | LogStored(entry: Entry)

  /** The state after the request, the HTTP status, and the body. */
  datatype Reply = Reply(state: State, code: int, body: Body)

  const ISOLATION_MESSAGE: string := "Auto-isolation triggered due to line break detection"
  const SIMULATION_MESSAGE: string := "Auto-isolation performed (simulation)"

  /** The zone's record, or the default one a handler creates when there is none. */
  function RecordOf(protect: map<string, Record>, key: string): Record
  {
    if key in protect then protect[key] else DEFAULT_RECORD
  }

  /** The break predicate: `!!breakDetected || status === 'broken' || current === 0`.
      It reads the payload and nothing else. */
  predicate BreakDetected(payload: Object)
  {
    || Truthy(Get(payload, "breakDetected"))
    || StrictEquals(Get(payload, "status"), Str("broken"))
    || StrictEquals(Get(payload, "current"), Num(0))
  }

  /** The isolation decision: a break on an enabled zone that is not isolated yet. */
  predicate ShouldIsolate(broken: bool, rec: Record)
  {
    broken && rec.enabled && !rec.isolated
  }

  /** The isolating step: the record is marked isolated at `now`. */
  function Isolate(rec: Record, now: int): Record
  {
    rec.(isolated := true, lastActionAt := Some(now))
  }

  /** `{ receivedAt: new Date(), ...payload }`: the stored snapshot is built from
      the payload alone; a `receivedAt` in the payload wins over the server's. */
  function Receipt(payload: Object, now: int): (r: Object)
    ensures forall f :: f in r <==> f == "receivedAt" || f in payload
    ensures forall f :: f in payload ==> r[f] == payload[f]
    ensures "receivedAt" !in payload ==> r["receivedAt"] == Num(now)
  {
    map["receivedAt" := Num(now)] + payload
  }

  function IsolationEntry(zone: Value, substation: Value, message: string, now: int): Entry
  {
    Entry(zone, substation, Str("fault"), Str(message), now)
  }

  /** The zone identifier of a telemetry payload: `payload.zoneId || payload.id`. */
  function TelemetryZone(payload: Object): Value
  {
    Or(Get(payload, "zoneId"), Get(payload, "id"))
  }

  /** `m2` holds every entry of `m1` except possibly the one under `key`. */
  predicate OthersKept<V(==)>(m1: map<string, V>, m2: map<string, V>, key: string)
  {
    forall k :: k in m1 && k != key ==> k in m2 && m2[k] == m1[k]
  }

  /** Both in-memory stores equal their persisted copies. */
  predicate Synced(st: State)
  {
    st.disk == Disk(st.protect, st.logs)
  }

  // ---------------------------------------------------------------------------
  // POST /telemetry

  /** What an accepted `POST /telemetry` does to the state. */
  predicate TelemetryEffect(st: State, payload: Object, now: int, s: State)
  {
      var zone := TelemetryZone(payload);
      var key := JsString(zone);
      var rec := RecordOf(st.protect, key);
      var iso := ShouldIsolate(BreakDetected(payload), rec);
      // the snapshot is replaced wholesale; other zones' snapshots stay
      && s.telemetry.Keys == st.telemetry.Keys + {key}
      && s.telemetry[key] == Receipt(payload, now)
      && OthersKept(st.telemetry, s.telemetry, key)
      // the record exists afterwards; only an isolation changes it
      && s.protect.Keys == st.protect.Keys + {key}
      && s.protect[key] == (if iso then Isolate(rec, now) else rec)
      && OthersKept(st.protect, s.protect, key)
      // exactly one fault entry is appended on isolation, nothing otherwise
      && s.logs == (if iso then TrimOld(st.logs, now) + [IsolationEntry(zone, Or(Get(payload, "substation"), Null), ISOLATION_MESSAGE, now)]
                          else st.logs)
  }

  /** `POST /telemetry`: store the snapshot, get-or-create the zone's record, and
      isolate when the payload shows a break on an enabled, not yet isolated zone. */
  function PostTelemetry(st: State, payload: Object, now: int): (r: Reply)
    ensures !Truthy(TelemetryZone(payload)) <==> r.code == 400
    ensures r.code == 400 ==> r.state == st && r.body == Error("zoneId required")
    ensures r.code != 400 ==> r.code == 200 && r.body == Stored("Telemetry stored", TelemetryZone(payload))
    ensures r.code != 400 ==> TelemetryEffect(st, payload, now, r.state)
  {
    if !Truthy(TelemetryZone(payload)) then Reply(st, 400, Error("zoneId required"))
    else if ShouldIsolate(BreakDetected(payload), RecordOf(st.protect, JsString(TelemetryZone(payload)))) then
      IsolateZone(st, payload, now)
    else KeepZone(st, payload, now)
  }

  /** The isolating branch of `POST /telemetry`: the zone's record is isolated,
      one fault entry is appended, and both files are written. */
  function IsolateZone(st: State, payload: Object, now: int): (r: Reply)
    requires Truthy(TelemetryZone(payload))
    requires ShouldIsolate(BreakDetected(payload), RecordOf(st.protect, JsString(TelemetryZone(payload))))
    ensures r.code == 200 && r.body == Stored("Telemetry stored", TelemetryZone(payload))
    ensures TelemetryEffect(st, payload, now, r.state)
    ensures Synced(r.state)
  {
    var zone := TelemetryZone(payload);
    var key := JsString(zone);
    var telemetry := st.telemetry[key := Receipt(payload, now)];
    var protect := st.protect[key := Isolate(RecordOf(st.protect, key), now)];
    var entry := IsolationEntry(zone, Or(Get(payload, "substation"), Null), ISOLATION_MESSAGE, now);
    var logs := Append(st.logs, entry, now);
    Reply(State(telemetry, protect, logs, Disk(protect, logs)), 200, Stored("Telemetry stored", zone))
  }

  /** The other branch of `POST /telemetry`: the record is only created when
      missing, and a record created with the defaults is written out at once. */
  function KeepZone(st: State, payload: Object, now: int): (r: Reply)
    requires Truthy(TelemetryZone(payload))
    requires !ShouldIsolate(BreakDetected(payload), RecordOf(st.protect, JsString(TelemetryZone(payload))))
    ensures r.code == 200 && r.body == Stored("Telemetry stored", TelemetryZone(payload))
    ensures TelemetryEffect(st, payload, now, r.state)
    ensures JsString(TelemetryZone(payload)) in st.protect ==> r.state.disk == st.disk
    ensures JsString(TelemetryZone(payload)) !in st.protect ==> r.state.disk == st.disk.(protect := r.state.protect)
  {
    var zone := TelemetryZone(payload);
    var key := JsString(zone);
    var telemetry := st.telemetry[key := Receipt(payload, now)];
    var protect := st.protect[key := RecordOf(st.protect, key)];
    var disk := if key in st.protect then st.disk else st.disk.(protect := protect);
    Reply(State(telemetry, protect, st.logs, disk), 200, Stored("Telemetry stored", zone))
  }

  /** Each of the three break signals triggers on its
      own, a healthy reading does not, and `breakDetected` is read by truthiness
      (the string "false" counts as a break). */
  lemma BreakPredicateCases()
    ensures BreakDetected(map["status" := Str("broken")])
    ensures BreakDetected(map["current" := Num(0)])
    ensures BreakDetected(map["breakDetected" := Bool(true)])
    ensures BreakDetected(map["breakDetected" := Str("false")])
    ensures !BreakDetected(map["status" := Str("ok"), "current" := Num(5)])
    ensures !BreakDetected(map["current" := Str("0")])
  {
  }

  /** Two fault reports for an enabled zone: the first isolates and logs, the
      second changes neither the record nor the log. */
  lemma IsolationAtMostOnce(st: State, p1: Object, p2: Object, now1: int, now2: int)
    requires Truthy(TelemetryZone(p1))
    requires JsString(TelemetryZone(p2)) == JsString(TelemetryZone(p1))
    requires Truthy(TelemetryZone(p2))
    ensures var key := JsString(TelemetryZone(p1));
      var s1 := PostTelemetry(st, p1, now1).state;
      var s2 := PostTelemetry(s1, p2, now2).state;
      && (s1.protect[key].isolated ==> s2.protect[key] == s1.protect[key] && s2.logs == s1.logs)
      && (ShouldIsolate(BreakDetected(p1), RecordOf(st.protect, key)) ==> s1.protect[key].isolated)
  {
  }

  /** Telemetry never clears an isolation. */
  lemma TelemetryKeepsIsolation(st: State, payload: Object, now: int, key: string)
    requires key in st.protect && st.protect[key].isolated
    ensures PostTelemetry(st, payload, now).state.protect[key].isolated
  {
  }

  /** Of two payloads for one zone only the second is visible. */
  lemma SnapshotOverwrite(st: State, p1: Object, p2: Object, now1: int, now2: int)
    requires Truthy(TelemetryZone(p1)) && Truthy(TelemetryZone(p2))
    requires JsString(TelemetryZone(p1)) == JsString(TelemetryZone(p2))
    ensures PostTelemetry(PostTelemetry(st, p1, now1).state, p2, now2).state.telemetry[JsString(TelemetryZone(p2))]
      == Receipt(p2, now2)
  {
  }

  // ---------------------------------------------------------------------------
  // POST /protect

  /** The configuration request after the gate: `enabled` is stored as `!!enabled`;
      disabling also clears the isolation and stamps `lastActionAt`. */
  function PostProtect(st: State, serverKey: Option<string>, h: Headers, body: Object, now: int): (r: Reply)
    ensures Check(serverKey, h).Deny? ==>
      r.state == st && r.code == Check(serverKey, h).code && r.body == Error(Check(serverKey, h).error)
    ensures Check(serverKey, h).Pass? && !Truthy(Get(body, "zoneId")) ==>
      r.state == st && r.code == 400 && r.body == Error("zoneId required")
    ensures Check(serverKey, h).Pass? && Truthy(Get(body, "zoneId")) ==>
      var key := JsString(Get(body, "zoneId"));
      var old_ := RecordOf(st.protect, key);
      key in r.state.protect &&
      var rec := r.state.protect[key];
      && r.code == 200 && r.body == ProtectState(Get(body, "zoneId"), rec)
      && r.state.protect.Keys == st.protect.Keys + {key}
      && rec.enabled == Truthy(Get(body, "enabled"))
      && (!rec.enabled ==> !rec.isolated && rec.lastActionAt == Some(now))
      && (rec.enabled ==> rec.isolated == old_.isolated && rec.lastActionAt == old_.lastActionAt)
      && OthersKept(st.protect, r.state.protect, key)
      && r.state.telemetry == st.telemetry && r.state.logs == st.logs
  {
    var gate := Check(serverKey, h);
    if gate.Deny? then Reply(st, gate.code, Error(gate.error))
    else
      var zone := Get(body, "zoneId");
      if !Truthy(zone) then Reply(st, 400, Error("zoneId required"))
      else
        var key := JsString(zone);
        var rec := RecordOf(st.protect, key).(enabled := Truthy(Get(body, "enabled")));
        var rec' := if Truthy(Get(body, "enabled")) then rec else rec.(isolated := false, lastActionAt := Some(now));
        var protect := st.protect[key := rec'];
        Reply(st.(protect := protect, disk := st.disk.(protect := protect)), 200, ProtectState(zone, rec'))
  }

  /** Disabling an isolated zone clears the isolation. */
  lemma DisableClearsIsolation(st: State, serverKey: Option<string>, h: Headers, zone: Value, now: int)
    requires Check(serverKey, h).Pass? && Truthy(zone)
    requires JsString(zone) in st.protect && st.protect[JsString(zone)].isolated
    ensures var r := PostProtect(st, serverKey, h, map["zoneId" := zone, "enabled" := Bool(false)], now);
      !r.state.protect[JsString(zone)].isolated && r.state.protect[JsString(zone)].lastActionAt == Some(now)
  {
  }

  /** Without a valid key nothing changes. */
  lemma ProtectNeedsKey(st: State, key: string, body: Object, now: int)
    requires key != ""
    ensures PostProtect(st, Some(key), Headers(None, None), body, now) == Reply(st, 403, Error("invalid API key"))
  {
  }

  // ---------------------------------------------------------------------------
  // POST /simulate-break

  /** The payload the simulation synthesises. The ISO `time` string is kept as milliseconds. */
  function SimulatedPayload(zone: Value, substation: Value, now: int): Object
  {
    map["zoneId" := zone, "substation" := substation, "breakDetected" := Bool(true),
        "status" := Str("broken"), "time" := Num(now)]
  }

  /** `POST /simulate-break` after the gate. It repeats the decision instead of
      calling the telemetry path, logs a different message, puts a freshly
      created record into memory, and writes to disk only when it isolates. */
  function PostSimulateBreak(st: State, serverKey: Option<string>, h: Headers, body: Object, now: int): (r: Reply)
    ensures Check(serverKey, h).Deny? ==>
      r.state == st && r.code == Check(serverKey, h).code && r.body == Error(Check(serverKey, h).error)
    ensures Check(serverKey, h).Pass? && !Truthy(Get(body, "zoneId")) ==>
      r.state == st && r.code == 400 && r.body == Error("zoneId required")
    ensures Check(serverKey, h).Pass? && Truthy(Get(body, "zoneId")) ==>
      var key := JsString(Get(body, "zoneId"));
      var rec := RecordOf(st.protect, key);
      && r.code == 200
      && key in r.state.protect
      && r.body == ProtectState(Get(body, "zoneId"), r.state.protect[key])
      && r.state.protect[key] == (if rec.enabled && !rec.isolated then Isolate(rec, now) else rec)
      && (rec.enabled && !rec.isolated ==> |r.state.logs| == |TrimOld(st.logs, now)| + 1)
      && (!(rec.enabled && !rec.isolated) ==> r.state.logs == st.logs)
  {
    var gate := Check(serverKey, h);
    if gate.Deny? then Reply(st, gate.code, Error(gate.error))
    else
      var zone := Get(body, "zoneId");
      if !Truthy(zone) then Reply(st, 400, Error("zoneId required"))
      else
        var key := JsString(zone);
        var substation := Or(Get(body, "substation"), Null);
        var telemetry := st.telemetry[key := Receipt(SimulatedPayload(zone, substation, now), now)];
        var rec := RecordOf(st.protect, key);
        if rec.enabled && !rec.isolated then
          var protect := st.protect[key := Isolate(rec, now)];
          var logs := Append(st.logs, IsolationEntry(zone, substation, SIMULATION_MESSAGE, now), now);
          Reply(State(telemetry, protect, logs, Disk(protect, logs)), 200, ProtectState(zone, Isolate(rec, now)))
        else
          Reply(State(telemetry, st.protect[key := rec], st.logs, st.disk), 200, ProtectState(zone, rec))
  }

  /** The duplicated decision agrees with the telemetry path fed the synthesised
      payload: same snapshots, same records, and the same log but for the message. */
  lemma SimulateBreakMatchesTelemetry(st: State, serverKey: Option<string>, h: Headers, body: Object, now: int)
    requires Check(serverKey, h).Pass? && Truthy(Get(body, "zoneId"))
    ensures var zone := Get(body, "zoneId");
      var substation := Or(Get(body, "substation"), Null);
      var s := PostSimulateBreak(st, serverKey, h, body, now).state;
      var t := PostTelemetry(st, SimulatedPayload(zone, substation, now), now).state;
      var iso := ShouldIsolate(true, RecordOf(st.protect, JsString(zone)));
      && s.telemetry == t.telemetry
      && s.protect == t.protect
      && s.logs == (if iso then TrimOld(st.logs, now) + [IsolationEntry(zone, substation, SIMULATION_MESSAGE, now)] else st.logs)
      && t.logs == (if iso then TrimOld(st.logs, now) + [IsolationEntry(zone, substation, ISOLATION_MESSAGE, now)] else st.logs)
  {
    var zone := Get(body, "zoneId");
    var substation := Or(Get(body, "substation"), Null);
    SimulatedPayloadFacts(zone, substation, now);
    var rec := RecordOf(st.protect, JsString(zone));
    if rec.enabled && !rec.isolated {
      SimulateIsolating(st, serverKey, h, body, now);
    } else {
      SimulateNotIsolating(st, serverKey, h, body, now);
    }
  }

  /** The synthesised payload names the zone, shows a break and keeps the substation. */
  lemma SimulatedPayloadFacts(zone: Value, substation: Value, now: int)
    requires Truthy(zone) && (Truthy(substation) || substation == Null)
    ensures var p := SimulatedPayload(zone, substation, now);
      TelemetryZone(p) == zone && BreakDetected(p) && Or(Get(p, "substation"), Null) == substation
  {
  }

  lemma SimulateIsolating(st: State, serverKey: Option<string>, h: Headers, body: Object, now: int)
    requires Check(serverKey, h).Pass? && Truthy(Get(body, "zoneId"))
    requires var rec := RecordOf(st.protect, JsString(Get(body, "zoneId"))); rec.enabled && !rec.isolated
    requires var p := SimulatedPayload(Get(body, "zoneId"), Or(Get(body, "substation"), Null), now);
      TelemetryZone(p) == Get(body, "zoneId") && BreakDetected(p) && Or(Get(p, "substation"), Null) == Or(Get(body, "substation"), Null)
    ensures var zone := Get(body, "zoneId");
      var substation := Or(Get(body, "substation"), Null);
      var s := PostSimulateBreak(st, serverKey, h, body, now).state;
      var t := PostTelemetry(st, SimulatedPayload(zone, substation, now), now).state;
      && s.telemetry == t.telemetry
      && s.protect == t.protect
      && s.logs == TrimOld(st.logs, now) + [IsolationEntry(zone, substation, SIMULATION_MESSAGE, now)]
      && t.logs == TrimOld(st.logs, now) + [IsolationEntry(zone, substation, ISOLATION_MESSAGE, now)]
  {
    var zone := Get(body, "zoneId");
    var p := SimulatedPayload(zone, Or(Get(body, "substation"), Null), now);
    assert PostTelemetry(st, p, now) == IsolateZone(st, p, now);
  }

  lemma SimulateNotIsolating(st: State, serverKey: Option<string>, h: Headers, body: Object, now: int)
    requires Check(serverKey, h).Pass? && Truthy(Get(body, "zoneId"))
    requires var rec := RecordOf(st.protect, JsString(Get(body, "zoneId"))); !(rec.enabled && !rec.isolated)
    requires var p := SimulatedPayload(Get(body, "zoneId"), Or(Get(body, "substation"), Null), now);
      TelemetryZone(p) == Get(body, "zoneId") && BreakDetected(p)
    ensures var zone := Get(body, "zoneId");
      var substation := Or(Get(body, "substation"), Null);
      var s := PostSimulateBreak(st, serverKey, h, body, now).state;
      var t := PostTelemetry(st, SimulatedPayload(zone, substation, now), now).state;
      && s.telemetry == t.telemetry
      && s.protect == t.protect
      && s.logs == st.logs && t.logs == st.logs
  {
    var zone := Get(body, "zoneId");
    var p := SimulatedPayload(zone, Or(Get(body, "substation"), Null), now);
    assert PostTelemetry(st, p, now) == KeepZone(st, p, now);
  }

  /** A simulated break on a zone with no record and nothing to isolate leaves the
      new record in memory only: the persisted copy falls behind. */
  lemma SimulateBreakLeavesFreshRecordUnsaved(st: State, serverKey: Option<string>, h: Headers, body: Object, now: int)
    requires Check(serverKey, h).Pass? && Truthy(Get(body, "zoneId"))
    requires Synced(st) && JsString(Get(body, "zoneId")) !in st.protect
    ensures !Synced(PostSimulateBreak(st, serverKey, h, body, now).state)
  {
    var s := PostSimulateBreak(st, serverKey, h, body, now).state;
    var key := JsString(Get(body, "zoneId"));
    assert key in s.protect && key !in s.disk.protect;
  }

  // ---------------------------------------------------------------------------
  // POST /logs

  /** `POST /logs`: append an entry with the server's defaults. An unparsable
      `time` makes `toISOString` throw, which Express answers with 500. */
  function PostLog(st: State, body: Object, now: int, parseTime: Value -> Option<int>): (r: Reply)
    ensures !Truthy(Get(body, "zone")) ==> r == Reply(st, 400, Error("zone required"))
    ensures Truthy(Get(body, "zone")) && Truthy(Get(body, "time")) && parseTime(Get(body, "time")).None? ==>
      r.state == st && r.code == 500
    ensures r.code == 200 <==>
      Truthy(Get(body, "zone")) && (!Truthy(Get(body, "time")) || parseTime(Get(body, "time")).Some?)
    ensures r.code == 200 ==>
      r.body.LogStored? &&
      var e := r.body.entry;
      && e.zone == Get(body, "zone")
      && Truthy(e.status)
      // a field the request carries is stored as given; a falsy one gets its default
      && e.substation == (if Truthy(Get(body, "substation")) then Get(body, "substation") else Null)
      && e.status == (if Truthy(Get(body, "status")) then Get(body, "status") else Str("fault"))
      && e.message == (if Truthy(Get(body, "message")) then Get(body, "message") else Str(""))
      && e.time == (if Truthy(Get(body, "time")) then parseTime(Get(body, "time")).value else now)
      && r.state.logs == TrimOld(st.logs, now) + (if e.time >= Cutoff(now) then [e] else [])
      && r.state.protect == st.protect && r.state.telemetry == st.telemetry
  {
    var zone := Get(body, "zone");
    var time := if Truthy(Get(body, "time")) then parseTime(Get(body, "time")) else Some(now);
    if !Truthy(zone) then Reply(st, 400, Error("zone required"))
    else if time.None? then Reply(st, 500, Error("Invalid time value"))
    else
      var entry := Entry(zone, Or(Get(body, "substation"), Null), Or(Get(body, "status"), Str("fault")),
                         Or(Get(body, "message"), Str("")), time.value);
      var logs := Append(st.logs, entry, now);
      Reply(st.(logs := logs, disk := st.disk.(logs := logs)), 200, LogStored(entry))
  }

  /** After any append, an entry older than 30 days is gone. */
  lemma StaleEntryGoneAfterAppend(st: State, body: Object, now: int, parseTime: Value -> Option<int>, old_: Entry)
    requires old_.time < Cutoff(now)
    requires PostLog(st, body, now, parseTime).code == 200
    ensures old_ !in PostLog(st, body, now, parseTime).state.logs
  {
  }

  // ---------------------------------------------------------------------------
  // Persistence

  /** Every handler but the simulated break keeps memory and disk in step. */
  lemma TelemetryKeepsDiskSynced(st: State, payload: Object, now: int)
    requires Synced(st)
    ensures Synced(PostTelemetry(st, payload, now).state)
  {
  }

  lemma ProtectKeepsDiskSynced(st: State, serverKey: Option<string>, h: Headers, body: Object, now: int)
    requires Synced(st)
    ensures Synced(PostProtect(st, serverKey, h, body, now).state)
  {
  }

  lemma LogKeepsDiskSynced(st: State, body: Object, now: int, parseTime: Value -> Option<int>)
    requires Synced(st)
    ensures Synced(PostLog(st, body, now, parseTime).state)
  {
  }

  /** The simulated break keeps them in step only for a zone that already has a record. */
  lemma SimulateBreakKeepsDiskSynced(st: State, serverKey: Option<string>, h: Headers, body: Object, now: int)
    requires Synced(st) && JsString(Get(body, "zoneId")) in st.protect
    ensures Synced(PostSimulateBreak(st, serverKey, h, body, now).state)
  {
  }
}
