/** The server's event log (backend/server.js): entries, the 30-day retention
    trim applied after every append, and the inclusive time-range query of
    `GET /logs`. Times are milliseconds since the epoch; the ISO strings the
    server writes convert to and from them exactly. */
module LogStore {
  import opened Wrappers
  import opened Js
  import opened Seqs

  const DAY_MS: int := 24 * 60 * 60 * 1000
  const DAYS_TO_KEEP: int := 30

  /** One log entry. `zone` keeps the value the request carried; the other
      fields hold what the server stored after applying its defaults. */
  datatype Entry = Entry(zone: Value, substation: Value, status: Value, message: Value, time: int)

  /** The oldest time a trim at `now` keeps. */
  function Cutoff(now: int): int
  {
    now - DAYS_TO_KEEP * DAY_MS
  }

  /** `trimOldLogs`: keep the entries no older than 30 days, in order. */
  function TrimOld(logs: seq<Entry>, now: int): (r: seq<Entry>)
    ensures IsSubseq(r, logs)
    ensures forall e :: e in r ==> e in logs && e.time >= Cutoff(now)
    ensures forall e :: e in logs && e.time >= Cutoff(now) ==> e in r
    ensures forall e :: e in logs ==> multiset(r)[e] == if e.time >= Cutoff(now) then multiset(logs)[e] else 0
  {
    Filter(logs, (e: Entry) => e.time >= Cutoff(now))
  }

  /** Trimming twice at the same moment is trimming once. */
  lemma TrimOldIdempotent(logs: seq<Entry>, now: int)
    ensures TrimOld(TrimOld(logs, now), now) == TrimOld(logs, now)
  {
    FilterIdempotent(logs, (e: Entry) => e.time >= Cutoff(now));
  }

  /** A trim at a later moment subsumes an earlier one. */
  lemma TrimOldLater(logs: seq<Entry>, t1: int, t2: int)
    requires t1 <= t2
    ensures TrimOld(TrimOld(logs, t1), t2) == TrimOld(logs, t2)
  {
    FilterFilterStronger(logs, (e: Entry) => e.time >= Cutoff(t1), (e: Entry) => e.time >= Cutoff(t2));
  }

  /** `storedLogs.push(entry); trimOldLogs()`. */
  function Append(logs: seq<Entry>, e: Entry, now: int): (r: seq<Entry>)
    ensures r == TrimOld(logs, now) + (if e.time >= Cutoff(now) then [e] else [])
  {
    FilterAppend(logs, [e], (x: Entry) => x.time >= Cutoff(now));
    TrimOld(logs + [e], now)
  }

  /** After an append nothing older than the retention window survives, and
      everything within it, including the new entry when it is recent, does. */
  lemma AppendRetention(logs: seq<Entry>, e: Entry, now: int)
    ensures forall x :: x in Append(logs, e, now) <==> (x in logs || x == e) && x.time >= Cutoff(now)
  {
  }

  /** The time bound a query parameter imposes: none when the parameter is
      absent or empty, a parsed instant, or an unparsable one (an invalid
      `Date`, whose `NaN` fails every comparison). */
  datatype Bound = NoBound | At(ms: int) | Invalid

  /** Reads `?start` or `?end`; date parsing is the caller's `parseTime`. */
  function BoundOf(param: Value, parseTime: Value -> Option<int>): Bound
  {
    if !Truthy(param) then NoBound
    else match parseTime(param)
      case Some(ms) => At(ms)
      case None => Invalid
  }

  predicate AfterStart(e: Entry, b: Bound)
  {
    match b
    case NoBound => true
    case At(s) => e.time >= s
    case Invalid => false
  }

  predicate BeforeEnd(e: Entry, b: Bound)
  {
    match b
    case NoBound => true
    case At(t) => e.time <= t
    case Invalid => false
  }

  /** `GET /logs?start&end`: the entries within both bounds, inclusive, in stored order. */
  function Query(logs: seq<Entry>, start: Bound, end: Bound): (r: seq<Entry>)
    ensures IsSubseq(r, logs)
    ensures forall e :: e in r <==> e in logs && AfterStart(e, start) && BeforeEnd(e, end)
    ensures forall e :: e in logs ==>
      multiset(r)[e] == if AfterStart(e, start) && BeforeEnd(e, end) then multiset(logs)[e] else 0
  {
    IsSubseqReflexive(logs);
    var afterStart := if start.NoBound? then logs else Filter(logs, (e: Entry) => AfterStart(e, start));
    if end.NoBound? then afterStart
    else
      var r := Filter(afterStart, (e: Entry) => BeforeEnd(e, end));
      IsSubseqTransitive(r, afterStart, logs);
      r
  }

  /** With no bounds the query returns the whole log. */
  lemma QueryUnbounded(logs: seq<Entry>)
    ensures Query(logs, NoBound, NoBound) == logs
  {
  }
}
