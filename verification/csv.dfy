/** The CSV serialiser both export pages share (`esc` joined with `,` and `\n`),
    and a reader for the dialect it writes: fields separated by `,`, records by
    `\n`, a field wrapped in `"` when it holds `,`, `\n` or `"`, with every inner
    `"` doubled (rules 6 and 7 of section 2 of RFC 4180). A carriage return is not
    special to the writer, so the reader does not treat it specially either. */
module Csv {
  import opened Wrappers
  import opened Js

  /** `s.includes(',') || s.includes('\n') || s.includes('"')`. */
  predicate NeedsQuoting(s: string)
  {
    ',' in s || '\n' in s || '"' in s
  }

  /** A text without commas, newlines and double quotes is written bare. */
  lemma PlainText(s: string)
    requires forall i :: 0 <= i < |s| ==> s[i] != ',' && s[i] != '\n' && s[i] != '"'
    ensures !NeedsQuoting(s)
  {
  }

  /** Inside a quoted field every `"` is immediately followed by a second one. */
  predicate PairedQuotes(s: string)
    decreases |s|
  {
    if |s| == 0 then true
    else if s[0] == '"' then |s| >= 2 && s[1] == '"' && PairedQuotes(s[2..])
    else PairedQuotes(s[1..])
  }

  /** `s.replace(/"/g, '""')`. */
  function DoubleQuotes(s: string): (r: string)
    ensures PairedQuotes(r)
    ensures |r| >= |s|
    ensures !('"' in s) ==> r == s
  {
    if |s| == 0 then ""
    else if s[0] == '"' then "\"\"" + DoubleQuotes(s[1..])
    else
      var t := DoubleQuotes(s[1..]);
      assert ([s[0]] + t)[1..] == t;
      [s[0]] + t
  }

  /** The text of a field after `String(v)`. */
  function EscText(s: string): (r: string)
    ensures !NeedsQuoting(s) ==> r == s
    ensures NeedsQuoting(s) ==>
      && |r| >= |s| + 2 && r[0] == '"' && r[|r| - 1] == '"'
      && PairedQuotes(r[1..|r| - 1])
  {
    if NeedsQuoting(s) then
      var r := "\"" + DoubleQuotes(s) + "\"";
      assert r[1..|r| - 1] == DoubleQuotes(s);
      r
    else s
  }

  /** What a cell denotes: empty for `null`/`undefined`, otherwise `String(v)`. */
  function CellText(v: Value): string
  {
    if Nullish(v) then "" else JsString(v)
  }

  /** `esc(v)` as both export pages define it. */
  function Esc(v: Value): (r: string)
    ensures Nullish(v) ==> r == ""
    ensures !Nullish(v) && !NeedsQuoting(JsString(v)) ==> r == JsString(v)
    ensures !Nullish(v) && NeedsQuoting(JsString(v)) ==>
      && |r| >= 2 && r[0] == '"' && r[|r| - 1] == '"'
      && PairedQuotes(r[1..|r| - 1])
    ensures r == EscText(CellText(v))
  {
    if Nullish(v) then ""
    else
      var s := JsString(v);
      if NeedsQuoting(s) then "\"" + DoubleQuotes(s) + "\"" else s
  }

  /** A number is never quoted: its decimal form holds none of the special characters. */
  lemma EscNumberIsPlain(n: int)
    ensures Esc(Num(n)) == JsString(Num(n))
  {
    var d := if n < 0 then NatToDecimal(-n) else NatToDecimal(n);
    assert forall i :: 0 <= i < |d| ==> '0' <= d[i] <= '9';
    assert !NeedsQuoting(JsString(Num(n)));
  }

  /** An array of two or more elements is written joined by commas, so it is
      quoted: `esc(['x', 'y'])` is `"x,y"`. An empty or one-element array has
      no comma and is quoted only if its text needs it. */
  lemma EscArrayIsQuoted(x: string, y: string)
    requires '"' !in x && '"' !in y
    ensures Esc(Arr([Str(x), Str(y)])) == "\"" + (x + "," + y) + "\""
  {
    var a: seq<Value> := [Str(x), Str(y)];
    assert a[1..] == [Str(y)];
    assert ArrayText(a[1..]) == y;
    assert ArrayText(a) == x + "," + ArrayText(a[1..]);
    var t := JsString(Arr(a));
    assert t == x + "," + y;
    assert t[|x|] == ',';
    assert NeedsQuoting(t) && '"' !in t;
    assert DoubleQuotes(t) == t;
    assert Esc(Arr(a)) == "\"" + t + "\"";
  }

  /** A carriage return alone does not cause quoting. */
  lemma EscLeavesCarriageReturnBare()
    ensures Esc(Str("a\rb")) == "a\rb"
  {
    assert !NeedsQuoting("a\rb");
  }

  /** `parts.join(sep)`. */
  function Join(parts: seq<string>, sep: string): string
  {
    if |parts| == 0 then ""
    else if |parts| == 1 then parts[0]
    else parts[0] + sep + Join(parts[1..], sep)
  }

  /** `fields.map(esc)` on texts. */
  function EscapeAll(fields: seq<string>): (r: seq<string>)
    ensures |r| == |fields|
    ensures forall i :: 0 <= i < |fields| ==> r[i] == EscText(fields[i])
  {
    if |fields| == 0 then [] else [EscText(fields[0])] + EscapeAll(fields[1..])
  }

  /** Fields that need no quoting are written as they are. */
  lemma EscapeAllPlain(fields: seq<string>)
    requires forall i :: 0 <= i < |fields| ==> !NeedsQuoting(fields[i])
    ensures EscapeAll(fields) == fields
  {
    assert forall i :: 0 <= i < |fields| ==> EscapeAll(fields)[i] == fields[i];
  }

  /** `values.map(esc)`. */
  function EscValues(vs: seq<Value>): (r: seq<string>)
    ensures |r| == |vs|
    ensures forall i :: 0 <= i < |vs| ==> r[i] == Esc(vs[i])
  {
    if |vs| == 0 then [] else [Esc(vs[0])] + EscValues(vs[1..])
  }

  lemma EscValuesEscapeAll(vs: seq<Value>, ts: seq<string>)
    requires |vs| == |ts|
    requires forall i :: 0 <= i < |vs| ==> Esc(vs[i]) == EscText(ts[i])
    ensures EscValues(vs) == EscapeAll(ts)
  {
    assert forall i :: 0 <= i < |vs| ==> EscValues(vs)[i] == EscapeAll(ts)[i];
  }

  /** One CSV line from field texts. */
  function EncodeRecord(fields: seq<string>): string
  {
    Join(EscapeAll(fields), ",")
  }

  /** The lines of a table joined by `\n`. */
  function EncodeLines(records: seq<seq<string>>): (r: seq<string>)
    ensures |r| == |records|
    ensures forall i :: 0 <= i < |records| ==> r[i] == EncodeRecord(records[i])
  {
    if |records| == 0 then [] else [EncodeRecord(records[0])] + EncodeLines(records[1..])
  }

  /** A header record in front of a body adds its line in front of the body's lines. */
  lemma EncodeWithHeader(h: seq<string>, line: string, body: seq<seq<string>>, lines: seq<string>)
    requires EncodeRecord(h) == line
    requires EncodeLines(body) == lines
    ensures EncodeLines([h] + body) == [line] + lines
  {
    assert ([h] + body)[1..] == body;
  }

  function Encode(records: seq<seq<string>>): string
  {
    Join(EncodeLines(records), "\n")
  }

  // ---------------------------------------------------------------------------
  // Reader

  /** An unquoted field: everything up to the next `,` or `\n`. */
  function ReadBare(s: string): (r: (string, string))
    ensures |r.1| <= |s|
  {
    if |s| == 0 || s[0] == ',' || s[0] == '\n' then ("", s)
    else
      var p := ReadBare(s[1..]);
      ([s[0]] + p.0, p.1)
  }

  /** The body of a quoted field after its opening quote: `""` stands for one
      quote and a lone `"` closes the field. `None` when the field never closes. */
  function ReadQuoted(s: string): (r: Option<(string, string)>)
    ensures r.Some? ==> |r.value.1| < |s|
    decreases |s|
  {
    if |s| == 0 then None
    else if s[0] == '"' then
      if |s| >= 2 && s[1] == '"' then
        match ReadQuoted(s[2..])
        case None => None
        case Some(p) => Some(("\"" + p.0, p.1))
      else Some(("", s[1..]))
    else
      match ReadQuoted(s[1..])
      case None => None
      case Some(p) => Some(([s[0]] + p.0, p.1))
  }

  function ReadField(s: string): (r: Option<(string, string)>)
    ensures r.Some? ==> |r.value.1| <= |s|
  {
    if |s| > 0 && s[0] == '"' then ReadQuoted(s[1..]) else Some(ReadBare(s))
  }

  /** The fields of one record; the rest starts at the `\n` that ends it, or is empty. */
  function ReadRecord(s: string): (r: Option<(seq<string>, string)>)
    ensures r.Some? ==> |r.value.1| <= |s|
    decreases |s|
  {
    match ReadField(s)
    case None => None
    case Some(p) =>
      if |p.1| == 0 || p.1[0] == '\n' then Some(([p.0], p.1))
      else if p.1[0] == ',' then
        match ReadRecord(p.1[1..])
        case None => None
        case Some(q) => Some(([p.0] + q.0, q.1))
      else None
  }

  /** All records of a document. */
  function Decode(s: string): (r: Option<seq<seq<string>>>)
    decreases |s|
  {
    match ReadRecord(s)
    case None => None
    case Some(p) =>
      if |p.1| == 0 then Some([p.0])
      else
        match Decode(p.1[1..])
        case None => None
        case Some(rest) => Some([p.0] + rest)
  }

  // ---------------------------------------------------------------------------
  // Round trip

  /** `s` is empty or starts with one of `cs`. */
  predicate StartsWithOneOf(s: string, cs: set<char>)
  {
    |s| == 0 || s[0] in cs
  }

  lemma {:induction false} ReadBarePlain(t: string, rest: string)
    requires ',' !in t && '\n' !in t
    requires StartsWithOneOf(rest, {',', '\n'})
    ensures ReadBare(t + rest) == (t, rest)
    decreases |t|
  {
    if |t| == 0 {
      assert t + rest == rest;
    } else {
      assert t[0] in t;
      assert (t + rest)[0] == t[0];
      assert (t + rest)[1..] == t[1..] + rest;
      ReadBarePlain(t[1..], rest);
      assert [t[0]] + t[1..] == t;
    }
  }

  lemma {:induction false} ReadQuotedDoubled(t: string, rest: string)
    requires |rest| == 0 || rest[0] != '"'
    ensures ReadQuoted(DoubleQuotes(t) + "\"" + rest) == Some((t, rest))
    decreases |t|
  {
    if |t| == 0 {
      var s := DoubleQuotes(t) + "\"" + rest;
      assert s == "\"" + rest;
      assert s[1..] == rest;
    } else {
      ReadQuotedDoubled(t[1..], rest);
      if t[0] == '"' {
        ReadQuotedDoubledQuote(t, rest);
      } else {
        ReadQuotedDoubledOther(t, rest);
      }
    }
  }

  lemma ReadQuotedDoubledQuote(t: string, rest: string)
    requires |t| > 0 && t[0] == '"'
    requires ReadQuoted(DoubleQuotes(t[1..]) + "\"" + rest) == Some((t[1..], rest))
    ensures ReadQuoted(DoubleQuotes(t) + "\"" + rest) == Some((t, rest))
  {
    var s' := DoubleQuotes(t[1..]) + "\"" + rest;
    assert DoubleQuotes(t) + "\"" + rest == "\"\"" + s';
    ReadQuotedPair(s', t[1..], rest);
    assert "\"" + t[1..] == t;
  }

  lemma ReadQuotedDoubledOther(t: string, rest: string)
    requires |t| > 0 && t[0] != '"'
    requires ReadQuoted(DoubleQuotes(t[1..]) + "\"" + rest) == Some((t[1..], rest))
    ensures ReadQuoted(DoubleQuotes(t) + "\"" + rest) == Some((t, rest))
  {
    var s' := DoubleQuotes(t[1..]) + "\"" + rest;
    assert DoubleQuotes(t) + "\"" + rest == [t[0]] + s';
    ReadQuotedPlain(t[0], s', t[1..], rest);
    assert [t[0]] + t[1..] == t;
  }

  /** A doubled quote inside a quoted field reads as one quote. */
  lemma ReadQuotedPair(s: string, t: string, rest: string)
    requires ReadQuoted(s) == Some((t, rest))
    ensures ReadQuoted("\"\"" + s) == Some(("\"" + t, rest))
  {
    assert ("\"\"" + s)[2..] == s;
  }

  /** Any other character inside a quoted field reads as itself. */
  lemma ReadQuotedPlain(c: char, s: string, t: string, rest: string)
    requires c != '"'
    requires ReadQuoted(s) == Some((t, rest))
    ensures ReadQuoted([c] + s) == Some(([c] + t, rest))
  {
    assert ([c] + s)[1..] == s;
  }

  /** Reading an escaped field gives back its text and stops at the delimiter. */
  lemma ReadFieldEscaped(t: string, rest: string)
    requires StartsWithOneOf(rest, {',', '\n'})
    ensures ReadField(EscText(t) + rest) == Some((t, rest))
  {
    if NeedsQuoting(t) {
      assert EscText(t) + rest == "\"" + (DoubleQuotes(t) + "\"" + rest);
      ReadFieldQuoted(t, rest);
    } else {
      ReadFieldBare(t, rest);
    }
  }

  lemma ReadFieldQuoted(t: string, rest: string)
    requires StartsWithOneOf(rest, {',', '\n'})
    ensures ReadField("\"" + (DoubleQuotes(t) + "\"" + rest)) == Some((t, rest))
  {
    var s := "\"" + (DoubleQuotes(t) + "\"" + rest);
    assert s[1..] == DoubleQuotes(t) + "\"" + rest;
    ReadQuotedDoubled(t, rest);
  }

  lemma ReadFieldBare(t: string, rest: string)
    requires !NeedsQuoting(t)
    requires StartsWithOneOf(rest, {',', '\n'})
    ensures ReadField(t + rest) == Some((t, rest))
  {
    ReadBarePlain(t, rest);
    if |t| == 0 {
      assert t + rest == rest;
    } else {
      assert t[0] in t;
      assert (t + rest)[0] == t[0];
    }
  }

  lemma {:induction false} ReadRecordEncoded(fields: seq<string>, rest: string)
    requires |fields| > 0
    requires StartsWithOneOf(rest, {'\n'})
    ensures ReadRecord(EncodeRecord(fields) + rest) == Some((fields, rest))
    decreases |fields|
  {
    if |fields| == 1 {
      assert EncodeRecord(fields) == EscText(fields[0]);
      ReadFieldEscaped(fields[0], rest);
      assert ReadField(EncodeRecord(fields) + rest) == Some((fields[0], rest));
      assert [fields[0]] == fields;
    } else {
      var tail := EncodeRecord(fields[1..]) + rest;
      EncodeRecordCons(fields, rest);
      ReadFieldEscaped(fields[0], "," + tail);
      ReadRecordEncoded(fields[1..], rest);
      ReadRecordCons(EscText(fields[0]) + ("," + tail), fields[0], tail, fields[1..], rest);
      assert [fields[0]] + fields[1..] == fields;
    }
  }

  /** The first field escaped, a `,`, then the rest of the record. */
  lemma EncodeRecordCons(fields: seq<string>, rest: string)
    requires |fields| >= 2
    ensures EncodeRecord(fields) + rest == EscText(fields[0]) + ("," + (EncodeRecord(fields[1..]) + rest))
  {
    var e := EscapeAll(fields);
    assert EscapeAll(fields[1..]) == e[1..];
  }

  /** A field read off the front of a record up to a `,`, followed by the fields of the rest. */
  lemma ReadRecordCons(s: string, field: string, tail: string, fields: seq<string>, rest: string)
    requires ReadField(s) == Some((field, "," + tail))
    requires ReadRecord(tail) == Some((fields, rest))
    ensures ReadRecord(s) == Some(([field] + fields, rest))
  {
    assert ("," + tail)[1..] == tail;
  }

  /** Decoding an encoded table gives back every field of every record, provided
      the table and each of its records are non-empty. */
  lemma {:induction false} DecodeEncode(records: seq<seq<string>>)
    requires |records| > 0
    requires forall i :: 0 <= i < |records| ==> |records[i]| > 0
    ensures Decode(Encode(records)) == Some(records)
    decreases |records|
  {
    if |records| == 1 {
      assert Encode(records) == EncodeRecord(records[0]) + "";
      ReadRecordEncoded(records[0], "");
      assert [records[0]] == records;
    } else {
      var tail := Encode(records[1..]);
      EncodeCons(records);
      ReadRecordEncoded(records[0], "\n" + tail);
      DecodeEncode(records[1..]);
      DecodeCons(EncodeRecord(records[0]), records[0], tail, records[1..]);
      assert [records[0]] + records[1..] == records;
    }
  }

  /** The first line, a `\n`, then the rest of the document. */
  lemma EncodeCons(records: seq<seq<string>>)
    requires |records| >= 2
    ensures Encode(records) == EncodeRecord(records[0]) + ("\n" + Encode(records[1..]))
  {
    var lines := EncodeLines(records);
    assert EncodeLines(records[1..]) == lines[1..];
  }

  /** A header line followed by body lines, joined by `\n`; with no body it is
      the header line alone. */
  function WriteLines(header: string, lines: seq<string>): (r: string)
    ensures lines == [] ==> r == header
  {
    assert lines == [] ==> [header] + lines == [header];
    Join([header] + lines, "\n")
  }

  /** Every record of a table has at least one field. */
  predicate NoEmptyRecords(body: seq<seq<string>>)
  {
    forall i :: 0 <= i < |body| ==> |body[i]| > 0
  }

  /** A table written under the header `h`: the header's names joined by commas,
      then the body lines. With no body it is the header line alone. */
  function WriteTable(h: seq<string>, lines: seq<string>): (r: string)
    ensures lines == [] ==> r == Join(h, ",")
  {
    WriteLines(Join(h, ","), lines)
  }

  /** A record read off the front of a document, followed by the records of the rest. */
  lemma DecodeCons(line: string, fields: seq<string>, tail: string, rest: seq<seq<string>>)
    requires ReadRecord(line + ("\n" + tail)) == Some((fields, "\n" + tail))
    requires Decode(tail) == Some(rest)
    ensures Decode(line + ("\n" + tail)) == Some([fields] + rest)
  {
    assert ("\n" + tail)[1..] == tail;
  }

  /** A header record and body records, written one line each and joined by
      `\n`, read back as the header followed by the body. */
  lemma DecodeWithHeader(h: seq<string>, hline: string, body: seq<seq<string>>, lines: seq<string>)
    requires |h| > 0
    requires NoEmptyRecords(body)
    requires EncodeRecord(h) == hline
    requires EncodeLines(body) == lines
    ensures Decode(WriteLines(hline, lines)) == Some([h] + body)
  {
    EncodeWithHeader(h, hline, body, lines);
    DecodeEncode([h] + body);
  }

  /** `WriteTable` reads back as the header followed by the body, provided no
      header name needs quoting. */
  lemma DecodeTable(h: seq<string>, body: seq<seq<string>>, lines: seq<string>)
    requires |h| > 0
    requires NoEmptyRecords(body)
    requires EncodeRecord(h) == Join(h, ",")
    requires EncodeLines(body) == lines
    ensures Decode(WriteTable(h, lines)) == Some([h] + body)
  {
    DecodeWithHeader(h, Join(h, ","), body, lines);
  }
}
