/**
 * Comma-separated text as the export writes it: a cell is either written
 * as is, or quoted in the manner of section 2 of RFC 4180 (embedded double
 * quotes doubled, the whole wrapped in double quotes); cells are joined
 * with `,` and records with a line feed. A reader for that format is given
 * beside it, and the two are proved to round-trip.
 */
module Csv {
  import opened Wrappers

  /** `text.replace(/"/g, '""')` */
  function Escape(s: string): (r: string)
    ensures |r| >= |s|
    ensures forall i :: 0 <= i < |r| ==> r[i] == '"' || r[i] in s
  {
    if s == [] then []
    else (if s[0] == '"' then "\"\"" else [s[0]]) + Escape(s[1..])
  }

  /** `` `"${escaped}"` `` */
  function Quote(s: string): string {
    "\"" + Escape(s) + "\""
  }

  /** Text that can stand in a record unquoted: no separator, no quote, no line feed. */
  predicate Plain(s: string) {
    forall i :: 0 <= i < |s| ==> s[i] != ',' && s[i] != '"' && s[i] != '\n'
  }

  /** `parts.join(sep)` */
  function JoinWith(sep: char, parts: seq<string>): string
  {
    if parts == [] then ""
    else if |parts| == 1 then parts[0]
    else parts[0] + [sep] + JoinWith(sep, parts[1..])
  }

  /** A cell of a record: written as is, or quoted. */
  datatype Field = Bare(text: string) | Quoted(text: string)

  predicate WellFormed(f: Field) {
    f.Bare? ==> Plain(f.text)
  }

  function EncodeField(f: Field): string {
    match f
    case Bare(t) => t
    case Quoted(t) => Quote(t)
  }

  function EncodeFields(fs: seq<Field>): (r: seq<string>)
    ensures |r| == |fs| && forall i :: 0 <= i < |fs| ==> r[i] == EncodeField(fs[i])
  {
    seq(|fs|, i requires 0 <= i < |fs| => EncodeField(fs[i]))
  }

  /** `row.join(',')` */
  function EncodeRecord(fs: seq<Field>): string {
    JoinWith(',', EncodeFields(fs))
  }

  function EncodeRecords(rows: seq<seq<Field>>): (r: seq<string>)
    ensures |r| == |rows| && forall i :: 0 <= i < |rows| ==> r[i] == EncodeRecord(rows[i])
  {
    seq(|rows|, i requires 0 <= i < |rows| => EncodeRecord(rows[i]))
  }

  /** `rows.map(e => e.join(',')).join('\n')` */
  function Encode(rows: seq<seq<Field>>): string {
    JoinWith('\n', EncodeRecords(rows))
  }

  // ---- Reading the format back ----

  /** After an opening quote: the field's value and what follows its closing quote. */
  function ReadQuoted(s: string): (r: Option<(string, string)>)
    ensures r.Some? ==> |r.value.1| < |s|
    decreases |s|
  {
    if s == [] then None
    else if s[0] == '"' then
      if |s| > 1 && s[1] == '"' then
        match ReadQuoted(s[2..])
        case None => None
        case Some((v, rest)) => Some(("\"" + v, rest))
      else Some(("", s[1..]))
    else
      match ReadQuoted(s[1..])
      case None => None
      case Some((v, rest)) => Some(([s[0]] + v, rest))
  }

  /** An unquoted field runs up to the next separator or line feed. */
  function ReadBare(s: string): (r: (string, string))
    ensures |r.1| <= |s|
    decreases |s|
  {
    if s == [] || s[0] == ',' || s[0] == '\n' then ("", s)
    else
      var (v, rest) := ReadBare(s[1..]);
      ([s[0]] + v, rest)
  }

  function ReadField(s: string): (r: Option<(string, string)>)
    ensures r.Some? ==> |r.value.1| <= |s|
  {
    if s != [] && s[0] == '"' then ReadQuoted(s[1..]) else Some(ReadBare(s))
  }

  /** One record: its values and the rest of the text, which is empty or starts at the line feed. */
  function ReadRecord(s: string): (r: Option<(seq<string>, string)>)
    ensures r.Some? ==> |r.value.1| <= |s| && (r.value.1 == [] || r.value.1[0] == '\n')
    decreases |s|
  {
    match ReadField(s)
    case None => None
    case Some((v, rest)) =>
      if rest == [] || rest[0] == '\n' then Some(([v], rest))
      else if rest[0] == ',' then
        match ReadRecord(rest[1..])
        case None => None
        case Some((vs, rest')) => Some(([v] + vs, rest'))
      else None
  }

  /** The records of a text; None when a quoted field is unterminated or followed by other text. */
  function Read(s: string): Option<seq<seq<string>>>
    decreases |s|
  {
    match ReadRecord(s)
    case None => None
    case Some((fields, rest)) =>
      if rest == [] then Some([fields])
      else
        match Read(rest[1..])
        case None => None
        case Some(rs) => Some([fields] + rs)
  }

  // ---- Round trip ----

  /** The value a reader recovers from a record: an empty record reads as one empty field. */
  function Values(fs: seq<Field>): (r: seq<string>)
    ensures fs != [] ==> |r| == |fs| && forall i :: 0 <= i < |fs| ==> r[i] == fs[i].text
    ensures fs == [] ==> r == [""]
  {
    if fs == [] then [""] else seq(|fs|, i requires 0 <= i < |fs| => fs[i].text)
  }

  /** What may follow a field: the end, a separator, or a line feed. */
  predicate FieldEnd(t: string) {
    t == [] || t[0] == ',' || t[0] == '\n'
  }

  lemma Regroup3(a: string, b: string, c: string)
    ensures a + b + c == a + (b + c)
  {
  }

  lemma Regroup(a: string, b: string, c: string, d: string)
    ensures a + b + c + d == a + (b + (c + d))
  {
  }

  /** Escaping works one character at a time. */
  lemma EscapeCons(v: string)
    requires v != []
    ensures Escape(v) == (if v[0] == '"' then "\"\"" else [v[0]]) + Escape(v[1..])
  {
  }

  /** One step of the quoted-field reader: a doubled quote or any other character. */
  lemma ReadQuotedStep(c: char, tail: string, v: string, t: string)
    requires ReadQuoted(tail) == Some((v, t))
    ensures c == '"' ==> ReadQuoted("\"\"" + tail) == Some(("\"" + v, t))
    ensures c != '"' ==> ReadQuoted([c] + tail) == Some(([c] + v, t))
  {
    assert ("\"\"" + tail)[2..] == tail;
    assert ([c] + tail)[1..] == tail;
  }

  lemma {:induction false} ReadQuotedEscape(v: string, t: string)
    requires t == [] || t[0] != '"'
    ensures ReadQuoted(Escape(v) + "\"" + t) == Some((v, t))
    decreases |v|
  {
    if v == [] {
      assert Escape(v) + "\"" + t == "\"" + t;
    } else {
      var tail := Escape(v[1..]) + "\"" + t;
      ReadQuotedEscape(v[1..], t);
      EscapeCons(v);
      var head: string := if v[0] == '"' then "\"\"" else [v[0]];
      Regroup(head, Escape(v[1..]), "\"", t);
      Regroup3(Escape(v[1..]), "\"", t);
      ReadQuotedStep(v[0], tail, v[1..], t);
      assert [v[0]] + v[1..] == v;
    }
  }

  lemma {:induction false} ReadBarePlain(v: string, t: string)
    requires Plain(v) && FieldEnd(t)
    ensures ReadBare(v + t) == (v, t)
    decreases |v|
  {
    if v == [] {
      assert v + t == t;
    } else {
      assert (v + t)[1..] == v[1..] + t;
      ReadBarePlain(v[1..], t);
      assert [v[0]] + v[1..] == v;
    }
  }

  lemma ReadFieldEncoded(f: Field, t: string)
    requires WellFormed(f) && FieldEnd(t)
    ensures ReadField(EncodeField(f) + t) == Some((f.text, t))
  {
    match f
    case Bare(v) =>
      ReadBarePlain(v, t);
      if v == [] {
        assert v + t == t;
      }
    case Quoted(v) =>
      ReadQuotedEscape(v, t);
      assert EncodeField(f) + t == "\"" + (Escape(v) + "\"" + t);
  }

  /** A record of two or more fields is the first field, a comma, and the rest of the record. */
  lemma EncodeRecordCons(fs: seq<Field>)
    requires |fs| >= 2
    ensures EncodeRecord(fs) == EncodeField(fs[0]) + "," + EncodeRecord(fs[1..])
  {
    assert EncodeFields(fs)[1..] == EncodeFields(fs[1..]);
  }

  /** One step of the record reader: a field, a comma, then the rest of the record. */
  lemma ReadRecordCons(s: string, v: string, rest: string, vs: seq<string>, t: string)
    requires ReadField(s) == Some((v, "," + rest))
    requires ReadRecord(rest) == Some((vs, t))
    ensures ReadRecord(s) == Some(([v] + vs, t))
  {
    assert ("," + rest)[1..] == rest;
  }

  /** An empty record is written as nothing and reads back as one empty field. */
  lemma ReadEmptyRecord(t: string)
    requires t == [] || t[0] == '\n'
    ensures ReadRecord(EncodeRecord([]) + t) == Some(([""], t))
  {
    assert EncodeRecord([]) + t == EncodeField(Bare("")) + t;
    ReadFieldEncoded(Bare(""), t);
  }

  lemma ValuesCons(fs: seq<Field>)
    requires |fs| >= 2
    ensures Values(fs) == [fs[0].text] + Values(fs[1..])
  {
  }

  /** The first field of a record of two or more reads back, followed by the comma. */
  lemma ReadFirstField(fs: seq<Field>, t: string)
    requires |fs| >= 2 && WellFormed(fs[0])
    ensures ReadField(EncodeRecord(fs) + t) == Some((fs[0].text, "," + (EncodeRecord(fs[1..]) + t)))
  {
    var rest := EncodeRecord(fs[1..]) + t;
    EncodeRecordCons(fs);
    Regroup(EncodeField(fs[0]), ",", EncodeRecord(fs[1..]), t);
    ReadFieldEncoded(fs[0], "," + rest);
  }

  /** The inductive step of the record round trip. */
  lemma ReadRecordEncodedCons(fs: seq<Field>, t: string)
    requires |fs| >= 2 && WellFormed(fs[0])
    requires ReadRecord(EncodeRecord(fs[1..]) + t) == Some((Values(fs[1..]), t))
    ensures ReadRecord(EncodeRecord(fs) + t) == Some((Values(fs), t))
  {
    ReadFirstField(fs, t);
    ReadRecordCons(EncodeRecord(fs) + t, fs[0].text, EncodeRecord(fs[1..]) + t, Values(fs[1..]), t);
    ValuesCons(fs);
  }

  lemma {:induction false} ReadRecordEncoded(fs: seq<Field>, t: string)
    requires forall i :: 0 <= i < |fs| ==> WellFormed(fs[i])
    requires t == [] || t[0] == '\n'
    ensures ReadRecord(EncodeRecord(fs) + t) == Some((Values(fs), t))
    decreases |fs|
  {
    if fs == [] {
      ReadEmptyRecord(t);
    } else if |fs| == 1 {
      ReadFieldEncoded(fs[0], t);
      assert EncodeRecord(fs) == EncodeField(fs[0]);
      assert Values(fs) == [fs[0].text];
    } else {
      ReadRecordEncoded(fs[1..], t);
      ReadRecordEncodedCons(fs, t);
    }
  }

  predicate RecordWellFormed(fs: seq<Field>) {
    forall i :: 0 <= i < |fs| ==> WellFormed(fs[i])
  }

  function TableValues(rows: seq<seq<Field>>): (r: seq<seq<string>>)
    ensures |r| == |rows| && forall i :: 0 <= i < |rows| ==> r[i] == Values(rows[i])
  {
    seq(|rows|, i requires 0 <= i < |rows| => Values(rows[i]))
  }

  /** A table of two or more records is the first record, a line feed, and the rest of the table. */
  lemma EncodeCons(rows: seq<seq<Field>>)
    requires |rows| >= 2
    ensures Encode(rows) == EncodeRecord(rows[0]) + "\n" + Encode(rows[1..])
  {
    assert EncodeRecords(rows)[1..] == EncodeRecords(rows[1..]);
  }

  /** One step of the table reader: a record, a line feed, then the rest of the table. */
  lemma ReadCons(s: string, fields: seq<string>, rest: string, rs: seq<seq<string>>)
    requires ReadRecord(s) == Some((fields, "\n" + rest))
    requires Read(rest) == Some(rs)
    ensures Read(s) == Some([fields] + rs)
  {
    assert ("\n" + rest)[1..] == rest;
  }

  lemma TableValuesCons(rows: seq<seq<Field>>)
    requires |rows| >= 2
    ensures TableValues(rows) == [Values(rows[0])] + TableValues(rows[1..])
  {
  }

  /** The first record of a table of two or more reads back, followed by the line feed. */
  lemma ReadFirstRecord(rows: seq<seq<Field>>)
    requires |rows| >= 2 && RecordWellFormed(rows[0])
    ensures ReadRecord(Encode(rows)) == Some((Values(rows[0]), "\n" + Encode(rows[1..])))
  {
    var rest := Encode(rows[1..]);
    EncodeCons(rows);
    Regroup3(EncodeRecord(rows[0]), "\n", rest);
    ReadRecordEncoded(rows[0], "\n" + rest);
  }

  /** The inductive step of the table round trip. */
  lemma ReadEncodedCons(rows: seq<seq<Field>>)
    requires |rows| >= 2 && RecordWellFormed(rows[0])
    requires Read(Encode(rows[1..])) == Some(TableValues(rows[1..]))
    ensures Read(Encode(rows)) == Some(TableValues(rows))
  {
    ReadFirstRecord(rows);
    ReadCons(Encode(rows), Values(rows[0]), Encode(rows[1..]), TableValues(rows[1..]));
    TableValuesCons(rows);
  }

  /** Section 2 of RFC 4180, read back: a well-formed table is recovered record by record, field by field. */
  lemma {:induction false} ReadEncoded(rows: seq<seq<Field>>)
    requires rows != []
    requires forall r :: 0 <= r < |rows| ==> RecordWellFormed(rows[r])
    ensures Read(Encode(rows)) == Some(TableValues(rows))
    decreases |rows|
  {
    if |rows| == 1 {
      ReadRecordEncoded(rows[0], "");
      assert Encode(rows) == EncodeRecord(rows[0]) + "";
      assert TableValues(rows) == [Values(rows[0])];
    } else {
      ReadEncoded(rows[1..]);
      ReadEncodedCons(rows);
    }
  }

  /** A quoted cell reads back as exactly the text that was quoted, whatever it contains. */
  lemma QuoteRoundTrip(s: string)
    ensures ReadField(Quote(s)) == Some((s, ""))
    ensures ReadRecord(Quote(s)) == Some(([s], ""))
  {
    ReadFieldEncoded(Quoted(s), "");
    assert EncodeField(Quoted(s)) + "" == Quote(s);
  }
}
