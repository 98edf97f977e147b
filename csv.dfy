/** Comma-separated values as the system writes them.

    Two writers exist. The back end uses Python's `csv.writer` with the default
    ("excel") dialect: a field is quoted only when it contains a comma, a double
    quote, a carriage return or a line feed; a double quote inside a quoted field
    is doubled; a row that consists of one empty field is written as `""`; every
    row ends with CR LF. The student dashboard quotes every field, doubles inner
    quotes, and joins rows with a bare LF.

    Their partner is one reader for RFC 4180 records, and the lemmas at the end
    show that reading back what either writer produced yields the rows that were
    written (a row with no field reads back as one empty field). */
module Csv {
  import opened Common

  // ---------------------------------------------------------------- writing

  predicate NeedsQuotes(f: string) {
    ',' in f || '"' in f || '\r' in f || '\n' in f
  }

  /** Doubles every double quote. */
  function Escape(f: string): (r: string)
    ensures |r| >= |f|
    ensures '"' !in f ==> r == f
  {
    if |f| == 0 then ""
    else (if f[0] == '"' then "\"\"" else [f[0]]) + Escape(f[1..])
  }

  function Quote(f: string): string {
    "\"" + Escape(f) + "\""
  }

  /** One field under minimal quoting. */
  function WriteField(f: string): string {
    if NeedsQuotes(f) then Quote(f) else f
  }

  function WriteFields(row: seq<string>): string
    requires |row| >= 1
  {
    if |row| == 1 then WriteField(row[0])
    else WriteField(row[0]) + "," + WriteFields(row[1..])
  }

  /** The text of one row written by `csv.writer.writerow`, without its line
      terminator. */
  function WriteRow(row: seq<string>): string {
    if |row| == 0 then ""
    else if row == [""] then "\"\""
    else WriteFields(row)
  }

  /** A whole file written row by row with `csv.writer`. */
  function WriteRows(rows: seq<seq<string>>): string {
    if |rows| == 0 then ""
    else WriteRow(rows[0]) + "\r\n" + WriteRows(rows[1..])
  }

  /** The dashboard writer: every field quoted. */
  function QuoteAllRow(row: seq<string>): string {
    if |row| == 0 then ""
    else if |row| == 1 then Quote(row[0])
    else Quote(row[0]) + "," + QuoteAllRow(row[1..])
  }

  /** Rows of the dashboard writer joined by LF (no terminator after the last). */
  function QuoteAllLines(rows: seq<seq<string>>): string {
    if |rows| == 0 then ""
    else if |rows| == 1 then QuoteAllRow(rows[0])
    else QuoteAllRow(rows[0]) + "\n" + QuoteAllLines(rows[1..])
  }

  const ByteOrderMark: char := '\U{FEFF}'

  // ---------------------------------------------------------------- reading

  /** Characters that end an unquoted field. */
  predicate FieldEnd(c: char) {
    c == ',' || c == '\r' || c == '\n'
  }

  /** `s` is empty or starts where a field ends. */
  predicate AtFieldEnd(s: string) {
    |s| == 0 || FieldEnd(s[0])
  }

  /** The body of a quoted field, after its opening quote: up to the closing
      quote, with each doubled quote read as one. */
  function ParseQuoted(s: string): (r: Option<(string, string)>)
    ensures r.Some? ==> |r.value.1| < |s|
  {
    if |s| == 0 then None
    else if s[0] == '"' then
      if |s| >= 2 && s[1] == '"' then
        match ParseQuoted(s[2..])
        case None => None
        case Some(p) => Some(("\"" + p.0, p.1))
      else Some(("", s[1..]))
    else
      match ParseQuoted(s[1..])
      case None => None
      case Some(p) => Some(([s[0]] + p.0, p.1))
  }

  function ParseUnquoted(s: string): (r: (string, string))
    ensures r.0 + r.1 == s
    ensures AtFieldEnd(r.1)
  {
    if |s| == 0 || FieldEnd(s[0]) then ("", s)
    else
      var p := ParseUnquoted(s[1..]);
      assert [s[0]] + p.0 + p.1 == [s[0]] + s[1..] == s;
      ([s[0]] + p.0, p.1)
  }

  function ParseField(s: string): (r: Option<(string, string)>)
    ensures r.Some? ==> |r.value.1| <= |s|
  {
    if |s| > 0 && s[0] == '"' then ParseQuoted(s[1..])
    else Some(ParseUnquoted(s))
  }

  /** One record: fields separated by commas, up to the first character after a
      field that is not a comma. */
  function ParseRecord(s: string): (r: Option<(seq<string>, string)>)
    ensures r.Some? ==> |r.value.0| >= 1 && |r.value.1| <= |s|
    decreases |s|
  {
    match ParseField(s)
    case None => None
    case Some(p) =>
      if |p.1| > 0 && p.1[0] == ',' then
        match ParseRecord(p.1[1..])
        case None => None
        case Some(q) => Some(([p.0] + q.0, q.1))
      else Some(([p.0], p.1))
  }

  /** A file whose every record ends with CR LF. */
  function ParseCrlfRecords(s: string): Option<seq<seq<string>>>
    decreases |s|
  {
    if |s| == 0 then Some([])
    else
      match ParseRecord(s)
      case None => None
      case Some(p) =>
        if |p.1| >= 2 && p.1[..2] == "\r\n" then
          match ParseCrlfRecords(p.1[2..])
          case None => None
          case Some(rest) => Some([p.0] + rest)
        else None
  }

  /** A file whose records are separated by LF. */
  function ParseLfLines(s: string): Option<seq<seq<string>>>
    decreases |s|
  {
    match ParseRecord(s)
    case None => None
    case Some(p) =>
      if |p.1| == 0 then Some([p.0])
      else if p.1[0] == '\n' then
        match ParseLfLines(p.1[1..])
        case None => None
        case Some(rest) => Some([p.0] + rest)
      else None
  }

  /** What a row reads back as: a row without fields is an empty line, which
      reads as one empty field. */
  function ReadBack(row: seq<string>): (r: seq<string>)
    ensures |r| >= 1
    ensures |row| >= 1 ==> r == row
  {
    if |row| == 0 then [""] else row
  }

  function ReadBackAll(rows: seq<seq<string>>): (r: seq<seq<string>>)
    ensures |r| == |rows|
    ensures forall i :: 0 <= i < |rows| ==> r[i] == ReadBack(rows[i])
  {
    if |rows| == 0 then [] else [ReadBack(rows[0])] + ReadBackAll(rows[1..])
  }

  // ---------------------------------------------------------------- round trips

  lemma {:induction false} QuotedRoundTrip(f: string, t: string)
    requires AtFieldEnd(t)
    ensures ParseQuoted(Escape(f) + "\"" + t) == Some((f, t))
    decreases |f|
  {
    if |f| == 0 {
      var s := Escape(f) + "\"" + t;
      assert s == "\"" + t;
      assert s[1..] == t;
    } else {
      QuotedRoundTrip(f[1..], t);
      var rest := Escape(f[1..]) + "\"" + t;
      if f[0] == '"' {
        QuotedStepQuote(f, t, rest);
      } else {
        QuotedStepOther(f, t, rest);
      }
    }
  }

  lemma QuotedStepQuote(f: string, t: string, rest: string)
    requires |f| > 0 && f[0] == '"'
    requires rest == Escape(f[1..]) + "\"" + t
    requires ParseQuoted(rest) == Some((f[1..], t))
    ensures ParseQuoted(Escape(f) + "\"" + t) == Some((f, t))
  {
    var s := Escape(f) + "\"" + t;
    assert s == "\"\"" + rest;
    assert s[0] == '"' && s[1] == '"' && s[2..] == rest;
    assert "\"" + f[1..] == f;
  }

  lemma QuotedStepOther(f: string, t: string, rest: string)
    requires |f| > 0 && f[0] != '"'
    requires rest == Escape(f[1..]) + "\"" + t
    requires ParseQuoted(rest) == Some((f[1..], t))
    ensures ParseQuoted(Escape(f) + "\"" + t) == Some((f, t))
  {
    var s := Escape(f) + "\"" + t;
    assert s == [f[0]] + rest;
    assert s[0] == f[0] && s[1..] == rest;
    assert [f[0]] + f[1..] == f;
  }

  lemma {:induction false} UnquotedRoundTrip(f: string, t: string)
    requires !NeedsQuotes(f)
    requires AtFieldEnd(t)
    ensures ParseUnquoted(f + t) == (f, t)
    decreases |f|
  {
    if |f| == 0 {
      assert f + t == t;
    } else {
      assert f[0] in f;
      assert !NeedsQuotes(f[1..]) by {
        forall c | c in f[1..] ensures c in f { }
      }
      UnquotedRoundTrip(f[1..], t);
      assert (f + t)[1..] == f[1..] + t;
      assert [f[0]] + f[1..] == f;
    }
  }

  lemma QuoteRoundTrip(f: string, t: string)
    requires AtFieldEnd(t)
    ensures ParseField(Quote(f) + t) == Some((f, t))
  {
    QuotedRoundTrip(f, t);
    assert Quote(f) + t == "\"" + (Escape(f) + "\"" + t);
  }

  lemma FieldRoundTrip(f: string, t: string)
    requires AtFieldEnd(t)
    ensures ParseField(WriteField(f) + t) == Some((f, t))
  {
    if NeedsQuotes(f) {
      QuoteRoundTrip(f, t);
    } else {
      UnquotedRoundTrip(f, t);
      if |f| > 0 {
        assert f[0] in f;
      }
    }
  }

  /** A field followed by a comma and the rest of a record. */
  lemma RecordStep(s: string, f: string, rest: string, fs: seq<string>, t: string)
    requires ParseField(s) == Some((f, "," + rest))
    requires ParseRecord(rest) == Some((fs, t))
    ensures ParseRecord(s) == Some(([f] + fs, t))
  {
    assert ("," + rest)[1..] == rest;
  }

  /** A record followed by a line feed and further lines. */
  lemma LineStep(s: string, fs: seq<string>, rest: string, more: seq<seq<string>>)
    requires ParseRecord(s) == Some((fs, "\n" + rest))
    requires ParseLfLines(rest) == Some(more)
    ensures ParseLfLines(s) == Some([fs] + more)
  {
    assert ("\n" + rest)[1..] == rest;
  }

  /** A field at the end of a record. */
  lemma RecordLast(s: string, f: string, t: string)
    requires ParseField(s) == Some((f, t))
    requires |t| == 0 || t[0] != ','
    ensures ParseRecord(s) == Some(([f], t))
  {
  }

  /** Records written with minimal quoting read back as written, whatever follows
      them on the next line. */
  lemma {:induction false} FieldsRoundTrip(row: seq<string>, t: string)
    requires |row| >= 1
    requires |t| == 0 || t[0] == '\r' || t[0] == '\n'
    ensures ParseRecord(WriteFields(row) + t) == Some((row, t))
    decreases |row|
  {
    if |row| == 1 {
      FieldRoundTrip(row[0], t);
      RecordLast(WriteFields(row) + t, row[0], t);
      assert [row[0]] == row;
    } else {
      FieldsRoundTrip(row[1..], t);
      FieldThenRecord(row[0], WriteFields(row[1..]) + t, row[1..], t);
      ConcatAssoc(WriteField(row[0]) + ",", WriteFields(row[1..]), t);
      assert [row[0]] + row[1..] == row;
    }
  }

  /** A field written with minimal quoting, a comma, then the rest of a record. */
  lemma FieldThenRecord(f: string, rest: string, fs: seq<string>, t: string)
    requires ParseRecord(rest) == Some((fs, t))
    ensures ParseRecord(WriteField(f) + "," + rest) == Some(([f] + fs, t))
  {
    var s := WriteField(f) + ("," + rest);
    assert ParseField(s) == Some((f, "," + rest)) by {
      assert ("," + rest)[0] == ',';
      FieldRoundTrip(f, "," + rest);
    }
    RecordStep(s, f, rest, fs, t);
    ConcatAssoc(WriteField(f), ",", rest);
  }

  lemma RowRoundTrip(row: seq<string>, t: string)
    requires |t| == 0 || t[0] == '\r' || t[0] == '\n'
    ensures ParseRecord(WriteRow(row) + t) == Some((ReadBack(row), t))
  {
    if |row| == 0 {
      assert WriteRow(row) + t == t;
      RecordLast(t, "", t);
    } else if row == [""] {
      QuoteRoundTrip("", t);
      assert Quote("") == "\"\"";
      RecordLast(WriteRow(row) + t, "", t);
    } else {
      FieldsRoundTrip(row, t);
    }
  }

  /** Reading a file written by `csv.writer` gives back its rows. */
  lemma {:induction false} WriteRowsRoundTrip(rows: seq<seq<string>>)
    ensures ParseCrlfRecords(WriteRows(rows)) == Some(ReadBackAll(rows))
    decreases |rows|
  {
    if |rows| > 0 {
      WriteRowsRoundTrip(rows[1..]);
      RowThenRecords(rows[0], WriteRows(rows[1..]), ReadBackAll(rows[1..]));
    }
  }

  /** One row written by `csv.writer`, then CR LF, then further records. */
  lemma RowThenRecords(row: seq<string>, rest: string, more: seq<seq<string>>)
    requires ParseCrlfRecords(rest) == Some(more)
    ensures ParseCrlfRecords(WriteRow(row) + "\r\n" + rest) == Some([ReadBack(row)] + more)
  {
    var t := "\r\n" + rest;
    var s := WriteRow(row) + t;
    assert ParseRecord(s) == Some((ReadBack(row), t)) by {
      assert t[0] == '\r';
      RowRoundTrip(row, t);
    }
    CrlfStep(s, ReadBack(row), rest, more);
    ConcatAssoc(WriteRow(row), "\r\n", rest);
  }

  /** A record followed by CR LF and further records. */
  lemma CrlfStep(s: string, fs: seq<string>, rest: string, more: seq<seq<string>>)
    requires ParseRecord(s) == Some((fs, "\r\n" + rest))
    requires ParseCrlfRecords(rest) == Some(more)
    ensures ParseCrlfRecords(s) == Some([fs] + more)
  {
    var t := "\r\n" + rest;
    assert |s| >= |t| >= 2;
    assert t[..2] == "\r\n" && t[2..] == rest;
  }

  lemma {:induction false} QuoteAllRowRoundTrip(row: seq<string>, t: string)
    requires |row| >= 1
    requires |t| == 0 || t[0] == '\r' || t[0] == '\n'
    ensures ParseRecord(QuoteAllRow(row) + t) == Some((row, t))
    decreases |row|
  {
    if |row| == 1 {
      QuoteRoundTrip(row[0], t);
      RecordLast(QuoteAllRow(row) + t, row[0], t);
      assert [row[0]] == row;
    } else {
      QuoteAllRowRoundTrip(row[1..], t);
      QuotedThenRecord(row[0], QuoteAllRow(row[1..]) + t, row[1..], t);
      ConcatAssoc(Quote(row[0]) + ",", QuoteAllRow(row[1..]), t);
      assert [row[0]] + row[1..] == row;
    }
  }

  /** A quoted field, a comma, then the rest of a record. */
  lemma QuotedThenRecord(f: string, rest: string, fs: seq<string>, t: string)
    requires ParseRecord(rest) == Some((fs, t))
    ensures ParseRecord(Quote(f) + "," + rest) == Some(([f] + fs, t))
  {
    var s := Quote(f) + ("," + rest);
    assert ParseField(s) == Some((f, "," + rest)) by {
      assert ("," + rest)[0] == ',';
      QuoteRoundTrip(f, "," + rest);
    }
    RecordStep(s, f, rest, fs, t);
    ConcatAssoc(Quote(f), ",", rest);
  }

  /** One dashboard line: the record read from it, for any text after its LF. */
  lemma LineRecord(row: seq<string>, t: string)
    requires |t| == 0 || t[0] == '\n'
    ensures ParseRecord(QuoteAllRow(row) + t) == Some((ReadBack(row), t))
  {
    if |row| == 0 {
      assert QuoteAllRow(row) + t == t;
      assert ParseUnquoted(t) == ("", t);
      RecordLast(t, "", t);
    } else {
      QuoteAllRowRoundTrip(row, t);
    }
  }

  /** Reading the dashboard's LF-joined text gives back its rows. */
  lemma {:induction false} QuoteAllLinesRoundTrip(rows: seq<seq<string>>)
    requires |rows| >= 1
    ensures ParseLfLines(QuoteAllLines(rows)) == Some(ReadBackAll(rows))
    decreases |rows|
  {
    if |rows| == 1 {
      LineRecord(rows[0], "");
      assert QuoteAllLines(rows) == QuoteAllRow(rows[0]) + "";
      assert ReadBackAll(rows) == [ReadBack(rows[0])];
    } else {
      QuoteAllLinesRoundTrip(rows[1..]);
      LineThenLines(rows[0], QuoteAllLines(rows[1..]), ReadBackAll(rows[1..]));
      assert ReadBackAll(rows) == [ReadBack(rows[0])] + ReadBackAll(rows[1..]);
    }
  }

  /** An all-quoted row, a line feed, then further lines. */
  lemma LineThenLines(row: seq<string>, rest: string, more: seq<seq<string>>)
    requires ParseLfLines(rest) == Some(more)
    ensures ParseLfLines(QuoteAllRow(row) + "\n" + rest) == Some([ReadBack(row)] + more)
  {
    var t := "\n" + rest;
    var s := QuoteAllRow(row) + t;
    assert ParseRecord(s) == Some((ReadBack(row), t)) by {
      assert t[0] == '\n';
      LineRecord(row, t);
    }
    LineStep(s, ReadBack(row), rest, more);
    ConcatAssoc(QuoteAllRow(row), "\n", rest);
  }
}
