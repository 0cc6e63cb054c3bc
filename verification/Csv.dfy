/** The CSV export of frontend/src/lib/format.ts, read back by the grammar of RFC 4180. */
module Csv {

  datatype Row = Row(sub: string, firstSeen: string)   // "" for a name without a date

  predicate Special(c: char) { c == '"' || c == ',' || c == '\n' || c == '\r' }

  predicate Plain(s: string) { forall i :: 0 <= i < |s| ==> !Special(s[i]) }

  /** v.replaceAll('"', '""') */
  function Doubled(v: string): string {
    if v == "" then "" else (if v[0] == '"' then "\"\"" else [v[0]]) + Doubled(v[1..])
  }

  function CsvField(v: string): string { if Plain(v) then v else "\"" + Doubled(v) + "\"" }

  function Line(withDates: bool, r: Row): string {
    if withDates then CsvField(r.sub) + "," + r.firstSeen else CsvField(r.sub)
  }

  /** rows.map(...).join('\n') */
  function Body(withDates: bool, rows: seq<Row>): string {
    if rows == [] then ""
    else if |rows| == 1 then Line(withDates, rows[0])
    else Line(withDates, rows[0]) + "\n" + Body(withDates, rows[1..])
  }

  function Head(withDates: bool): string { if withDates then "subdomain,first_seen\n" else "subdomain\n" }

  function ToCSV(withDates: bool, rows: seq<Row>): string { Head(withDates) + Body(withDates, rows) + "\n" }

  // ----- A reader

  /** The rest of a quoted field after its opening quote. */
  function ReadQuoted(s: string): (string, string)
    decreases |s|
  {
    if s == "" then ("", "")
    else if s[0] == '"' then
      if |s| > 1 && s[1] == '"' then var (v, rest) := ReadQuoted(s[2..]); ("\"" + v, rest) else ("", s[1..])
    else var (v, rest) := ReadQuoted(s[1..]); ([s[0]] + v, rest)
  }

  function ReadPlain(s: string): (string, string)
    decreases |s|
  {
    if s == "" || Special(s[0]) then ("", s) else var (v, rest) := ReadPlain(s[1..]); ([s[0]] + v, rest)
  }

  /** One field, and what follows it. */
  function ReadField(s: string): (string, string) {
    if s != "" && s[0] == '"' then ReadQuoted(s[1..]) else ReadPlain(s)
  }

  lemma {:induction false} ReadPlainShorter(s: string)
    ensures |ReadPlain(s).1| <= |s|
    decreases |s|
  {
    if s != "" && !Special(s[0]) { ReadPlainShorter(s[1..]); }
  }

  lemma {:induction false} ReadQuotedShorter(s: string)
    ensures |ReadQuoted(s).1| <= |s|
    decreases |s|
  {
    if s != "" {
      if s[0] == '"' { if |s| > 1 { ReadQuotedShorter(s[2..]); } } else { ReadQuotedShorter(s[1..]); }
    }
  }

  lemma ReadFieldShorter(s: string)
    ensures |ReadField(s).1| <= |s|
  {
    ReadPlainShorter(s);
    if s != "" { ReadQuotedShorter(s[1..]); }
  }

  /** The lines of a table, header excluded. */
  function ReadRows(withDates: bool, s: string): seq<Row>
    decreases |s|
  {
    if s == "" then []
    else
      ReadFieldShorter(s);
      var (sub, rest) := ReadField(s);
      if withDates && rest != "" && rest[0] == ',' then
        ReadFieldShorter(rest[1..]);
        var (date, more) := ReadField(rest[1..]);
        [Row(sub, date)] + (if more == "" then [] else ReadRows(withDates, more[1..]))
      else
        [Row(sub, "")] + (if rest == "" then [] else ReadRows(withDates, rest[1..]))
  }

  /** The text of a field ends where a separator, a line end or the input ends. */
  predicate Ends(s: string) { s == "" || s[0] == ',' || s[0] == '\n' || s[0] == '\r' }

  lemma {:induction false} PlainBack(v: string, rest: string)
    requires Plain(v) && Ends(rest)
    ensures ReadPlain(v + rest) == (v, rest)
    decreases |v|
  {
    if v == "" {
      assert v + rest == rest;
    } else {
      assert (v + rest)[0] == v[0] && (v + rest)[1..] == v[1..] + rest;
      PlainBack(v[1..], rest);
      assert !Special(v[0]) && v == [v[0]] + v[1..];
    }
  }

  lemma {:induction false} QuotedBack(v: string, rest: string)
    requires Ends(rest)
    ensures ReadQuoted(Doubled(v) + "\"" + rest) == (v, rest)
    decreases |v|
  {
    var s := Doubled(v) + "\"" + rest;
    if v == "" {
      assert s == "\"" + rest && s[1..] == rest;
      assert |s| > 1 ==> s[1] == rest[0];
    } else {
      var tail := Doubled(v[1..]) + "\"" + rest;
      QuotedBack(v[1..], rest);
      if v[0] == '"' {
        assert s == "\"\"" + tail && s[2..] == tail;
      } else {
        assert s == [v[0]] + tail && s[1..] == tail;
      }
      assert v == [v[0]] + v[1..];
    }
  }

  /** A printed field is read back, whatever it contains. */
  lemma FieldRoundTrip(v: string, rest: string)
    requires Ends(rest)
    ensures ReadField(CsvField(v) + rest) == (v, rest)
  {
    hide ReadPlain, ReadQuoted, Doubled;
    if Plain(v) {
      PlainBack(v, rest);
      assert v + rest != "" ==> (v + rest)[0] != '"';
    } else {
      QuotedBack(v, rest);
      var s := CsvField(v) + rest;
      assert s[1..] == Doubled(v) + "\"" + rest;
    }
  }

  predicate PlainDates(withDates: bool, rows: seq<Row>) {
    forall i :: 0 <= i < |rows| ==> if withDates then Plain(rows[i].firstSeen) else rows[i].firstSeen == ""
  }

  lemma LineRoundTrip(withDates: bool, r: Row, rest: string)
    requires if withDates then Plain(r.firstSeen) else r.firstSeen == ""
    ensures ReadRows(withDates, Line(withDates, r) + "\n" + rest) == [r] + ReadRows(withDates, rest)
  {
    hide CsvField, ReadField;
    var s := Line(withDates, r) + "\n" + rest;
    if withDates {
      var after := "," + r.firstSeen + "\n" + rest;
      assert s == CsvField(r.sub) + after;
      FieldRoundTrip(r.sub, after);
      assert after[1..] == r.firstSeen + ("\n" + rest);
      DateRoundTrip(r.firstSeen, "\n" + rest);
    } else {
      assert s == CsvField(r.sub) + ("\n" + rest);
      FieldRoundTrip(r.sub, "\n" + rest);
    }
    assert ("\n" + rest)[1..] == rest;
  }

  lemma DateRoundTrip(date: string, rest: string)
    requires Plain(date) && Ends(rest)
    ensures ReadField(date + rest) == (date, rest)
  {
    PlainBack(date, rest);
    assert date + rest != "" ==> (date + rest)[0] != '"';
  }

  lemma {:induction false} BodyRoundTrip(withDates: bool, rows: seq<Row>)
    requires rows != [] && PlainDates(withDates, rows)
    ensures ReadRows(withDates, Body(withDates, rows) + "\n") == rows
    decreases |rows|
  {
    hide Line, ReadRows;
    NoText(withDates);
    if |rows| == 1 {
      LineRoundTrip(withDates, rows[0], "");
      assert Line(withDates, rows[0]) + "\n" + "" == Line(withDates, rows[0]) + "\n";
    } else {
      BodyRoundTrip(withDates, rows[1..]);
      LineRoundTrip(withDates, rows[0], Body(withDates, rows[1..]) + "\n");
      assert Body(withDates, rows) + "\n" == Line(withDates, rows[0]) + "\n" + (Body(withDates, rows[1..]) + "\n");
      assert rows == [rows[0]] + rows[1..];
    }
  }

  lemma NoText(withDates: bool)
    ensures ReadRows(withDates, "") == []
  {
  }

  /** The table is read back if and only if it has a row: the export of an empty table
      ends in a blank line, which reads as a row with an empty name. */
  lemma TableRoundTripIff(withDates: bool, rows: seq<Row>)
    requires PlainDates(withDates, rows)
    ensures var head := if withDates then "subdomain,first_seen\n" else "subdomain\n";
            && head <= ToCSV(withDates, rows)
            && (ReadRows(withDates, ToCSV(withDates, rows)[|head|..]) == rows <==> rows != [])
  {
    hide ReadRows, Line;
    var text := ToCSV(withDates, rows);
    assert text[|Head(withDates)|..] == Body(withDates, rows) + "\n";
    if rows != [] {
      BodyRoundTrip(withDates, rows);
    } else {
      BlankLine(withDates);
      assert Body(withDates, rows) + "\n" == "\n";
    }
  }

  /** A field in characters: itself if it needs no quotes; otherwise in quotes, with each
      quote written twice. */
  lemma FieldInChars(a: string, c: string, b: string)
    requires Plain(a) && Plain(b) && (c == "\"" || c == "," || c == "\n" || c == "\r")
    ensures CsvField(a) == a
    ensures CsvField(a + c + b) == "\"" + (a + (if c == "\"" then "\"\"" else c) + b) + "\""
  {
    hide Doubled;
    assert (a + c + b)[|a|] == c[0] && Special(c[0]);
    DoubledAround(a, c, b);
  }

  lemma {:induction false} DoubledPlain(v: string)
    requires Plain(v)
    ensures Doubled(v) == v
    decreases |v|
  {
    if v != "" {
      assert !Special(v[0]);
      DoubledPlain(v[1..]);
    }
  }

  lemma {:induction false} DoubledAround(a: string, c: string, b: string)
    requires Plain(a) && Plain(b) && |c| == 1
    ensures Doubled(a + c + b) == a + (if c == "\"" then "\"\"" else c) + b
    decreases |a|
  {
    var s := a + c + b;
    if a == "" {
      DoubledPlain(b);
      assert s[0] == c[0] && s[1..] == b;
    } else {
      assert s[0] == a[0] && s[1..] == a[1..] + c + b && !Special(a[0]);
      DoubledAround(a[1..], c, b);
      assert a == [a[0]] + a[1..];
    }
  }

  /** A line in characters. */
  lemma LineInChars(withDates: bool, r: Row)
    requires Plain(r.sub)
    ensures Line(withDates, r) == if withDates then r.sub + "," + r.firstSeen else r.sub
  {
  }

  /** A table in characters: header, lines separated by a newline, a newline at the end. */
  lemma TableInChars(withDates: bool, r: Row, rows: seq<Row>)
    ensures ToCSV(withDates, rows) ==
            (if withDates then "subdomain,first_seen\n" else "subdomain\n") + Body(withDates, rows) + "\n"
    ensures Body(withDates, []) == "" && Body(withDates, [r]) == Line(withDates, r)
    ensures rows != [] ==> Body(withDates, [r] + rows) == Line(withDates, r) + "\n" + Body(withDates, rows)
  {
    hide Line;
    assert rows != [] ==> ([r] + rows)[1..] == rows;
  }

  lemma BlankLine(withDates: bool)
    ensures ReadRows(withDates, "\n") == [Row("", "")]
  {
    assert "\n"[1..] == "";
    assert ReadField("\n") == ("", "\n");
  }
}
