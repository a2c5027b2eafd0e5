/** The CSV export of the event and error browsers: esc, the joining of cells and records, and the
    paging loop, in pb_public/js/sections/eventbrowser.js and errorbrowser.js. */
module Csv {
  import opened Common

  // ---------------------------------------------------------------- the printer

  function EscapedChar(c: char): string {
    if c == '"' then "\"\"" else [c]
  }

  /** s.replace(/"/g, '""') */
  function DoubleQuotes(s: string): string {
    if s == "" then "" else EscapedChar(s[0]) + DoubleQuotes(s[1..])
  }

  predicate NeedsQuotes(s: string) {
    ',' in s || '"' in s || '\n' in s
  }

  /** A cell value; null and undefined are None. */
  type Cell = Option<string>

  function Text(v: Cell): string {
    match v case None => "" case Some(s) => s
  }

  function Esc(v: Cell): string {
    var s := Text(v);
    if NeedsQuotes(s) then "\"" + DoubleQuotes(s) + "\"" else s
  }

  /** Only cells with a comma, a quote or a line feed are quoted; others are printed as they are. */
  lemma EscOnlyWhenNeeded(v: Cell)
    ensures Esc(v) == Text(v) <==> ',' !in Text(v) && '"' !in Text(v) && '\n' !in Text(v)
  {
    var s := Text(v);
    if NeedsQuotes(s) {
      NeverShorter(s);
      assert |Esc(v)| == |DoubleQuotes(s)| + 2;
    }
  }

  lemma {:induction false} NeverShorter(s: string)
    ensures |DoubleQuotes(s)| >= |s|
  {
    if s != "" {
      NeverShorter(s[1..]);
    }
  }

  /** cells.map(esc).join(',') */
  function PrintRow(cells: seq<Cell>): string {
    if cells == [] then ""
    else if |cells| == 1 then Esc(cells[0])
    else Esc(cells[0]) + "," + PrintRow(cells[1..])
  }

  /** records.join('\r\n') */
  function PrintTable(rows: seq<seq<Cell>>): string {
    if rows == [] then ""
    else if |rows| == 1 then PrintRow(rows[0])
    else PrintRow(rows[0]) + "\r\n" + PrintTable(rows[1..])
  }

  // ---------------------------------------------------------------- a reader for RFC 4180, section 2

  /** Where the reader is: before a field, inside an unquoted or quoted one, or after a quote in a quoted one. */
  datatype Mode = Start | Plain | Quoted | QuoteSeen

  /** Completed records, the fields of the current record, and the text of the current field. */
  datatype Reader = Reader(rows: seq<seq<string>>, row: seq<string>, field: string, mode: Mode)

  function EndField(r: Reader): Reader {
    Reader(r.rows, r.row + [r.field], "", Start)
  }

  function EndRecord(r: Reader): Reader {
    Reader(r.rows + [r.row + [r.field]], [], "", Start)
  }

  function Put(r: Reader, c: char, mode: Mode): Reader {
    Reader(r.rows, r.row, r.field + [c], mode)
  }

  predicate AtCrlf(s: string) {
    |s| >= 2 && s[0] == '\r' && s[1] == '\n'
  }

  /** CRLF is the only record separator, so one at the very end starts a last record with one empty
      field (`ReadTerminated` below reads it the other way). A lone carriage return or line feed is text.
      None when a quote stands where the grammar allows none, or a quoted field is not closed. */
  function Read(s: string, r: Reader): Option<seq<seq<string>>> {
    if s == "" then (if r.mode == Quoted then None else Some(EndRecord(r).rows))
    else if r.mode == Quoted then
      if s[0] == '"' then Read(s[1..], r.(mode := QuoteSeen)) else Read(s[1..], Put(r, s[0], Quoted))
    else if s[0] == ',' then Read(s[1..], EndField(r))
    else if AtCrlf(s) then Read(s[2..], EndRecord(r))
    else if s[0] == '"' then
      match r.mode
      case Start => Read(s[1..], r.(mode := Quoted))
      case QuoteSeen => Read(s[1..], Put(r, '"', Quoted))
      case _ => None
    else if r.mode == QuoteSeen then None
    else Read(s[1..], Put(r, s[0], Plain))
  }

  function ReadTable(s: string): Option<seq<seq<string>>> {
    Read(s, Reader([], [], "", Start))
  }

  // ---------------------------------------------------------------- reading undoes printing

  /** What may follow a printed field: the end, a comma, or CRLF. */
  predicate FieldEnds(rest: string) {
    rest == "" || rest[0] == ',' || AtCrlf(rest)
  }

  lemma {:induction false} ReadPlain(s: string, rest: string, r: Reader)
    requires !NeedsQuotes(s) && FieldEnds(rest) && (r.mode == Start || r.mode == Plain)
    ensures Read(s + rest, r) == Read(rest, Reader(r.rows, r.row, r.field + s, if s == "" then r.mode else Plain))
  {
    if s == "" {
      assert s + rest == rest && r.field + s == r.field;
    } else {
      var c, tail := s[0], s[1..];
      assert c in s;
      var t := s + rest;
      assert t[0] == c && t[1..] == tail + rest;
      if tail != "" {
        assert t[1] == s[1] && s[1] in s;
      } else if rest != "" {
        assert t[1] == rest[0];
      }
      assert !AtCrlf(t);
      ReadPlain(tail, rest, Put(r, c, Plain));
      assert r.field + [c] + tail == r.field + s;
    }
  }

  lemma AppendHead<T>(s: seq<T>, t: seq<T>)
    requires t != []
    ensures s + [t[0]] + t[1..] == s + t
  {
  }

  lemma ReadEscapedChar(c: char, rest: string, r: Reader)
    requires r.mode == Quoted
    ensures Read(EscapedChar(c) + rest, r) == Read(rest, Put(r, c, Quoted))
  {
    if c == '"' {
      var t := "\"\"" + rest;
      assert t[0] == '"' && t[1..] == "\"" + rest;
      assert t[1..][0] == '"' && t[1..][1..] == rest;
      assert Read(t[1..], r.(mode := QuoteSeen)) == Read(rest, Put(r, c, Quoted));
    } else {
      var t := [c] + rest;
      assert t[0] == c && t[1..] == rest;
    }
  }

  lemma {:induction false} ReadQuoted(s: string, rest: string, rows: seq<seq<string>>, row: seq<string>, field: string)
    ensures Read(DoubleQuotes(s) + rest, Reader(rows, row, field, Quoted))
            == Read(rest, Reader(rows, row, field + s, Quoted))
  {
    if s == "" {
      assert DoubleQuotes(s) + rest == rest && field + s == field;
    } else {
      Assoc(EscapedChar(s[0]), DoubleQuotes(s[1..]), rest);
      ReadEscapedChar(s[0], DoubleQuotes(s[1..]) + rest, Reader(rows, row, field, Quoted));
      ReadQuoted(s[1..], rest, rows, row, field + [s[0]]);
      AppendHead(field, s);
    }
  }

  lemma AfterField(rest: string, rows: seq<seq<string>>, row: seq<string>, field: string, a: Mode, b: Mode)
    requires FieldEnds(rest) && a != Quoted && b != Quoted
    ensures Read(rest, Reader(rows, row, field, a)) == Read(rest, Reader(rows, row, field, b))
  {
  }

  lemma ReadField(v: Cell, rest: string, rows: seq<seq<string>>, row: seq<string>)
    requires FieldEnds(rest)
    ensures Read(Esc(v) + rest, Reader(rows, row, "", Start)) == Read(rest, Reader(rows, row, Text(v), Start))
  {
    var s, r := Text(v), Reader(rows, row, "", Start);
    assert "" + s == s;
    if NeedsQuotes(s) {
      var body := DoubleQuotes(s) + ("\"" + rest);
      assert Esc(v) + rest == "\"" + body;
      assert ("\"" + body)[0] == '"' && ("\"" + body)[1..] == body;
      ReadQuoted(s, "\"" + rest, rows, row, "");
      assert ("\"" + rest)[0] == '"' && ("\"" + rest)[1..] == rest;
      AfterField(rest, rows, row, s, QuoteSeen, Start);
    } else {
      ReadPlain(s, rest, r);
      AfterField(rest, rows, row, s, if s == "" then Start else Plain, Start);
    }
  }

  function Texts(cells: seq<Cell>): seq<string> {
    seq(|cells|, i requires 0 <= i < |cells| => Text(cells[i]))
  }

  predicate RecordEnds(rest: string) { rest == "" || AtCrlf(rest) }

  /** The reader's state after a record's text: all but its last field are complete. */
  function AfterRow(rows: seq<seq<string>>, row: seq<string>, cells: seq<Cell>): Reader
    requires cells != []
  {
    Reader(rows, row + Texts(cells[..|cells| - 1]), Text(cells[|cells| - 1]), Start)
  }

  lemma PrintRowStep(cells: seq<Cell>, rest: string)
    requires |cells| > 1
    ensures PrintRow(cells) + rest == Esc(cells[0]) + ("," + (PrintRow(cells[1..]) + rest))
  {
    var first, tail := Esc(cells[0]), PrintRow(cells[1..]);
    Assoc(first + ",", tail, rest);
    Assoc(first, ",", tail + rest);
  }

  lemma AfterRowStep(rows: seq<seq<string>>, row: seq<string>, cells: seq<Cell>)
    requires |cells| > 1
    ensures AfterRow(rows, row + [Text(cells[0])], cells[1..]) == AfterRow(rows, row, cells)
  {
    var n := |cells| - 1;
    assert row + [Text(cells[0])] + Texts(cells[1..][..n - 1]) == row + Texts(cells[..n]);
  }

  lemma ReadComma(tail: string, r: Reader)
    requires r.mode != Quoted
    ensures Read("," + tail, r) == Read(tail, EndField(r))
  {
    assert ("," + tail)[0] == ',' && ("," + tail)[1..] == tail;
  }

  lemma {:induction false} ReadRow(cells: seq<Cell>, rest: string, rows: seq<seq<string>>, row: seq<string>)
    requires cells != [] && RecordEnds(rest)
    ensures Read(PrintRow(cells) + rest, Reader(rows, row, "", Start)) == Read(rest, AfterRow(rows, row, cells))
  {
    if |cells| == 1 {
      ReadField(cells[0], rest, rows, row);
      assert row + Texts(cells[..0]) == row;
    } else {
      var tail := PrintRow(cells[1..]) + rest;
      PrintRowStep(cells, rest);
      ReadField(cells[0], "," + tail, rows, row);
      ReadComma(tail, Reader(rows, row, Text(cells[0]), Start));
      ReadRow(cells[1..], rest, rows, row + [Text(cells[0])]);
      AfterRowStep(rows, row, cells);
    }
  }

  function TableTexts(rows: seq<seq<Cell>>): seq<seq<string>> {
    seq(|rows|, i requires 0 <= i < |rows| => Texts(rows[i]))
  }

  lemma EndOfRow(done: seq<seq<string>>, cells: seq<Cell>)
    requires cells != []
    ensures EndRecord(AfterRow(done, [], cells)) == Reader(done + [Texts(cells)], [], "", Start)
  {
    var n := |cells| - 1;
    assert [] + Texts(cells[..n]) + [Text(cells[n])] == Texts(cells);
  }

  lemma ReadCrlf(tail: string, r: Reader)
    requires r.mode != Quoted
    ensures AtCrlf("\r\n" + tail) && Read("\r\n" + tail, r) == Read(tail, EndRecord(r))
  {
    assert ("\r\n" + tail)[2..] == tail;
  }

  lemma {:induction false} ReadRows(rows: seq<seq<Cell>>, done: seq<seq<string>>)
    requires rows != [] && forall i :: 0 <= i < |rows| ==> rows[i] != []
    ensures Read(PrintTable(rows), Reader(done, [], "", Start)) == Some(done + TableTexts(rows))
  {
    var first := rows[0];
    EndOfRow(done, first);
    if |rows| == 1 {
      assert PrintRow(first) + "" == PrintTable(rows);
      ReadRow(first, "", done, []);
      assert [Texts(first)] == TableTexts(rows);
    } else {
      var tail := PrintTable(rows[1..]);
      Assoc(PrintRow(first), "\r\n", tail);
      ReadRow(first, "\r\n" + tail, done, []);
      ReadCrlf(tail, AfterRow(done, [], first));
      ReadRows(rows[1..], done + [Texts(first)]);
      assert done + [Texts(first)] + TableTexts(rows[1..]) == done + TableTexts(rows);
    }
  }

  lemma {:induction false} ReadNonEmpty(s: string, r: Reader)
    requires forall i :: 0 <= i < |r.rows| ==> r.rows[i] != []
    ensures Read(s, r).Some? ==> Read(s, r).value != [] && forall i :: 0 <= i < |Read(s, r).value| ==> Read(s, r).value[i] != []
    decreases |s|
  {
    if s == "" {
    } else if r.mode == Quoted {
      ReadNonEmpty(s[1..], if s[0] == '"' then r.(mode := QuoteSeen) else Put(r, s[0], Quoted));
    } else if s[0] == ',' {
      ReadNonEmpty(s[1..], EndField(r));
    } else if AtCrlf(s) {
      ReadNonEmpty(s[2..], EndRecord(r));
    } else if s[0] == '"' {
      if r.mode == Start {
        ReadNonEmpty(s[1..], r.(mode := Quoted));
      } else if r.mode == QuoteSeen {
        ReadNonEmpty(s[1..], Put(r, '"', Quoted));
      }
    } else if r.mode != QuoteSeen {
      ReadNonEmpty(s[1..], Put(r, s[0], Plain));
    }
  }

  /** The export reads back exactly, whatever quotes, commas, line feeds and lone carriage returns
      its fields hold, if and only if the table has a record and every record has a field, as the
      export's fixed header row and column list guarantee. */
  lemma CsvRoundTrip(rows: seq<seq<Cell>>)
    ensures ReadTable(PrintTable(rows)) == Some(TableTexts(rows))
            <==> rows != [] && forall i :: 0 <= i < |rows| ==> rows[i] != []
  {
    var start := Reader([], [], "", Start);
    if rows != [] && forall i :: 0 <= i < |rows| ==> rows[i] != [] {
      ReadRows(rows, []);
      assert [] + TableTexts(rows) == TableTexts(rows);
    } else {
      ReadNonEmpty(PrintTable(rows), start);
      if rows != [] {
        var i :| 0 <= i < |rows| && rows[i] == [];
        assert TableTexts(rows)[i] == [];
      }
    }
  }

  // ---------------------------------------------------------------- the last line break

  /** Section 2 of RFC 4180 also lets a final CRLF merely end the last record. */
  function ReadTerminated(s: string): Option<seq<seq<string>>> {
    ReadTable(if HasSuffix(s, "\r\n") then s[..|s| - 2] else s)
  }

  /** A last record that prints as nothing, so that the text ends with the CRLF before it. */
  predicate EmptyLastRecord(rows: seq<seq<Cell>>) {
    |rows| > 1 && |rows[|rows| - 1]| == 1 && Text(rows[|rows| - 1][0]) == ""
  }

  predicate EndsLine(s: string) { s != "" && s[|s| - 1] == '\n' }

  lemma {:induction false} RowEndsNoLine(cells: seq<Cell>)
    ensures !EndsLine(PrintRow(cells))
    ensures PrintRow(cells) == "" <==> cells == [] || (|cells| == 1 && Text(cells[0]) == "")
  {
    if cells != [] {
      var s := Text(cells[0]);
      assert EndsLine(s) ==> s[|s| - 1] in s;
      if |cells| > 1 {
        RowEndsNoLine(cells[1..]);
        var tail := PrintRow(cells[1..]);
        assert PrintRow(cells) == (Esc(cells[0]) + ",") + tail;
      }
    }
  }

  lemma {:induction false} PrintTableLast(rows: seq<seq<Cell>>)
    requires |rows| > 1
    ensures PrintTable(rows) == PrintTable(rows[..|rows| - 1]) + "\r\n" + PrintRow(rows[|rows| - 1])
  {
    var n := |rows| - 1;
    if n == 1 {
      assert rows[..1] == [rows[0]] && rows[1..] == [rows[1]];
    } else {
      PrintTableLast(rows[1..]);
      assert rows[1..][..n - 1] == rows[..n][1..] && rows[..n][0] == rows[0];
      var first, middle, last := PrintRow(rows[0]) + "\r\n", PrintTable(rows[1..n]), PrintRow(rows[n]);
      assert first + (middle + "\r\n" + last) == first + middle + "\r\n" + last;
    }
  }

  /** The printed text ends with a line break only if the last record prints as nothing. */
  lemma TableEnd(rows: seq<seq<Cell>>)
    requires rows != [] && forall i :: 0 <= i < |rows| ==> rows[i] != []
    ensures HasSuffix(PrintTable(rows), "\r\n") <==> EmptyLastRecord(rows)
    ensures EmptyLastRecord(rows) ==> PrintTable(rows) == PrintTable(rows[..|rows| - 1]) + "\r\n"
  {
    var n := |rows| - 1;
    var text, last := PrintTable(rows), PrintRow(rows[n]);
    RowEndsNoLine(rows[n]);
    assert HasSuffix(text, "\r\n") ==> text[|text| - 2..][1] == text[|text| - 1];
    if n > 0 {
      PrintTableLast(rows);
    }
  }

  /** For a reader that takes a final CRLF as the end of the last record, one more shape does not read
      back: a last record of one empty field, after other records. */
  lemma CsvRoundTripTerminated(rows: seq<seq<Cell>>)
    ensures ReadTerminated(PrintTable(rows)) == Some(TableTexts(rows))
            <==> rows != [] && (forall i :: 0 <= i < |rows| ==> rows[i] != []) && !EmptyLastRecord(rows)
  {
    if rows != [] && forall i :: 0 <= i < |rows| ==> rows[i] != [] {
      TableEnd(rows);
      CsvRoundTrip(rows);
      if EmptyLastRecord(rows) {
        var front := rows[..|rows| - 1];
        CsvRoundTrip(front);
        assert (PrintTable(front) + "\r\n")[..|PrintTable(rows)| - 2] == PrintTable(front);
        assert |TableTexts(front)| < |TableTexts(rows)|;
      }
    } else {
      var s := PrintTable(rows);
      ReadNonEmpty(if HasSuffix(s, "\r\n") then s[..|s| - 2] else s, Reader([], [], "", Start));
      if rows != [] {
        var i :| 0 <= i < |rows| && rows[i] == [];
        assert TableTexts(rows)[i] == [];
      }
    }
  }

  // ---------------------------------------------------------------- the export

  /** A page of the listing and the total it reports. */
  datatype Page<T> = Page(items: seq<T>, totalItems: nat)

  function Min(a: nat, b: nat): nat { if a <= b then a else b }

  /** Page `page` (from 1) of a listing that does not change while it is read. */
  function GetList<T>(listing: seq<T>, page: nat, perPage: nat): Page<T>
    requires page > 0
  {
    var from, to := Min((page - 1) * perPage, |listing|), Min(page * perPage, |listing|);
    assert (page - 1) * perPage <= page * perPage;
    Page(listing[from..to], |listing|)
  }

  /** The paging loop: it ends with the first 1000 items of the listing, or all of a shorter one. */
  method FetchAll<T>(listing: seq<T>) returns (all: seq<T>)
    ensures all == listing[..Min(1000, |listing|)]
  {
    var perPage := 200;
    var page := 1;
    all := [];
    while |all| < 1000
      invariant page >= 1 && all == listing[..Min((page - 1) * 200, |listing|)]
      invariant (page - 1) * 200 <= |listing|
      decreases |listing| - (page - 1) * 200
    {
      var res := GetList(listing, page, perPage);
      all := all + res.items;
      assert all == listing[..Min(page * 200, |listing|)];
      if |all| >= res.totalItems || |res.items| < perPage {
        break;
      }
      page := page + 1;
    }
    if |all| > 1000 {
      all := all[..1000];
    }
  }

  /** The exported text: a header row, then one row of cells per listed item. */
  method ExportCsv<T>(headers: seq<string>, listing: seq<T>, cells: T -> seq<Cell>) returns (csv: string)
    requires headers != []
    requires forall h :: h in headers ==> !NeedsQuotes(h)
    requires forall item :: item in listing ==> |cells(item)| == |headers|
    ensures var shown := listing[..Min(1000, |listing|)];
            var table := [headers] + seq(|shown|, i requires 0 <= i < |shown| => Texts(cells(shown[i])));
            ReadTable(csv) == Some(table) && (|headers| > 1 ==> ReadTerminated(csv) == Some(table))
  {
    var all := FetchAll(listing);
    var rows := seq(|all|, i requires 0 <= i < |all| => cells(all[i]));
    var header := seq(|headers|, i requires 0 <= i < |headers| => Some(headers[i]));
    csv := PrintTable([header] + rows);
    CsvRoundTrip([header] + rows);
    CsvRoundTripTerminated([header] + rows);
    assert Texts(header) == headers;
    assert forall i :: 0 <= i < |all| ==> all[i] in listing;
    assert TableTexts([header] + rows) ==
           [headers] + seq(|all|, i requires 0 <= i < |all| => Texts(cells(all[i])));
  }
}
