// The CSV files of a data export, and a reader for section 2 of RFC 4180 in which CRLF separates
// records and a lone CR or LF is data.
module Csv {
  import opened Wrappers

  const BOM: char := '\U{FEFF}'

  // ---- The writer --------------------------------------------------------------------------------

  // A cell is null or has a string form.
  function CellText(cell: Option<string>): string {
    if cell.None? then "" else cell.value
  }

  function DoubleQuotes(s: string): string {
    if s == "" then ""
    else (if s[0] == '"' then "\"\"" else [s[0]]) + DoubleQuotes(s[1..])
  }

  function Escape(s: string): string {
    if ',' in s || '"' in s || '\n' in s then "\"" + DoubleQuotes(s) + "\"" else s
  }

  // Only a cell with a comma, a quote or a line feed is quoted; every other one is written as it is.
  lemma QuotedIff(s: string)
    ensures Escape(s) == s <==> !(',' in s || '"' in s || '\n' in s)
    ensures ',' in s || '"' in s || '\n' in s ==> |Escape(s)| >= 2 && Escape(s)[0] == '"' == Escape(s)[|Escape(s)| - 1]
  {
    if ',' in s || '"' in s || '\n' in s {
      DoubledIsLonger(s);
    }
  }

  lemma {:induction false} DoubledIsLonger(s: string)
    ensures |DoubleQuotes(s)| >= |s|
  {
    if s != "" {
      DoubledIsLonger(s[1..]);
    }
  }

  function Join(parts: seq<string>, separator: string): string {
    if parts == [] then ""
    else if |parts| == 1 then parts[0]
    else parts[0] + separator + Join(parts[1..], separator)
  }

  function Texts(row: seq<Option<string>>): (texts: seq<string>)
    ensures |texts| == |row|
  {
    seq(|row|, i requires 0 <= i < |row| => CellText(row[i]))
  }

  function Escaped(texts: seq<string>): (cells: seq<string>)
    ensures |cells| == |texts|
  {
    seq(|texts|, i requires 0 <= i < |texts| => Escape(texts[i]))
  }

  // The headers go out as they are; only the cells are escaped.
  function Written(headers: seq<string>, rows: seq<seq<Option<string>>>): (lines: seq<seq<string>>)
    ensures |lines| == |rows| + 1
  {
    [headers] + seq(|rows|, i requires 0 <= i < |rows| => Escaped(Texts(rows[i])))
  }

  function Lines(written: seq<seq<string>>): (lines: seq<string>)
    ensures |lines| == |written|
  {
    seq(|written|, i requires 0 <= i < |written| => Join(written[i], ","))
  }

  function FileText(written: seq<seq<string>>): string {
    Join(Lines(written), "\r\n")
  }

  function Body(headers: seq<string>, rows: seq<seq<Option<string>>>): string {
    FileText(Written(headers, rows))
  }

  function ToCsv(headers: seq<string>, rows: seq<seq<Option<string>>>): string {
    [BOM] + Body(headers, rows)
  }

  // The file starts with the byte order mark, then the headers as they are.
  lemma StartsWithBom(headers: seq<string>, rows: seq<seq<Option<string>>>)
    ensures var csv := ToCsv(headers, rows);
      && |csv| > 0 && csv[0] as int == 0xFEFF && csv[1..] == Body(headers, rows)
  {
  }

  function Table(headers: seq<string>, rows: seq<seq<Option<string>>>): (table: seq<seq<string>>)
    ensures |table| == |rows| + 1
  {
    [headers] + seq(|rows|, i requires 0 <= i < |rows| => Texts(rows[i]))
  }

  // ---- The reader -----------------------------------------------------------------------------------

  datatype Field = Field(value: string, rest: string)

  predicate BreakAt(s: string, i: nat) {
    i + 1 < |s| && s[i] == '\r' && s[i + 1] == '\n'
  }

  // Where a field may end.
  predicate Stops(s: string) {
    s == "" || s[0] == ',' || BreakAt(s, 0)
  }

  // An unescaped field: no comma, no break and no quote.
  function Bare(s: string): (f: Option<Field>)
    ensures f.Some? ==> s == f.value.value + f.value.rest
  {
    if Stops(s) then Some(Field("", s))
    else if s[0] == '"' then None
    else
      var f := Bare(s[1..]);
      if f.None? then None else Some(Field([s[0]] + f.value.value, f.value.rest))
  }

  // The inside of an escaped field, up to its closing quote.
  function Quoted(s: string): (f: Option<Field>)
    ensures f.Some? ==> |f.value.rest| < |s|
  {
    if s == "" then None
    else if s[0] != '"' then
      var f := Quoted(s[1..]);
      if f.None? then None else Some(Field([s[0]] + f.value.value, f.value.rest))
    else if |s| > 1 && s[1] == '"' then
      var f := Quoted(s[2..]);
      if f.None? then None else Some(Field("\"" + f.value.value, f.value.rest))
    else Some(Field("", s[1..]))
  }

  function ReadField(s: string): (f: Option<Field>)
    ensures f.Some? ==> |f.value.rest| <= |s|
  {
    if s != "" && s[0] == '"' then Quoted(s[1..]) else Bare(s)
  }

  type Records = Option<seq<seq<string>>>

  predicate NoEmptyRecord(records: Records) {
    records.Some? ==> records.value != [] && forall i :: 0 <= i < |records.value| ==> records.value[i] != []
  }

  // The record goes on after a comma.
  function Before(value: string, more: Records): (records: Records)
    requires NoEmptyRecord(more)
    ensures NoEmptyRecord(records)
  {
    if more.None? then None else Some([[value] + more.value[0]] + more.value[1..])
  }

  function Then(row: seq<string>, more: Records): (records: Records)
    ensures row != [] && NoEmptyRecord(more) ==> NoEmptyRecord(records)
  {
    if more.None? then None else Some([row] + more.value)
  }

  function Parse(s: string): (records: Records)
    ensures NoEmptyRecord(records)
    decreases |s|
  {
    var f := ReadField(s);
    if f.None? then None
    else
      var value, rest := f.value.value, f.value.rest;
      if rest == "" then Some([[value]])
      else if rest[0] == ',' then Before(value, Parse(rest[1..]))
      else if BreakAt(rest, 0) then Then([value], Parse(rest[2..]))
      else None
  }

  predicate EndsWithBreak(s: string) {
    |s| >= 2 && BreakAt(s, |s| - 2)
  }

  // The last record may or may not have an ending line break.
  function ParseFile(s: string): Option<seq<seq<string>>> {
    Parse(if EndsWithBreak(s) then s[..|s| - 2] else s)
  }

  // ---- One field --------------------------------------------------------------------------------------

  // What needs no escaping for this reader.
  predicate Plain(s: string) {
    ',' !in s && '"' !in s && forall i :: 0 <= i < |s| ==> !BreakAt(s, i)
  }

  predicate Encodes(text: string, cell: string) {
    text == Escape(cell) || (text == cell && Plain(cell))
  }

  lemma PlainTail(cell: string)
    requires cell != "" && Plain(cell)
    ensures Plain(cell[1..]) && cell[0] != ',' && cell[0] != '"' && !BreakAt(cell, 0)
  {
    var tail := cell[1..];
    assert forall c :: c in tail ==> c in cell;
    forall i | 0 <= i < |tail| ensures !BreakAt(tail, i) {
      assert BreakAt(tail, i) <==> BreakAt(cell, i + 1);
    }
  }

  lemma {:induction false} BareReads(cell: string, rest: string)
    requires Plain(cell) && Stops(rest)
    ensures Bare(cell + rest) == Some(Field(cell, rest))
  {
    if cell == "" {
      assert cell + rest == rest;
    } else {
      var s := cell + rest;
      assert s[1..] == cell[1..] + rest;
      PlainTail(cell);
      BareReads(cell[1..], rest);
      assert !Stops(s) && s[0] == cell[0] != '"';
      assert [cell[0]] + cell[1..] == cell;
    }
  }

  lemma {:induction false} QuotedReads(cell: string, rest: string)
    requires rest == "" || rest[0] != '"'
    ensures Quoted(DoubleQuotes(cell) + "\"" + rest) == Some(Field(cell, rest))
  {
    var s := DoubleQuotes(cell) + "\"" + rest;
    if cell == "" {
      assert s == "\"" + rest;
    } else {
      QuotedReads(cell[1..], rest);
      var tail := DoubleQuotes(cell[1..]) + "\"" + rest;
      assert [cell[0]] + cell[1..] == cell;
      if cell[0] == '"' {
        assert s == "\"\"" + tail && s[2..] == tail;
      } else {
        assert s == [cell[0]] + tail && s[1..] == tail;
      }
    }
  }

  lemma EncodedFieldReads(text: string, cell: string, rest: string)
    requires Encodes(text, cell) && Stops(rest)
    ensures ReadField(text + rest) == Some(Field(cell, rest))
  {
    if text == cell && Plain(cell) {
      BareReads(cell, rest);
      assert text != "" ==> (text + rest)[0] == text[0];
    } else {
      assert (text + rest)[1..] == DoubleQuotes(cell) + "\"" + rest;
      QuotedReads(cell, rest);
    }
  }

  // ---- Rows and files ----------------------------------------------------------------------------------

  predicate EncodesRow(texts: seq<string>, row: seq<string>) {
    |texts| == |row| > 0 && forall i :: 0 <= i < |row| ==> Encodes(texts[i], row[i])
  }

  lemma ParseAtComma(s: string, value: string, next: string)
    requires ReadField(s) == Some(Field(value, "," + next))
    ensures Parse(s) == Before(value, Parse(next))
  {
    assert ("," + next)[1..] == next;
  }

  lemma ParseAtBreak(s: string, value: string, tail: string)
    requires ReadField(s) == Some(Field(value, tail)) && (tail == "" || BreakAt(tail, 0))
    ensures Parse(s) == if tail == "" then Some([[value]]) else Then([value], Parse(tail[2..]))
  {
  }

  lemma JoinSplits(parts: seq<string>, separator: string, tail: string)
    requires |parts| > 1
    ensures Join(parts, separator) + tail == parts[0] + (separator + (Join(parts[1..], separator) + tail))
  {
  }

  lemma {:induction false} RowReads(texts: seq<string>, row: seq<string>, tail: string)
    requires EncodesRow(texts, row) && (tail == "" || BreakAt(tail, 0))
    ensures Parse(Join(texts, ",") + tail) == if tail == "" then Some([row]) else Then(row, Parse(tail[2..]))
  {
    var s := Join(texts, ",") + tail;
    if |texts| == 1 {
      EncodedFieldReads(texts[0], row[0], tail);
      ParseAtBreak(s, row[0], tail);
      assert row == [row[0]];
    } else {
      var next := Join(texts[1..], ",") + tail;
      JoinSplits(texts, ",", tail);
      EncodedFieldReads(texts[0], row[0], "," + next);
      ParseAtComma(s, row[0], next);
      RowReads(texts[1..], row[1..], tail);
      BeforeThen(row, tail);
    }
  }

  lemma BeforeThen(row: seq<string>, tail: string)
    requires |row| > 1 && (tail == "" || BreakAt(tail, 0))
    ensures Before(row[0], if tail == "" then Some([row[1..]]) else Then(row[1..], Parse(tail[2..])))
      == if tail == "" then Some([row]) else Then(row, Parse(tail[2..]))
  {
    assert [row[0]] + row[1..] == row;
    if tail == "" {
      assert [row] + [row[1..]][1..] == [row];
    } else if Parse(tail[2..]).Some? {
      var more := Parse(tail[2..]).value;
      assert ([row[1..]] + more)[1..] == more;
    }
  }

  predicate EncodesTable(written: seq<seq<string>>, table: seq<seq<string>>) {
    |written| == |table| > 0 && forall i :: 0 <= i < |table| ==> EncodesRow(written[i], table[i])
  }

  // What follows the first line.
  function Rest(written: seq<seq<string>>): string
    requires written != []
  {
    if |written| == 1 then "" else "\r\n" + FileText(written[1..])
  }

  lemma FirstLine(written: seq<seq<string>>)
    requires written != []
    ensures FileText(written) == Join(written[0], ",") + Rest(written)
  {
    var lines := Lines(written);
    assert lines[0] == Join(written[0], ",");
    if |written| == 1 {
      assert lines[0] + "" == lines[0];
    } else {
      assert lines[1..] == Lines(written[1..]);
      var next := Join(lines[1..], "\r\n");
      assert lines[0] + "\r\n" + next == lines[0] + ("\r\n" + next);
    }
  }

  lemma {:induction false} TableReads(written: seq<seq<string>>, table: seq<seq<string>>)
    requires EncodesTable(written, table)
    ensures Parse(FileText(written)) == Some(table)
  {
    FirstLine(written);
    assert EncodesRow(written[0], table[0]);
    if |written| == 1 {
      RowReads(written[0], table[0], "");
      assert table == [table[0]];
    } else {
      TableReads(written[1..], table[1..]);
      FirstRowReads(written[0], table[0], FileText(written[1..]));
      assert table == [table[0]] + table[1..];
    }
  }

  lemma FirstRowReads(texts: seq<string>, row: seq<string>, next: string)
    requires EncodesRow(texts, row)
    ensures Parse(Join(texts, ",") + ("\r\n" + next)) == Then(row, Parse(next))
  {
    assert ("\r\n" + next)[2..] == next;
    RowReads(texts, row, "\r\n" + next);
  }

  predicate PlainHeaders(headers: seq<string>) {
    headers != [] && forall i :: 0 <= i < |headers| ==> Plain(headers[i])
  }

  predicate NonEmptyRows(rows: seq<seq<Option<string>>>) {
    forall i :: 0 <= i < |rows| ==> rows[i] != []
  }

  lemma WrittenEncodes(headers: seq<string>, rows: seq<seq<Option<string>>>)
    requires PlainHeaders(headers) && NonEmptyRows(rows)
    ensures EncodesTable(Written(headers, rows), Table(headers, rows))
  {
    var written, table := Written(headers, rows), Table(headers, rows);
    forall i | 0 <= i < |table| ensures EncodesRow(written[i], table[i]) {
      if i > 0 {
        assert forall j :: 0 <= j < |table[i]| ==> Encodes(written[i][j], table[i][j]);
      }
    }
  }

  // ---- Only plain headers survive --------------------------------------------------------------------

  lemma {:induction false} BareIsPlain(s: string)
    requires Bare(s).Some?
    ensures Plain(Bare(s).value.value)
  {
    if !Stops(s) {
      BareIsPlain(s[1..]);
      var value, tail := Bare(s).value.value, Bare(s[1..]).value.value;
      assert value == [s[0]] + tail;
      assert !BreakAt(s, 0);
      forall i | 0 <= i < |value| ensures !BreakAt(value, i) {
        if i == 0 {
          assert |tail| > 0 ==> tail[0] == s[1];
        } else {
          assert BreakAt(value, i) <==> BreakAt(tail, i - 1);
        }
      }
    }
  }

  predicate AllQuotes(s: string, n: nat) {
    n <= |s| && forall i :: 0 <= i < n ==> s[i] == '"'
  }

  // Each leading quote of a value was written twice.
  lemma {:induction false} LeadingQuotes(s: string, n: nat)
    requires Quoted(s).Some? && AllQuotes(Quoted(s).value.value, n)
    ensures AllQuotes(s, 2 * n)
  {
    if n > 0 {
      var value := Quoted(s).value.value;
      assert value[0] == '"';
      assert s[0] == '"' && s[1] == '"';
      assert value[1..] == Quoted(s[2..]).value.value;
      assert forall i :: 0 <= i < n - 1 ==> value[1..][i] == value[i + 1];
      LeadingQuotes(s[2..], n - 1);
      forall i | 0 <= i < 2 * n ensures s[i] == '"' {
        assert i >= 2 ==> s[i] == s[2..][i - 2];
      }
    }
  }

  lemma {:induction false} QuotedNeverItself(header: string, rest: string, n: nat)
    requires header != "" && header[0] == '"' && Stops(rest) && n <= |header|
    requires ReadField(header + rest).Some? && ReadField(header + rest).value.value == header
    ensures AllQuotes(header, n)
  {
    var s := header + rest;
    if n > 1 {
      QuotedNeverItself(header, rest, n - 1);
      LeadingQuotes(s[1..], n - 1);
      assert s[1..][n - 2] == s[n - 1] == header[n - 1];
    }
  }

  lemma HeaderReadsOnlyIfPlain(header: string, rest: string)
    requires Stops(rest)
    requires ReadField(header + rest).Some? && ReadField(header + rest).value.value == header
    ensures Plain(header)
  {
    var s := header + rest;
    if header != "" && header[0] == '"' {
      var n := |header|;
      assert n < |s| ==> s[1..][n - 1] == rest[0] != '"';
      QuotedNeverItself(header, rest, n);
      LeadingQuotes(s[1..], n);
    } else {
      assert s != "" && header == "" ==> s[0] == rest[0];
      BareIsPlain(s);
    }
  }

  lemma FirstFieldReads(s: string)
    requires Parse(s).Some?
    ensures ReadField(s).Some? && ReadField(s).value.value == Parse(s).value[0][0]
  {
  }

  lemma {:induction false} HeadersReadOnlyIfPlain(headers: seq<string>, tail: string)
    requires headers != [] && (tail == "" || BreakAt(tail, 0))
    requires Parse(Join(headers, ",") + tail).Some? && Parse(Join(headers, ",") + tail).value[0] == headers
    ensures PlainHeaders(headers)
  {
    FirstFieldReads(Join(headers, ",") + tail);
    if |headers| == 1 {
      HeaderReadsOnlyIfPlain(headers[0], tail);
    } else {
      var next := Join(headers[1..], ",") + tail;
      JoinSplits(headers, ",", tail);
      HeaderReadsOnlyIfPlain(headers[0], "," + next);
      OtherHeadersRead(headers, next);
      HeadersReadOnlyIfPlain(headers[1..], tail);
      assert headers == [headers[0]] + headers[1..];
    }
  }

  lemma OtherHeadersRead(headers: seq<string>, next: string)
    requires |headers| > 1 && Plain(headers[0])
    requires var records := Parse(headers[0] + ("," + next)); records.Some? && records.value[0] == headers
    ensures Parse(next).Some? && Parse(next).value[0] == headers[1..]
  {
    EncodedFieldReads(headers[0], headers[0], "," + next);
    ParseAtComma(headers[0] + ("," + next), headers[0], next);
  }

  // ---- The export reads back -----------------------------------------------------------------------------

  // Whatever the cells hold, the file reads back exactly if and only if the headers need no escaping
  // and no line is without columns.
  lemma RoundTripIff(headers: seq<string>, rows: seq<seq<Option<string>>>)
    ensures Parse(ToCsv(headers, rows)[1..]) == Some(Table(headers, rows))
      <==> PlainHeaders(headers) && NonEmptyRows(rows)
  {
    var table := Table(headers, rows);
    assert ToCsv(headers, rows)[1..] == Body(headers, rows);
    if PlainHeaders(headers) && NonEmptyRows(rows) {
      WrittenEncodes(headers, rows);
      TableReads(Written(headers, rows), table);
    }
    if Parse(Body(headers, rows)) == Some(table) {
      ReadsOnlyIfPlain(headers, rows);
    }
  }

  lemma ReadsOnlyIfPlain(headers: seq<string>, rows: seq<seq<Option<string>>>)
    requires Parse(Body(headers, rows)) == Some(Table(headers, rows))
    ensures PlainHeaders(headers) && NonEmptyRows(rows)
  {
    var table, written := Table(headers, rows), Written(headers, rows);
    assert table[0] == headers == written[0];
    forall i | 0 <= i < |rows| ensures rows[i] != [] {
      assert table[i + 1] == Texts(rows[i]);
    }
    FirstLine(written);
    HeadersReadOnlyIfPlain(headers, Rest(written));
  }

  // ---- The final line break -------------------------------------------------------------------------

  lemma {:induction false} JoinEnds(texts: seq<string>, separator: string)
    requires texts != []
    ensures var line, last := Join(texts, separator), texts[|texts| - 1];
      |line| >= |last| && line[|line| - |last|..] == last
    ensures |texts| > 1 ==>
      exists before :: Join(texts, separator) == before + separator + texts[|texts| - 1]
  {
    var line, last := Join(texts, separator), texts[|texts| - 1];
    if |texts| > 1 {
      JoinEnds(texts[1..], separator);
      var next := Join(texts[1..], separator);
      if |texts| == 2 {
        assert line == texts[0] + separator + last;
      } else {
        var before :| next == before + separator + last;
        assert line == (texts[0] + separator + before) + separator + last;
      }
    }
  }

  lemma EscapeEnds(s: string)
    ensures var e := Escape(s); (e == "" <==> s == "") && (e != "" ==> e[|e| - 1] != '\n')
  {
    if s != "" && '\n' !in s {
      assert s[|s| - 1] in s;
    }
  }

  // An escaped line never ends in a line feed.
  lemma RowEnds(texts: seq<string>)
    requires texts != []
    ensures var line := Join(Escaped(texts), ",");
      && (line == "" <==> texts == [""])
      && (line != "" ==> line[|line| - 1] != '\n')
  {
    var cells := Escaped(texts);
    var line, last := Join(cells, ","), cells[|texts| - 1];
    JoinEnds(cells, ",");
    EscapeEnds(texts[|texts| - 1]);
    assert last == Escape(texts[|texts| - 1]);
    if |texts| > 1 {
      var before :| line == before + "," + last;
      assert last == "" ==> line[|line| - 1] == ',';
    }
  }

  lemma HeadersEnd(headers: seq<string>)
    requires PlainHeaders(headers)
    ensures !EndsWithBreak(Join(headers, ","))
  {
    var body, last := Join(headers, ","), headers[|headers| - 1];
    JoinEnds(headers, ",");
    if |headers| > 1 {
      var before :| body == before + "," + last;
      assert |last| == 1 ==> body[|body| - 2] == ',';
    }
    assert |last| >= 2 ==> !BreakAt(last, |last| - 2);
  }

  // The file ends in a line break exactly when its last line is one empty cell.
  lemma EndsWithBreakIff(headers: seq<string>, rows: seq<seq<Option<string>>>)
    requires PlainHeaders(headers) && NonEmptyRows(rows)
    ensures EndsWithBreak(Body(headers, rows)) <==> rows != [] && Texts(rows[|rows| - 1]) == [""]
  {
    var lines, body := Lines(Written(headers, rows)), Body(headers, rows);
    var n := |body|;
    if rows == [] {
      assert body == Join(headers, ",");
      HeadersEnd(headers);
    } else {
      var texts := Texts(rows[|rows| - 1]);
      JoinEnds(lines, "\r\n");
      RowEnds(texts);
      var last := Join(Escaped(texts), ",");
      assert lines[|lines| - 1] == last;
      var before :| body == before + "\r\n" + last;
      assert last != "" ==> body[n - 1] == last[|last| - 1];
    }
  }

  lemma {:induction false} JoinDropsLast(lines: seq<string>, separator: string)
    requires |lines| > 1 && lines[|lines| - 1] == ""
    ensures Join(lines, separator) == Join(lines[..|lines| - 1], separator) + separator
  {
    if |lines| > 2 {
      JoinDropsLast(lines[1..], separator);
      assert lines[1..][..|lines| - 2] == lines[..|lines| - 1][1..];
    }
  }

  // A reader that forgives a final line break loses a last line that is one empty cell, and only that.
  lemma FileRoundTripIff(headers: seq<string>, rows: seq<seq<Option<string>>>)
    requires PlainHeaders(headers) && NonEmptyRows(rows)
    ensures ParseFile(ToCsv(headers, rows)[1..]) == Some(Table(headers, rows))
      <==> rows == [] || Texts(rows[|rows| - 1]) != [""]
    ensures rows != [] && Texts(rows[|rows| - 1]) == [""] ==>
      ParseFile(ToCsv(headers, rows)[1..]) == Some(Table(headers, rows[..|rows| - 1]))
  {
    var body, n := Body(headers, rows), |rows|;
    assert ToCsv(headers, rows)[1..] == body;
    EndsWithBreakIff(headers, rows);
    RoundTripIff(headers, rows);
    if n > 0 && Texts(rows[n - 1]) == [""] {
      var fewer := rows[..n - 1];
      DroppedLastLine(headers, rows);
      assert body[..|body| - 2] == Body(headers, fewer);
      RoundTripIff(headers, fewer);
      assert ToCsv(headers, fewer)[1..] == Body(headers, fewer);
    }
  }

  lemma DroppedLastLine(headers: seq<string>, rows: seq<seq<Option<string>>>)
    requires rows != [] && Texts(rows[|rows| - 1]) == [""]
    ensures Body(headers, rows) == Body(headers, rows[..|rows| - 1]) + "\r\n"
  {
    var lines, fewer := Lines(Written(headers, rows)), rows[..|rows| - 1];
    assert Escaped([""]) == [""];
    JoinDropsLast(lines, "\r\n");
    assert lines[..|lines| - 1] == Lines(Written(headers, fewer));
  }

  predicate Alike(a: Option<string>, b: Option<string>) {
    a == b || (a in {None, Some("")} && b in {None, Some("")})
  }

  predicate AlikeRows(a: seq<Option<string>>, b: seq<Option<string>>) {
    |a| == |b| && forall j :: 0 <= j < |a| ==> Alike(a[j], b[j])
  }

  lemma SameTextsIff(a: seq<Option<string>>, b: seq<Option<string>>)
    ensures Texts(a) == Texts(b) <==> AlikeRows(a, b)
  {
    if Texts(a) == Texts(b) {
      forall j | 0 <= j < |a| ensures Alike(a[j], b[j]) {
        assert Texts(a)[j] == Texts(b)[j];
      }
    }
  }

  lemma SameTextsSameFile(headers: seq<string>, rows: seq<seq<Option<string>>>, others: seq<seq<Option<string>>>)
    requires |rows| == |others| && forall i :: 0 <= i < |rows| ==> Texts(rows[i]) == Texts(others[i])
    ensures ToCsv(headers, rows) == ToCsv(headers, others)
  {
    assert Written(headers, rows) == Written(headers, others);
  }

  lemma SameTableIff(headers: seq<string>, rows: seq<seq<Option<string>>>, others: seq<seq<Option<string>>>)
    ensures Table(headers, rows) == Table(headers, others)
      <==> |rows| == |others| && forall i :: 0 <= i < |rows| ==> Texts(rows[i]) == Texts(others[i])
  {
    var table, other := Table(headers, rows), Table(headers, others);
    if table == other {
      forall i | 0 <= i < |rows| ensures Texts(rows[i]) == Texts(others[i]) {
        assert table[i + 1] == other[i + 1];
      }
    }
    if |rows| == |others| && forall i :: 0 <= i < |rows| ==> Texts(rows[i]) == Texts(others[i]) {
      forall i | 0 <= i < |table| ensures table[i] == other[i] {
        assert i > 0 ==> table[i] == Texts(rows[i - 1]);
      }
    }
  }

  lemma SameFileIffSameTable(headers: seq<string>, rows: seq<seq<Option<string>>>, others: seq<seq<Option<string>>>)
    requires PlainHeaders(headers) && NonEmptyRows(rows) && NonEmptyRows(others)
    ensures ToCsv(headers, rows) == ToCsv(headers, others) <==> Table(headers, rows) == Table(headers, others)
  {
    RoundTripIff(headers, rows);
    RoundTripIff(headers, others);
    SameTableIff(headers, rows, others);
    if Table(headers, rows) == Table(headers, others) {
      SameTextsSameFile(headers, rows, others);
    }
  }

  // Two exports are the same file exactly when their cells differ at most in null against the empty string.
  lemma SameFileIff(headers: seq<string>, rows: seq<seq<Option<string>>>, others: seq<seq<Option<string>>>)
    requires PlainHeaders(headers) && NonEmptyRows(rows) && NonEmptyRows(others)
    ensures ToCsv(headers, rows) == ToCsv(headers, others)
      <==> |rows| == |others| && forall i :: 0 <= i < |rows| ==> AlikeRows(rows[i], others[i])
  {
    SameFileIffSameTable(headers, rows, others);
    SameTableIff(headers, rows, others);
    if |rows| == |others| {
      forall i | 0 <= i < |rows| ensures Texts(rows[i]) == Texts(others[i]) <==> AlikeRows(rows[i], others[i]) {
        SameTextsIff(rows[i], others[i]);
      }
    }
  }
}
