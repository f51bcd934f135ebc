/** The release-file parser: a character machine over one text, then a cleaning pass
    that trims cells and drops blank lines, then one record per data row. */
module Csv {
  import opened Prelude

  type Row = seq<string>
  type Record = map<string, string>

  // ---------- String.prototype.trim ----------

  /** ECMAScript WhiteSpace and LineTerminator code points. */
  predicate IsSpace(c: char) {
    || c in {' ', '\t', '\n', '\r', '\U{000B}', '\U{000C}', '\U{00A0}', '\U{1680}'}
    || '\U{2000}' <= c <= '\U{200A}'
    || c in {'\U{2028}', '\U{2029}', '\U{202F}', '\U{205F}', '\U{3000}', '\U{FEFF}'}
  }

  function TrimStart(s: string): string {
    if s != "" && IsSpace(s[0]) then TrimStart(s[1..]) else s
  }

  function TrimEnd(s: string): string {
    if s != "" && IsSpace(s[|s| - 1]) then TrimEnd(s[..|s| - 1]) else s
  }

  function Trim(s: string): string { TrimEnd(TrimStart(s)) }

  function TrimRow(row: Row): Row { seq(|row|, i requires 0 <= i < |row| => Trim(row[i])) }

  // ---------- the lexer ----------

  /** How many characters a line break at the head of `s` takes: CRLF is one break. */
  function BreakLength(s: string): (n: nat)
    requires s != ""
    ensures 1 <= n <= |s|
  {
    if s[0] == '\r' && |s| > 1 && s[1] == '\n' then 2 else 1
  }

  /** What one turn of the loop does: characters consumed, the state after, rows closed. */
  datatype Move = Move(length: nat, inQuotes: bool, row: Row, field: string, closed: seq<Row>)

  function NextMove(s: string, inQuotes: bool, row: Row, field: string): (m: Move)
    requires s != ""
    ensures 1 <= m.length <= |s|
  {
    if s[0] == '"' && inQuotes && |s| > 1 && s[1] == '"' then Move(2, true, row, field + "\"", [])
    else if s[0] == '"' then Move(1, !inQuotes, row, field, [])
    else if s[0] == ',' && !inQuotes then Move(1, false, row + [field], "", [])
    else if (s[0] == '\n' || s[0] == '\r') && !inQuotes then Move(BreakLength(s), false, [], "", [row + [field]])
    else Move(1, inQuotes, row, field + [s[0]], [])
  }

  /** The untrimmed rows of `s`, entered with an open row and field. */
  function Lex(s: string, inQuotes: bool, row: Row, field: string): seq<Row>
    decreases |s|
  {
    if s == "" then [row + [field]]
    else
      var m := NextMove(s, inQuotes, row, field);
      m.closed + Lex(s[m.length..], m.inQuotes, m.row, m.field)
  }

  function RawRows(s: string): seq<Row> { Lex(s, false, [], "") }

  lemma LexLineEnd(rest: string, row: Row, field: string)
    ensures Lex("\n" + rest, false, row, field) == [row + [field]] + RawRows(rest)
  {
    assert ("\n" + rest)[1..] == rest;
  }

  function QuotesIn(s: string): nat { if s == "" then 0 else (if s[0] == '"' then 1 else 0) + QuotesIn(s[1..]) }

  lemma QuoteMove(s: string, inQuotes: bool, row: Row, field: string)
    requires s != "" && (inQuotes ==> s != "\"")
    ensures NextMove(s + "\"", inQuotes, row, field) == NextMove(s, inQuotes, row, field)
  {
    assert (s + "\"")[0] == s[0];
  }

  lemma MoveQuotes(s: string, inQuotes: bool, row: Row, field: string)
    requires s != ""
    ensures var m := NextMove(s, inQuotes, row, field);
      (QuotesIn(s) + (if inQuotes then 1 else 0)) % 2 == (QuotesIn(s[m.length..]) + (if m.inQuotes then 1 else 0)) % 2
  {
    if |s| > 1 { assert s[1..][1..] == s[2..] && s[1..][0] == s[1]; }
  }

  lemma {:induction false} LexOpenQuote(s: string, inQuotes: bool, row: Row, field: string)
    requires (QuotesIn(s) + (if inQuotes then 1 else 0)) % 2 == 1
    ensures Lex(s + "\"", inQuotes, row, field) == Lex(s, inQuotes, row, field)
    decreases |s|
  {
    if s == "" {
      LexClosingQuote("", row, field);
      assert "\"" + "" == s + "\"";
    } else {
      var m := NextMove(s, inQuotes, row, field);
      QuoteMove(s, inQuotes, row, field);
      MoveQuotes(s, inQuotes, row, field);
      assert (s + "\"")[m.length..] == s[m.length..] + "\"";
      LexOpenQuote(s[m.length..], m.inQuotes, m.row, m.field);
    }
  }

  /** A quote left open at the end of the text reads as if the text closed it. */
  lemma OpenQuoteCloses(s: string)
    requires QuotesIn(s) % 2 == 1
    ensures RawRows(s) == RawRows(s + "\"") && Parse(s) == Parse(s + "\"")
  {
    LexOpenQuote(s, false, [], "");
  }

  // ---------- cleaning and records ----------

  predicate NonBlank(row: Row) { exists i :: 0 <= i < |row| && row[i] != "" }

  /** One lexed row as the table keeps it: trimmed, or not at all when blank. */
  function Kept(row: Row): seq<Row> {
    if NonBlank(TrimRow(row)) then [TrimRow(row)] else []
  }

  /** Trimmed rows, without those whose every cell trims to nothing. */
  function Clean(rows: seq<Row>): seq<Row> {
    FlatMap(Kept, rows)
  }

  function CellAt(cells: Row, i: nat): string { if i < |cells| then cells[i] else "" }

  /** Later headers overwrite earlier equal ones; missing cells read as empty. */
  function RecordOf(headers: Row, cells: Row): Record {
    if headers == [] then map[]
    else
      var last := |headers| - 1;
      RecordOf(headers[..last], cells)[headers[last] := CellAt(cells, last)]
  }

  function Records(rows: seq<Row>): seq<Record> {
    if rows == [] then []
    else seq(|rows| - 1, i requires 0 <= i < |rows| - 1 => RecordOf(rows[0], rows[i + 1]))
  }

  function Parse(content: string): seq<Record> { Records(Clean(RawRows(content))) }

  /** The rows the text from `index` on still closes. */
  ghost function Rest(content: string, index: nat, inQuotes: bool, row: Row, field: string): seq<Row>
    requires index <= |content|
  {
    Lex(content[index..], inQuotes, row, field)
  }

  /** The turn at `index`, in the loop's own terms. */
  function TurnAt(content: string, index: nat, inQuotes: bool, row: Row, field: string): (m: Move)
    requires index < |content|
    ensures 1 <= m.length && index + m.length <= |content|
  {
    var c := content[index];
    var pair := index + 1 < |content|;
    if c == '"' && inQuotes && pair && content[index + 1] == '"' then Move(2, true, row, field + "\"", [])
    else if c == '"' then Move(1, !inQuotes, row, field, [])
    else if c == ',' && !inQuotes then Move(1, false, row + [field], "", [])
    else if (c == '\n' || c == '\r') && !inQuotes then
      Move(if c == '\r' && pair && content[index + 1] == '\n' then 2 else 1, false, [], "", [row + [field]])
    else Move(1, inQuotes, row, field + [c], [])
  }

  lemma RestTurn(content: string, index: nat, inQuotes: bool, row: Row, field: string, read: seq<Row>)
    returns (m: Move, after: seq<Row>)
    requires index < |content|
    ensures m == TurnAt(content, index, inQuotes, row, field)
    ensures after == if m.closed == [] then read else read + [row + [field]]
    ensures read + Rest(content, index, inQuotes, row, field) == after + Rest(content, index + m.length, m.inQuotes, m.row, m.field)
  {
    m := NextMove(content[index..], inQuotes, row, field);
    after := read + m.closed;
    assert content[index..][m.length..] == content[index + m.length..];
    var rest := Rest(content, index + m.length, m.inQuotes, m.row, m.field);
    assert read + (m.closed + rest) == after + rest;
  }

  lemma RestAtEnds(content: string, inQuotes: bool, row: Row, field: string)
    ensures Rest(content, 0, false, [], "") == RawRows(content)
    ensures Rest(content, |content|, inQuotes, row, field) == [row + [field]]
  {
    assert content[0..] == content && content[|content|..] == "";
  }

  lemma TrimRowAppend(row: Row, field: string)
    ensures TrimRow(row + [field]) == TrimRow(row) + [Trim(field)]
  {
  }

  lemma CleanAppend(rows: seq<Row>, row: Row)
    ensures Clean(rows + [row]) == Clean(rows) + Kept(row)
  {
    FlatMapOne(Kept, row);
    FlatMapConcat(Kept, rows, [row]);
  }

  /** Closes a row with the open field as its last cell; kept if some cell of it is not empty. */
  method KeepRow(rows: seq<Row>, cells: Row, field: string, ghost read: seq<Row>, ghost raw: Row) returns (next: seq<Row>)
    requires rows == Clean(read) && cells == TrimRow(raw)
    ensures next == Clean(read + [raw + [field]])
  {
    var row := cells + [Trim(field)];
    TrimRowAppend(raw, field);
    CleanAppend(read, raw + [field]);
    next := rows;
    if exists i :: 0 <= i < |row| && row[i] != "" {
      next := next + [row];
    }
  }

  /** Trimmed cells are pushed as they close, and blank rows are not kept. */
  method ReadRows(content: string) returns (rows: seq<Row>)
    ensures rows == Clean(RawRows(content))
  {
    rows := [];
    var row: Row := [];
    var field := "";
    var inQuotes := false;
    ghost var raw: Row := [];
    ghost var read: seq<Row> := [];
    RestAtEnds(content, inQuotes, raw, field);
    var index := 0;
    while index < |content|
      invariant 0 <= index <= |content|
      invariant row == TrimRow(raw) && rows == Clean(read)
      invariant read + Rest(content, index, inQuotes, raw, field) == RawRows(content)
    {
      ghost var m, after := RestTurn(content, index, inQuotes, raw, field, read);
      var c := content[index];
      if c == '"' && inQuotes && index + 1 < |content| && content[index + 1] == '"' {
        field := field + "\"";
        index := index + 1;
      } else if c == '"' {
        inQuotes := !inQuotes;
      } else if c == ',' && !inQuotes {
        TrimRowAppend(raw, field);
        row := row + [Trim(field)];
        field := "";
      } else if (c == '\n' || c == '\r') && !inQuotes {
        if c == '\r' && index + 1 < |content| && content[index + 1] == '\n' {
          index := index + 1;
        }
        rows := KeepRow(rows, row, field, read, raw);
        row, field := [], "";
      } else {
        field := field + [c];
      }
      index := index + 1;
      raw, read := m.row, after;
    }
    RestAtEnds(content, inQuotes, raw, field);
    rows := KeepRow(rows, row, field, read, raw);
  }

  method ParseCsv(content: string) returns (records: seq<Record>)
    ensures records == Parse(content)
  {
    var rows := ReadRows(content);
    if rows == [] {
      return [];
    }
    records := seq(|rows| - 1, i requires 0 <= i < |rows| - 1 => RecordOf(rows[0], rows[i + 1]));
  }

  // ---------- round trip: any file section 2 of RFC 4180 allows, with any line ends ----------

  /** A stretch of a cell as a file writes it: inside quotes, or bare. */
  datatype Part = Part(text: string, quoted: bool)

  /** A cell is mostly one part; quotes may also open and close within it. */
  type Cell = seq<Part>

  /** One line; the last may lack its end. */
  datatype Line = Line(cells: seq<Cell>, end: string)

  function DoubleQuotes(f: string): string {
    if f == "" then "" else (if f[0] == '"' then "\"\"" else [f[0]]) + DoubleQuotes(f[1..])
  }

  function Quoted(f: string): string { "\"" + DoubleQuotes(f) + "\"" }

  function WritePart(p: Part): string { if p.quoted then Quoted(p.text) else p.text }

  function WriteCell(c: Cell): string { if c == [] then "" else WritePart(c[0]) + WriteCell(c[1..]) }

  function WriteCells(cells: seq<Cell>): string {
    if cells == [] then ""
    else if |cells| == 1 then WriteCell(cells[0])
    else WriteCell(cells[0]) + "," + WriteCells(cells[1..])
  }

  function Write(lines: seq<Line>): string {
    if lines == [] then "" else WriteCells(lines[0].cells) + lines[0].end + Write(lines[1..])
  }

  predicate IsBare(text: string) { forall c :: c in text ==> c !in {'"', ',', '\r', '\n'} }

  /** Two quoted parts do not touch: the quotes between them would read as one. */
  predicate CellWritable(c: Cell) {
    && (forall i :: 0 <= i < |c| ==> c[i].quoted || IsBare(c[i].text))
    && (forall i :: 0 < i < |c| && c[i - 1].quoted ==> !c[i].quoted && c[i].text != "")
  }

  predicate CellsWritable(cells: seq<Cell>) { forall i :: 0 <= i < |cells| ==> CellWritable(cells[i]) }

  /** Bare parts hold no character with a meaning; each line ends in LF, CRLF or CR, the last perhaps in nothing. */
  predicate Writable(lines: seq<Line>) {
    forall i :: 0 <= i < |lines| ==>
      && CellsWritable(lines[i].cells)
      && (lines[i].end in {"\n", "\r\n", "\r"} || (lines[i].end == "" && i == |lines| - 1))
  }

  function TextOf(c: Cell): string { if c == [] then "" else c[0].text + TextOf(c[1..]) }

  function TextsOf(cells: seq<Cell>): Row { Map(TextOf, cells) }

  function RowOf(line: Line): Row { TextsOf(line.cells) }

  function Table(lines: seq<Line>): seq<Row> { Map(RowOf, lines) }

  lemma LexDoubledQuote(tail: string, row: Row, acc: string)
    ensures Lex("\"\"" + tail, true, row, acc) == Lex(tail, true, row, acc + "\"")
  {
    assert ("\"\"" + tail)[2..] == tail;
  }

  lemma LexPlain(c: char, tail: string, row: Row, acc: string)
    requires c != '"'
    ensures Lex([c] + tail, true, row, acc) == Lex(tail, true, row, acc + [c])
  {
    assert ([c] + tail)[1..] == tail;
  }

  lemma LexClosingQuote(rest: string, row: Row, acc: string)
    requires rest != "" ==> rest[0] != '"'
    ensures Lex("\"" + rest, true, row, acc) == Lex(rest, false, row, acc)
  {
    assert ("\"" + rest)[1..] == rest;
  }

  lemma DoubledHead(f: string, rest: string)
    requires f != ""
    ensures DoubleQuotes(f) + "\"" + rest ==
      (if f[0] == '"' then "\"\"" else [f[0]]) + (DoubleQuotes(f[1..]) + "\"" + rest)
  {
  }

  lemma LexQuotedChar(f: string, rest: string, row: Row, acc: string)
    requires f != ""
    ensures Lex(DoubleQuotes(f) + "\"" + rest, true, row, acc) == Lex(DoubleQuotes(f[1..]) + "\"" + rest, true, row, acc + [f[0]])
  {
    DoubledHead(f, rest);
    if f[0] == '"' {
      LexDoubledQuote(DoubleQuotes(f[1..]) + "\"" + rest, row, acc);
    } else {
      LexPlain(f[0], DoubleQuotes(f[1..]) + "\"" + rest, row, acc);
    }
  }

  lemma Regroup(acc: string, f: string)
    requires f != ""
    ensures acc + [f[0]] + f[1..] == acc + f
  {
  }

  /** Inside quotes the lexer undoes quote doubling, whatever the field holds. */
  lemma {:induction false} LexQuoted(f: string, rest: string, row: Row, acc: string)
    requires rest != "" ==> rest[0] != '"'
    ensures Lex(DoubleQuotes(f) + "\"" + rest, true, row, acc) == Lex(rest, false, row, acc + f)
  {
    if f == "" {
      LexClosingQuote(rest, row, acc);
      assert DoubleQuotes(f) + "\"" + rest == "\"" + rest;
      assert acc + f == acc;
    } else {
      LexQuotedChar(f, rest, row, acc);
      LexQuoted(f[1..], rest, row, acc + [f[0]]);
      Regroup(acc, f);
    }
  }

  /** Outside quotes a bare cell reads as itself. */
  lemma {:induction false} LexBare(f: string, rest: string, row: Row, acc: string)
    requires IsBare(f)
    ensures Lex(f + rest, false, row, acc) == Lex(rest, false, row, acc + f)
  {
    if f == "" {
      assert f + rest == rest && acc + f == acc;
    } else {
      assert f[0] in f && (f + rest)[1..] == f[1..] + rest;
      assert forall c :: c in f[1..] ==> c in f;
      LexBare(f[1..], rest, row, acc + [f[0]]);
      Regroup(acc, f);
    }
  }

  predicate EndsCell(rest: string) { rest == "" || rest[0] in {',', '\n', '\r'} }

  lemma LexPart(p: Part, rest: string, row: Row, acc: string)
    requires if p.quoted then rest != "" ==> rest[0] != '"' else IsBare(p.text)
    ensures Lex(WritePart(p) + rest, false, row, acc) == Lex(rest, false, row, acc + p.text)
  {
    if p.quoted {
      assert (WritePart(p) + rest)[1..] == DoubleQuotes(p.text) + "\"" + rest;
      LexQuoted(p.text, rest, row, acc);
    } else {
      LexBare(p.text, rest, row, acc);
    }
  }

  lemma AfterQuoted(c: Cell, rest: string)
    requires CellWritable(c) && c != [] && c[0].quoted && EndsCell(rest)
    ensures WriteCell(c[1..]) + rest != "" ==> (WriteCell(c[1..]) + rest)[0] != '"'
  {
    if |c| > 1 {
      var next := c[1..];
      assert next[0] == c[1] && c[1].text[0] in c[1].text;
      assert (WriteCell(next) + rest)[0] == c[1].text[0];
    }
  }

  lemma LexFirstPart(c: Cell, rest: string, row: Row, acc: string)
    requires CellWritable(c) && c != [] && EndsCell(rest)
    ensures Lex(WriteCell(c) + rest, false, row, acc) == Lex(WriteCell(c[1..]) + rest, false, row, acc + c[0].text)
  {
    var more := WriteCell(c[1..]) + rest;
    if c[0].quoted { AfterQuoted(c, rest); }
    assert WriteCell(c) + rest == WritePart(c[0]) + more;
    LexPart(c[0], more, row, acc);
  }

  lemma TailWritable(c: Cell)
    requires CellWritable(c) && c != []
    ensures CellWritable(c[1..])
  {
    forall i | 0 < i < |c| ensures c[1..][i - 1] == c[i] {
    }
  }

  lemma JoinText(acc: string, c: Cell)
    requires c != []
    ensures acc + c[0].text + TextOf(c[1..]) == acc + TextOf(c)
  {
  }

  lemma {:induction false} LexCell(c: Cell, rest: string, row: Row, acc: string)
    requires CellWritable(c) && EndsCell(rest)
    ensures Lex(WriteCell(c) + rest, false, row, acc) == Lex(rest, false, row, acc + TextOf(c))
  {
    if c == [] {
      assert WriteCell(c) + rest == rest && acc + TextOf(c) == acc;
    } else {
      TailWritable(c);
      LexFirstPart(c, rest, row, acc);
      LexCell(c[1..], rest, row, acc + c[0].text);
      JoinText(acc, c);
    }
  }

  lemma LexWholeCell(c: Cell, rest: string, row: Row)
    requires CellWritable(c) && EndsCell(rest)
    ensures Lex(WriteCell(c) + rest, false, row, "") == Lex(rest, false, row, TextOf(c))
  {
    LexCell(c, rest, row, "");
    assert "" + TextOf(c) == TextOf(c);
  }

  lemma LexComma(rest: string, row: Row, field: string)
    ensures Lex("," + rest, false, row, field) == Lex(rest, false, row + [field], "")
  {
    assert ("," + rest)[1..] == rest;
  }

  lemma LexFirstCell(cells: seq<Cell>, rest: string, done: Row)
    requires |cells| > 1 && CellWritable(cells[0])
    ensures Lex(WriteCells(cells) + rest, false, done, "") == Lex(WriteCells(cells[1..]) + rest, false, done + [TextOf(cells[0])], "")
  {
    var more := WriteCells(cells[1..]) + rest;
    assert WriteCells(cells) + rest == WriteCell(cells[0]) + ("," + more);
    LexWholeCell(cells[0], "," + more, done);
    LexComma(more, done, TextOf(cells[0]));
  }

  lemma RawBlankLine(rest: string)
    ensures Clean(RawRows("\n" + rest)) == Clean(RawRows(rest))
  {
    LexLineEnd(rest, [], "");
    assert TrimRow([""]) == [""];
    CleanOneMore([""], RawRows(rest));
  }

  lemma CleanOneMore(row: Row, rows: seq<Row>)
    ensures Clean([row] + rows) == Kept(row) + Clean(rows)
  {
    FlatMapOne(Kept, row);
    FlatMapConcat(Kept, [row], rows);
  }

  predicate EndsLine(end: string, rest: string) { end in {"\n", "\r\n", "\r"} || (end == "" && rest == "") }

  lemma LexEnd(end: string, rest: string, row: Row, field: string)
    requires end in {"\n", "\r\n", "\r"}
    ensures Lex(end + rest, false, row, field) ==
      [row + [field]] + RawRows(if end == "\r" && rest != "" && rest[0] == '\n' then rest[1..] else rest)
  {
    var s := end + rest;
    if end == "\r" && rest != "" && rest[0] == '\n' {
      assert s[2..] == rest[1..];
    } else {
      assert s[|end|..] == rest && BreakLength(s) == |end|;
    }
  }

  lemma NothingLeft()
    ensures Clean(RawRows("")) == []
  {
    assert [] + [""] == [""] && TrimRow([""]) == [""];
    assert RawRows("") == [[""]];
    FlatMapOne(Kept, [""]);
  }

  lemma CleanAtEnd(row: Row, field: string)
    ensures Clean(Lex("", false, row, field)) == Kept(row + [field]) + Clean(RawRows(""))
  {
    NothingLeft();
    FlatMapOne(Kept, row + [field]);
    assert Kept(row + [field]) + [] == Kept(row + [field]);
  }

  lemma CleanBreak(end: string, rest: string, row: Row, field: string)
    requires end in {"\n", "\r\n", "\r"}
    ensures Clean(Lex(end + rest, false, row, field)) == Kept(row + [field]) + Clean(RawRows(rest))
  {
    LexEnd(end, rest, row, field);
    var left := if end == "\r" && rest != "" && rest[0] == '\n' then rest[1..] else rest;
    CleanOneMore(row + [field], RawRows(left));
    if left != rest {
      assert rest == "\n" + left;
      RawBlankLine(left);
    }
  }

  /** Every kind of line end closes the row, and so does the end of the text; a CR that swallows a blank
      line loses nothing that is kept. */
  lemma CleanLineEnd(end: string, rest: string, row: Row, field: string)
    requires EndsLine(end, rest)
    ensures Clean(Lex(end + rest, false, row, field)) == Kept(row + [field]) + Clean(RawRows(rest))
  {
    if end == "" {
      assert end + rest == "";
      CleanAtEnd(row, field);
    } else {
      CleanBreak(end, rest, row, field);
    }
  }

  lemma CleanLastCell(c: Cell, end: string, rest: string, done: Row)
    requires CellWritable(c) && EndsLine(end, rest)
    ensures Clean(Lex(WriteCell(c) + (end + rest), false, done, "")) == Kept(done + [TextOf(c)]) + Clean(RawRows(rest))
  {
    LexWholeCell(c, end + rest, done);
    CleanLineEnd(end, rest, done, TextOf(c));
  }

  predicate CellsRead(cells: seq<Cell>, tail: string, done: Row, after: seq<Row>)
    requires cells != []
  {
    Clean(Lex(WriteCells(cells) + tail, false, done, "")) == Kept(done + TextsOf(cells)) + after
  }

  lemma JoinTexts(done: Row, cells: seq<Cell>)
    requires cells != []
    ensures done + [TextOf(cells[0])] + TextsOf(cells[1..]) == done + TextsOf(cells)
  {
  }

  lemma OneCellMore(cells: seq<Cell>, tail: string, done: Row, after: seq<Row>)
    requires |cells| > 1 && CellWritable(cells[0])
    requires CellsRead(cells[1..], tail, done + [TextOf(cells[0])], after)
    ensures CellsRead(cells, tail, done, after)
  {
    LexFirstCell(cells, tail, done);
    JoinTexts(done, cells);
  }

  lemma {:induction false} CleanCells(cells: seq<Cell>, end: string, rest: string, done: Row)
    requires cells != [] && CellsWritable(cells) && EndsLine(end, rest)
    ensures CellsRead(cells, end + rest, done, Clean(RawRows(rest)))
  {
    if |cells| == 1 {
      CleanLastCell(cells[0], end, rest, done);
      assert TextsOf(cells) == [TextOf(cells[0])];
    } else {
      CleanCells(cells[1..], end, rest, done + [TextOf(cells[0])]);
      OneCellMore(cells, end + rest, done, Clean(RawRows(rest)));
    }
  }

  lemma CleanLine(line: Line, rest: string)
    requires CellsWritable(line.cells) && EndsLine(line.end, rest)
    ensures Clean(RawRows(WriteCells(line.cells) + line.end + rest)) == Kept(RowOf(line)) + Clean(RawRows(rest))
  {
    assert WriteCells(line.cells) + line.end + rest == WriteCells(line.cells) + (line.end + rest);
    if line.cells == [] {
      assert WriteCells(line.cells) + (line.end + rest) == line.end + rest;
      CleanLineEnd(line.end, rest, [], "");
      assert TrimRow([] + [""]) == [""] && TrimRow(RowOf(line)) == [];
    } else {
      CleanCells(line.cells, line.end, rest, []);
      assert [] + RowOf(line) == RowOf(line);
    }
  }

  /** No condition on the cells: they may hold quotes, commas, line breaks, or nothing. */
  lemma {:induction false} CleanOfWritten(lines: seq<Line>)
    requires Writable(lines)
    ensures Clean(RawRows(Write(lines))) == Clean(Table(lines))
  {
    if lines == [] {
      NothingLeft();
    } else {
      forall i | 0 <= i < |lines| - 1
        ensures CellsWritable(lines[1..][i].cells) && (lines[1..][i].end in {"\n", "\r\n", "\r"} || (lines[1..][i].end == "" && i == |lines| - 2))
      {
        assert lines[1..][i] == lines[i + 1];
      }
      CleanOfWritten(lines[1..]);
      assert lines[0].end == "" ==> lines[1..] == [];
      CleanLine(lines[0], Write(lines[1..]));
      assert Table(lines) == [RowOf(lines[0])] + Table(lines[1..]);
      CleanOneMore(RowOf(lines[0]), Table(lines[1..]));
    }
  }

  /** No white space at either end. */
  predicate IsTrimmed(f: string) { f != "" ==> !IsSpace(f[0]) && !IsSpace(f[|f| - 1]) }

  /** The characters from `m` up to `n` are all white space. */
  predicate Blank(f: string, m: nat, n: nat)
    requires m <= n <= |f|
  {
    forall i :: m <= i < n ==> IsSpace(f[i])
  }

  lemma {:induction false} TrimStartCuts(f: string) returns (n: nat)
    ensures n <= |f| && Blank(f, 0, n) && TrimStart(f) == f[n..]
    ensures n < |f| ==> !IsSpace(f[n])
  {
    n := 0;
    if f != "" && IsSpace(f[0]) {
      var m := TrimStartCuts(f[1..]);
      n := m + 1;
      assert f[1..][m..] == f[n..];
      forall i | 0 < i < n ensures IsSpace(f[i]) { assert f[i] == f[1..][i - 1]; }
    }
  }

  lemma {:induction false} TrimEndCuts(f: string) returns (n: nat)
    ensures n <= |f| && Blank(f, n, |f|) && TrimEnd(f) == f[..n]
    ensures n > 0 ==> !IsSpace(f[n - 1])
  {
    n := |f|;
    if f != "" && IsSpace(f[|f| - 1]) {
      var last := |f| - 1;
      n := TrimEndCuts(f[..last]);
      assert f[..last][..n] == f[..n];
      forall i | n <= i < last ensures IsSpace(f[i]) { assert f[i] == f[..last][i]; }
    }
  }

  /** Trimming cuts white space off both ends and nothing else. */
  lemma TrimCuts(f: string) returns (m: nat, n: nat)
    ensures m <= n <= |f| && Trim(f) == f[m..n] && IsTrimmed(f[m..n])
    ensures Blank(f, 0, m) && Blank(f, n, |f|)
  {
    m := TrimStartCuts(f);
    var rest := f[m..];
    var k := TrimEndCuts(rest);
    n := m + k;
    assert rest[..k] == f[m..n];
    forall i | n <= i < |f| ensures IsSpace(f[i]) { assert f[i] == rest[i - m]; }
    if k > 0 { assert f[m..n][0] == f[m] && f[m..n][k - 1] == rest[k - 1]; }
  }

  lemma TrimmedIff(f: string)
    ensures Trim(f) == f <==> IsTrimmed(f)
  {
    var m, n := TrimCuts(f);
    if IsTrimmed(f) {
      assert m == 0 || m == |f|;
      assert f[0..|f|] == f;
    }
  }

  predicate RowIsTrimmed(row: Row) { forall j :: 0 <= j < |row| ==> IsTrimmed(row[j]) }

  predicate AllTrimmed(table: seq<Row>) { forall i :: 0 <= i < |table| ==> RowIsTrimmed(table[i]) }

  predicate HasText(row: Row) { exists j :: 0 <= j < |row| && row[j] != "" }

  predicate NoBlankRow(table: seq<Row>) { forall i :: 0 <= i < |table| ==> HasText(table[i]) }

  lemma RowTrimmedIff(row: Row)
    ensures TrimRow(row) == row <==> RowIsTrimmed(row)
  {
    forall j | 0 <= j < |row| ensures Trim(row[j]) == row[j] <==> IsTrimmed(row[j]) { TrimmedIff(row[j]); }
    if TrimRow(row) == row {
      forall j | 0 <= j < |row| ensures IsTrimmed(row[j]) { assert TrimRow(row)[j] == row[j]; }
    }
  }

  lemma {:induction false} CleanNeverGrows(table: seq<Row>)
    ensures |Clean(table)| <= |table|
  {
    if table != [] { CleanNeverGrows(table[1..]); }
  }

  lemma TailOf(table: seq<Row>)
    requires table != []
    ensures AllTrimmed(table) <==> RowIsTrimmed(table[0]) && AllTrimmed(table[1..])
    ensures NoBlankRow(table) <==> HasText(table[0]) && NoBlankRow(table[1..])
  {
    forall i | 0 < i < |table| ensures table[i] == table[1..][i - 1] {
    }
  }

  lemma {:induction false} CleanIsIdentity(table: seq<Row>)
    ensures Clean(table) == table <==> AllTrimmed(table) && NoBlankRow(table)
  {
    if table != [] {
      var head := table[0];
      CleanIsIdentity(table[1..]);
      CleanNeverGrows(table[1..]);
      RowTrimmedIff(head);
      TailOf(table);
      assert table == [head] + table[1..];
      assert Clean(table) == Kept(head) + Clean(table[1..]);
      if Clean(table) == table {
        assert Kept(head) == [TrimRow(head)];
        assert TrimRow(head) == head && Clean(table[1..]) == table[1..];
      }
    }
  }

  /** The exact round trip: writing cells quoted or bare, with any line ends, and reading gives back the
      table iff every cell is trimmed and no row is blank. */
  lemma WrittenThenReadRows(lines: seq<Line>)
    requires Writable(lines)
    ensures Clean(RawRows(Write(lines))) == Table(lines) <==> AllTrimmed(Table(lines)) && NoBlankRow(Table(lines))
  {
    CleanOfWritten(lines);
    CleanIsIdentity(Table(lines));
  }

  /** Some cell of the row has a character that is not white space. */
  predicate HasVisible(row: Row) { exists j, k :: 0 <= j < |row| && 0 <= k < |row[j]| && !IsSpace(row[j][k]) }

  function VisibleRows(table: seq<Row>): seq<Row> {
    if table == [] then [] else (if HasVisible(table[0]) then [table[0]] else []) + VisibleRows(table[1..])
  }

  predicate CutAt(f: string, m: nat, n: nat, cut: string) { m <= n <= |f| && cut == f[m..n] && Blank(f, 0, m) && Blank(f, n, |f|) }

  /** What is left of a cell when the white space at its ends is cut off. */
  ghost predicate IsCut(f: string, cut: string) { IsTrimmed(cut) && exists m, n :: CutAt(f, m, n, cut) }

  ghost predicate IsCutRow(row: Row, cut: Row) { |cut| == |row| && forall j :: 0 <= j < |row| ==> IsCut(row[j], cut[j]) }

  lemma TrimIsCut(f: string)
    ensures IsCut(f, Trim(f))
    ensures Trim(f) != "" <==> exists k :: 0 <= k < |f| && !IsSpace(f[k])
  {
    var m, n := TrimCuts(f);
    assert CutAt(f, m, n, Trim(f));
    if m < n { assert f[m..n][0] == f[m] && !IsSpace(f[m]); }
  }

  lemma KeptIsCut(row: Row)
    ensures Kept(row) == if HasVisible(row) then [TrimRow(row)] else []
    ensures IsCutRow(row, TrimRow(row))
  {
    forall j | 0 <= j < |row|
      ensures IsCut(row[j], TrimRow(row)[j]) && (TrimRow(row)[j] != "" <==> exists k :: 0 <= k < |row[j]| && !IsSpace(row[j][k]))
    {
      TrimIsCut(row[j]);
    }
  }

  lemma {:induction false} CleanIsCut(table: seq<Row>)
    ensures |Clean(table)| == |VisibleRows(table)|
    ensures forall i :: 0 <= i < |Clean(table)| ==> IsCutRow(VisibleRows(table)[i], Clean(table)[i])
  {
    if table != [] {
      KeptIsCut(table[0]);
      CleanIsCut(table[1..]);
      assert Clean(table) == Kept(table[0]) + Clean(table[1..]);
    }
  }

  /** What any written file reads as: its rows with visible text, in order, each cell cut at both ends. */
  lemma WrittenReadsCut(lines: seq<Line>)
    requires Writable(lines)
    ensures var rows, visible := Clean(RawRows(Write(lines))), VisibleRows(Table(lines));
      |rows| == |visible| && forall i :: 0 <= i < |rows| ==> IsCutRow(visible[i], rows[i])
  {
    CleanOfWritten(lines);
    CleanIsCut(Table(lines));
  }

  lemma {:induction false} RecordKeys(headers: Row, cells: Row)
    ensures RecordOf(headers, cells).Keys == set h | h in headers
  {
    if headers != [] {
      var last := |headers| - 1;
      RecordKeys(headers[..last], cells);
      assert headers == headers[..last] + [headers[last]];
    }
  }

  lemma {:induction false} RecordHoldsCell(headers: Row, cells: Row, i: nat)
    requires i < |headers| && forall j :: i < j < |headers| ==> headers[i] != headers[j]
    ensures headers[i] in RecordOf(headers, cells)
    ensures RecordOf(headers, cells)[headers[i]] == if i < |cells| then cells[i] else ""
  {
    var last := |headers| - 1;
    if i < last {
      assert headers[..last][i] == headers[i];
      RecordHoldsCell(headers[..last], cells, i);
    }
  }

  predicate LastOfItsName(headers: Row, j: nat) { j < |headers| && forall k :: j < k < |headers| ==> headers[k] != headers[j] }

  predicate HoldsCells(record: Record, headers: Row, cells: Row) {
    && record.Keys == (set h | h in headers)
    && forall j: nat :: j < |headers| && LastOfItsName(headers, j) ==>
         headers[j] in record && record[headers[j]] == if j < |cells| then cells[j] else ""
  }

  lemma RecordIs(headers: Row, cells: Row)
    ensures HoldsCells(RecordOf(headers, cells), headers, cells)
  {
    RecordKeys(headers, cells);
    forall j: nat | j < |headers| && LastOfItsName(headers, j)
      ensures headers[j] in RecordOf(headers, cells) && RecordOf(headers, cells)[headers[j]] == if j < |cells| then cells[j] else ""
    {
      RecordHoldsCell(headers, cells, j);
    }
  }

  lemma RecordAt(table: seq<Row>, i: nat)
    requires i + 1 < |table|
    ensures HoldsCells(Records(table)[i], table[0], table[i + 1])
  {
    assert Records(table)[i] == RecordOf(table[0], table[i + 1]) by {
      assert |Records(table)| == |table| - 1;
    }
    RecordIs(table[0], table[i + 1]);
  }

  lemma ParsesTable(content: string, table: seq<Row>)
    requires Clean(RawRows(content)) == table && table != []
    ensures |Parse(content)| == |table| - 1
    ensures forall i :: 0 <= i < |table| - 1 ==> HoldsCells(Parse(content)[i], table[0], table[i + 1])
  {
    forall i | 0 <= i < |table| - 1 ensures HoldsCells(Records(table)[i], table[0], table[i + 1]) {
      RecordAt(table, i);
    }
  }

  /** The records of a written file: one for each line after the first, keyed by the first line's cells;
      under each name stands the cell of its last column, empty where the line is shorter. */
  lemma WrittenThenReadRecords(lines: seq<Line>)
    requires Writable(lines) && lines != [] && AllTrimmed(Table(lines)) && NoBlankRow(Table(lines))
    ensures var table, records := Table(lines), Parse(Write(lines));
      && |records| == |lines| - 1
      && forall i :: 0 <= i < |lines| - 1 ==> HoldsCells(records[i], table[0], table[i + 1])
  {
    WrittenThenReadRows(lines);
    ParsesTable(Write(lines), Table(lines));
  }
}
