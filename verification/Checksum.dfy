/** What a checksum taken on the LF-canonical form of a release file fixes of its parsed rows. */
module Checksum {
  import opened Prelude
  import opened Csv

  /** The checksum's `\r\n?` to `\n` rewrite. */
  function Canonical(s: string): string
    decreases |s|
  {
    if s == "" then ""
    else if s[0] == '\r' then "\n" + Canonical(s[BreakLength(s)..])
    else [s[0]] + Canonical(s[1..])
  }

  function CanonicalRow(row: Row): Row { Map(Canonical, row) }

  function CanonicalRows(rows: seq<Row>): seq<Row> { Map(CanonicalRow, rows) }

  // ---------- canonical text, canonical cells ----------

  predicate EndsCr(s: string) { s != "" && s[|s| - 1] == '\r' }

  function Unix(c: char): char { if c == '\r' then '\n' else c }

  /** The characters one turn of the rewrite takes. */
  function Taken(s: string): (n: nat)
    requires s != ""
    ensures 1 <= n <= |s|
  {
    if s[0] == '\r' then BreakLength(s) else 1
  }

  lemma CanonicalTurn(s: string)
    requires s != ""
    ensures Canonical(s) == [Unix(s[0])] + Canonical(s[Taken(s)..])
  {
  }

  lemma Prepend(c: char, a: string, b: string)
    ensures [c] + (a + b) == [c] + a + b
  {
  }

  lemma CanonicalOne(c: char)
    ensures Canonical([c]) == [Unix(c)] && Canonical("\r" + [c]) == if c == '\n' then "\n" else ['\n', Unix(c)]
  {
    assert [c][1..] == "" && ("\r" + [c])[1..] == [c] && ("\r" + [c])[2..] == "";
  }

  lemma {:induction false} CanonicalSnoc(f: string, c: char)
    ensures Canonical(f + [c]) == if c == '\n' && EndsCr(f) then Canonical(f) else Canonical(f) + [Unix(c)]
    decreases |f|
  {
    var g := f + [c];
    CanonicalOne(c);
    if f == "" {
      assert g == [c];
    } else if f == "\r" {
      assert f == [f[0]];
      CanonicalOne(f[0]);
    } else {
      var n := Taken(f);
      assert Taken(g) == n && g[n..] == f[n..] + [c];
      CanonicalTurn(f);
      CanonicalTurn(g);
      CanonicalSnoc(f[n..], c);
      assert EndsCr(f) <==> EndsCr(f[n..]);
      Prepend(Unix(f[0]), Canonical(f[n..]), [Unix(c)]);
    }
  }

  /** The open field is not about to have a line break split between it and the text. */
  predicate Ready(s: string, inQuotes: bool, field: string) {
    s != "" && EndsCr(field) ==> s[0] != (if inQuotes then '\n' else '"')
  }

  lemma OneCellMore(row: Row, field: string)
    ensures CanonicalRow(row + [field]) == CanonicalRow(row) + [Canonical(field)]
    ensures CanonicalRows([row + [field]]) == [CanonicalRow(row) + [Canonical(field)]]
  {
  }

  lemma RowsConcat(a: seq<Row>, b: seq<Row>)
    ensures CanonicalRows(a + b) == CanonicalRows(a) + CanonicalRows(b)
  {
  }

  /** The canonical text lexes to the same rows with every cell made canonical, quoted breaks included. */
  lemma {:induction false} LexCanonical(s: string, inQuotes: bool, row: Row, field: string)
    requires Ready(s, inQuotes, field)
    ensures Lex(Canonical(s), inQuotes, CanonicalRow(row), Canonical(field)) == CanonicalRows(Lex(s, inQuotes, row, field))
    decreases |s|, 2
  {
    OneCellMore(row, field);
    if s != "" {
      if s[0] == '"' {
        LexCanonicalQuote(s, inQuotes, row, field);
      } else if s[0] == '\r' || s[0] == '\n' {
        LexCanonicalBreak(s, inQuotes, row, field);
      } else {
        LexCanonicalPlain(s, inQuotes, row, field);
      }
    }
  }

  lemma LexToggle(tail: string, inQuotes: bool, row: Row, field: string)
    requires inQuotes && tail != "" ==> tail[0] != '"'
    ensures Lex("\"" + tail, inQuotes, row, field) == Lex(tail, !inQuotes, row, field)
  {
    assert ("\"" + tail)[1..] == tail;
  }

  lemma CanonicalFirst(s: string)
    requires s != "" && s[0] != '\r'
    ensures s == [s[0]] + s[1..] && Canonical(s) == [s[0]] + Canonical(s[1..])
    ensures |s| > 1 ==> (Canonical(s[1..])[0] == '"' <==> s[1] == '"')
  {
  }

  lemma {:induction false} LexCanonicalQuote(s: string, inQuotes: bool, row: Row, field: string)
    requires s != "" && s[0] == '"' && Ready(s, inQuotes, field)
    ensures Lex(Canonical(s), inQuotes, CanonicalRow(row), Canonical(field)) == CanonicalRows(Lex(s, inQuotes, row, field))
    decreases |s|, 1
  {
    CanonicalFirst(s);
    if inQuotes && |s| > 1 && s[1] == '"' {
      LexCanonicalDoubled(s, row, field);
    } else {
      LexToggle(s[1..], inQuotes, row, field);
      LexToggle(Canonical(s[1..]), inQuotes, CanonicalRow(row), Canonical(field));
      LexCanonical(s[1..], !inQuotes, row, field);
    }
  }

  lemma DoubledHere(s: string)
    requires |s| > 1 && s[0] == '"' && s[1] == '"'
    ensures s == "\"\"" + s[2..] && Canonical(s) == "\"\"" + Canonical(s[2..])
  {
    CanonicalFirst(s);
    CanonicalFirst(s[1..]);
    assert s[1..][1..] == s[2..];
  }

  lemma {:induction false} LexCanonicalDoubled(s: string, row: Row, field: string)
    requires |s| > 1 && s[0] == '"' && s[1] == '"'
    ensures Lex(Canonical(s), true, CanonicalRow(row), Canonical(field)) == CanonicalRows(Lex(s, true, row, field))
    decreases |s|, 0
  {
    DoubledHere(s);
    var tail := s[2..];
    LexDoubledQuote(tail, row, field);
    LexDoubledQuote(Canonical(tail), CanonicalRow(row), Canonical(field));
    CanonicalSnoc(field, '"');
    LexCanonical(tail, true, row, field + "\"");
  }

  lemma {:induction false} LexCanonicalBreak(s: string, inQuotes: bool, row: Row, field: string)
    requires s != "" && s[0] in {'\r', '\n'} && Ready(s, inQuotes, field)
    ensures Lex(Canonical(s), inQuotes, CanonicalRow(row), Canonical(field)) == CanonicalRows(Lex(s, inQuotes, row, field))
    decreases |s|, 0
  {
    var t, n := Canonical(s), BreakLength(s);
    assert t[0] == '\n' && t[1..] == Canonical(s[n..]);
    CanonicalSnoc(field, s[0]);
    if !inQuotes {
      LexCanonical(s[n..], false, [], "");
      OneCellMore(row, field);
      RowsConcat([row + [field]], Lex(s[n..], false, [], ""));
    } else if n == 1 {
      LexCanonical(s[1..], true, row, field + [s[0]]);
    } else {
      CanonicalSnoc(field + "\r", '\n');
      assert s[1..][1..] == s[2..] && s[1..][0] == '\n';
      assert Lex(s, true, row, field) == Lex(s[2..], true, row, field + "\r" + "\n");
      LexCanonical(s[2..], true, row, field + "\r" + "\n");
    }
  }

  lemma {:induction false} LexCanonicalPlain(s: string, inQuotes: bool, row: Row, field: string)
    requires s != "" && s[0] !in {'"', '\r', '\n'}
    ensures Lex(Canonical(s), inQuotes, CanonicalRow(row), Canonical(field)) == CanonicalRows(Lex(s, inQuotes, row, field))
    decreases |s|, 0
  {
    var t := Canonical(s);
    assert t[0] == s[0] && t[1..] == Canonical(s[1..]);
    if s[0] == ',' && !inQuotes {
      OneCellMore(row, field);
      LexCanonical(s[1..], false, row + [field], "");
    } else {
      CanonicalSnoc(field, s[0]);
      LexCanonical(s[1..], inQuotes, row, field + [s[0]]);
    }
  }

  // ---------- trimming and cleaning ----------

  lemma {:induction false} TrimStartCanonical(f: string)
    ensures TrimStart(Canonical(f)) == Canonical(TrimStart(f))
    decreases |f|
  {
    if f != "" {
      var n := if f[0] == '\r' then BreakLength(f) else 1;
      TrimStartCanonical(f[n..]);
      assert Canonical(f)[1..] == Canonical(f[n..]);
      if n == 2 { assert f[1..][1..] == f[2..]; }
    }
  }

  lemma TrimEndSnoc(f: string, c: char)
    ensures TrimEnd(f + [c]) == if IsSpace(c) then TrimEnd(f) else f + [c]
  {
    assert (f + [c])[..|f|] == f;
  }

  lemma {:induction false} TrimEndCanonical(f: string)
    ensures TrimEnd(Canonical(f)) == Canonical(TrimEnd(f))
    decreases |f|
  {
    if f != "" {
      var g, c := f[..|f| - 1], f[|f| - 1];
      assert f == g + [c];
      TrimEndCanonical(g);
      CanonicalSnoc(g, c);
      TrimEndSnoc(g, c);
      TrimEndSnoc(Canonical(g), Unix(c));
    }
  }

  lemma TrimCanonical(f: string)
    ensures Trim(Canonical(f)) == Canonical(Trim(f))
  {
    TrimStartCanonical(f);
    TrimEndCanonical(TrimStart(f));
  }

  lemma KeptCanonical(row: Row)
    ensures Kept(CanonicalRow(row)) == CanonicalRows(Kept(row))
  {
    forall i | 0 <= i < |row| ensures Trim(Canonical(row[i])) == Canonical(Trim(row[i])) {
      TrimCanonical(row[i]);
    }
    assert TrimRow(CanonicalRow(row)) == CanonicalRow(TrimRow(row));
    assert NonBlank(CanonicalRow(TrimRow(row))) <==> NonBlank(TrimRow(row)) by {
      assert forall i :: 0 <= i < |row| ==> (CanonicalRow(TrimRow(row))[i] == "" <==> TrimRow(row)[i] == "");
    }
  }

  lemma {:induction false} CleanCanonical(rows: seq<Row>)
    ensures Clean(CanonicalRows(rows)) == CanonicalRows(Clean(rows))
  {
    if rows != [] {
      KeptCanonical(rows[0]);
      CleanCanonical(rows[1..]);
      assert CanonicalRows(rows)[1..] == CanonicalRows(rows[1..]);
      RowsConcat(Kept(rows[0]), Clean(rows[1..]));
    }
  }

  /** The table read from the canonical text is the table read from the text, cell by cell canonical. */
  lemma ReadsCanonically(s: string)
    ensures Clean(RawRows(Canonical(s))) == CanonicalRows(Clean(RawRows(s)))
  {
    LexCanonical(s, false, [], "");
    assert CanonicalRow([]) == [];
    CleanCanonical(RawRows(s));
  }

  /** Without any condition: texts with one checksum input hold the same cells up to line breaks. */
  lemma ChecksumFixesRowsUpToBreaks(a: string, b: string)
    requires Canonical(a) == Canonical(b)
    ensures CanonicalRows(Clean(RawRows(a))) == CanonicalRows(Clean(RawRows(b)))
  {
    ReadsCanonically(a);
    ReadsCanonically(b);
  }

  // ---------- where a carriage return survives ----------

  /** Some carriage return of the text has, in its own cell, something other than white space
      both before and after it. `text`: the open cell holds such a character already; `cr`: a
      carriage return has followed it. */
  predicate CrWithinCell(s: string, inQuotes: bool, text: bool, cr: bool)
    decreases |s|
  {
    if s == "" then false
    else if s[0] == '"' && inQuotes && |s| > 1 && s[1] == '"' then cr || CrWithinCell(s[2..], true, true, false)
    else if s[0] == '"' then CrWithinCell(s[1..], !inQuotes, text, cr)
    else if s[0] == ',' && !inQuotes then CrWithinCell(s[1..], false, false, false)
    else if (s[0] == '\n' || s[0] == '\r') && !inQuotes then CrWithinCell(s[BreakLength(s)..], false, false, false)
    else if IsSpace(s[0]) then CrWithinCell(s[1..], inQuotes, text, cr || (text && s[0] == '\r'))
    else cr || CrWithinCell(s[1..], inQuotes, true, false)
  }

  predicate HoldsCr(rows: seq<Row>) {
    exists i, j :: 0 <= i < |rows| && 0 <= j < |rows[i]| && '\r' in rows[i][j]
  }

  lemma HoldsCrConcat(a: seq<Row>, b: seq<Row>)
    ensures HoldsCr(a + b) <==> HoldsCr(a) || HoldsCr(b)
  {
    var c := a + b;
    assert forall i :: 0 <= i < |b| ==> c[|a| + i] == b[i];
    if HoldsCr(c) {
      var i, j :| 0 <= i < |c| && 0 <= j < |c[i]| && '\r' in c[i][j];
      if i >= |a| { assert '\r' in b[i - |a|][j]; }
    }
    if HoldsCr(a) {
      var i, j :| 0 <= i < |a| && 0 <= j < |a[i]| && '\r' in a[i][j];
      assert '\r' in c[i][j];
    }
    if HoldsCr(b) {
      var i, j :| 0 <= i < |b| && 0 <= j < |b[i]| && '\r' in b[i][j];
      assert '\r' in c[|a| + i][j];
    }
  }

  lemma HoldsCrOne(row: Row, field: string)
    ensures HoldsCr([row + [field]]) <==> HoldsCr([row]) || '\r' in field
  {
    var whole := [row + [field]];
    if HoldsCr([row]) {
      var j :| 0 <= j < |row| && '\r' in row[j];
      assert '\r' in whole[0][j];
    }
    if '\r' in field { assert '\r' in whole[0][|row|]; }
    if HoldsCr(whole) {
      var j :| 0 <= j < |row| + 1 && '\r' in whole[0][j];
      if j < |row| { assert '\r' in [row][0][j]; }
    }
  }

  /** A row is kept whenever a trimmed cell of it holds a carriage return. */
  lemma KeptHoldsCr(row: Row, field: string)
    ensures HoldsCr(Kept(row + [field])) <==> HoldsCr([TrimRow(row)]) || '\r' in Trim(field)
  {
    TrimRowAppend(row, field);
    HoldsCrOne(TrimRow(row), Trim(field));
    var trimmed := TrimRow(row + [field]);
    if HoldsCr([trimmed]) {
      var j :| 0 <= j < |trimmed| && '\r' in trimmed[j];
      assert trimmed[j] != "" && NonBlank(trimmed);
    }
  }

  lemma {:induction false} TrimStartSnoc(f: string, c: char)
    ensures TrimStart(f + [c]) == if TrimStart(f) == "" && IsSpace(c) then "" else TrimStart(f) + [c]
  {
    if f != "" {
      assert (f + [c])[1..] == f[1..] + [c];
      if IsSpace(f[0]) { TrimStartSnoc(f[1..], c); }
    } else {
      assert [c][1..] == "" && f + [c] == [c];
    }
  }

  lemma TrimSnoc(f: string, c: char)
    ensures Trim(f + [c]) == if IsSpace(c) then Trim(f) else TrimStart(f) + [c]
  {
    TrimStartSnoc(f, c);
    TrimEndSnoc(TrimStart(f), c);
  }

  predicate Text(f: string) { TrimStart(f) != "" }

  predicate Cr(f: string) { '\r' in TrimStart(f) }

  lemma SnocState(f: string, c: char)
    ensures Text(f + [c]) <==> Text(f) || !IsSpace(c)
    ensures Cr(f + [c]) <==> Cr(f) || (Text(f) && c == '\r')
    ensures '\r' in Trim(f + [c]) <==> if IsSpace(c) then '\r' in Trim(f) else Cr(f)
  {
    TrimStartSnoc(f, c);
    TrimSnoc(f, c);
  }

  /** A trimmed cell with a carriage return has text, the return, and text again. */
  lemma TrimmedCr(f: string)
    ensures '\r' in Trim(f) ==> Cr(f)
    ensures Cr(f) ==> Text(f)
  {
    TrimEndKeeps(TrimStart(f));
  }

  lemma {:induction false} TrimEndKeeps(f: string)
    ensures forall c :: c in TrimEnd(f) ==> c in f
  {
    if f != "" { TrimEndKeeps(f[..|f| - 1]); }
  }

  /** The cells the parser returns hold a carriage return iff the scanner finds one. */
  lemma {:induction false} LexHoldsCr(s: string, inQuotes: bool, row: Row, field: string)
    ensures HoldsCr(Clean(Lex(s, inQuotes, row, field))) <==>
      HoldsCr([TrimRow(row)]) || '\r' in Trim(field) || CrWithinCell(s, inQuotes, Text(field), Cr(field))
    decreases |s|
  {
    if s == "" {
      FlatMapOne(Kept, row + [field]);
      KeptHoldsCr(row, field);
    } else {
      var m := NextMove(s, inQuotes, row, field);
      var rest := Lex(s[m.length..], m.inQuotes, m.row, m.field);
      LexHoldsCr(s[m.length..], m.inQuotes, m.row, m.field);
      FlatMapConcat(Kept, m.closed, rest);
      HoldsCrConcat(Clean(m.closed), Clean(rest));
      MoveHoldsCr(s, inQuotes, row, field);
    }
  }

  /** A carriage return in what was read of the row, or one the scanner still finds. */
  predicate Found(s: string, inQuotes: bool, row: Row, field: string) {
    HoldsCr([TrimRow(row)]) || '\r' in Trim(field) || CrWithinCell(s, inQuotes, Text(field), Cr(field))
  }

  lemma BreakHoldsCr(s: string, inQuotes: bool, row: Row, field: string)
    requires s != "" && s[0] in {'\n', '\r'} && !inQuotes
    ensures var m := NextMove(s, inQuotes, row, field);
      Found(s, inQuotes, row, field) <==> HoldsCr(Clean(m.closed)) || Found(s[m.length..], m.inQuotes, m.row, m.field)
  {
    TrimmedCr(field);
    FlatMapOne(Kept, row + [field]);
    KeptHoldsCr(row, field);
    assert TrimRow([]) == [];
  }

  lemma CommaHoldsCr(s: string, inQuotes: bool, row: Row, field: string)
    requires s != "" && s[0] == ',' && !inQuotes
    ensures var m := NextMove(s, inQuotes, row, field);
      Found(s, inQuotes, row, field) <==> HoldsCr(Clean(m.closed)) || Found(s[m.length..], m.inQuotes, m.row, m.field)
  {
    TrimmedCr(field);
    TrimRowAppend(row, field);
    HoldsCrOne(TrimRow(row), Trim(field));
  }

  lemma CharHoldsCr(s: string, inQuotes: bool, row: Row, field: string)
    requires s != "" && (inQuotes || s[0] !in {',', '\n', '\r'})
    ensures var m := NextMove(s, inQuotes, row, field);
      Found(s, inQuotes, row, field) <==> HoldsCr(Clean(m.closed)) || Found(s[m.length..], m.inQuotes, m.row, m.field)
  {
    var m := NextMove(s, inQuotes, row, field);
    TrimmedCr(field);
    if m.field != field { SnocState(field, if m.length == 2 then '"' else s[0]); }
  }

  /** One turn of the lexer against one turn of the scanner. */
  lemma MoveHoldsCr(s: string, inQuotes: bool, row: Row, field: string)
    requires s != ""
    ensures var m := NextMove(s, inQuotes, row, field);
      Found(s, inQuotes, row, field) <==> HoldsCr(Clean(m.closed)) || Found(s[m.length..], m.inQuotes, m.row, m.field)
  {
    if inQuotes || s[0] !in {',', '\n', '\r'} {
      CharHoldsCr(s, inQuotes, row, field);
    } else if s[0] == ',' {
      CommaHoldsCr(s, inQuotes, row, field);
    } else {
      BreakHoldsCr(s, inQuotes, row, field);
    }
  }

  lemma {:induction false} CanonicalHasNoCr(s: string)
    ensures '\r' !in Canonical(s)
    decreases |s|
  {
    if s != "" {
      CanonicalHasNoCr(s[BreakLength(s)..]);
      CanonicalHasNoCr(s[1..]);
    }
  }

  lemma {:induction false} CanonicalWithoutCr(s: string)
    requires '\r' !in s
    ensures Canonical(s) == s
  {
    if s != "" { CanonicalWithoutCr(s[1..]); }
  }

  lemma CanonicalRowsFixed(rows: seq<Row>)
    ensures CanonicalRows(rows) == rows <==> !HoldsCr(rows)
  {
    forall i, j | 0 <= i < |rows| && 0 <= j < |rows[i]| ensures Canonical(rows[i][j]) == rows[i][j] <==> '\r' !in rows[i][j] {
      CanonicalHasNoCr(rows[i][j]);
      if '\r' !in rows[i][j] { CanonicalWithoutCr(rows[i][j]); }
    }
    if !HoldsCr(rows) {
      forall i | 0 <= i < |rows| ensures CanonicalRows(rows)[i] == rows[i] {
        assert forall j :: 0 <= j < |rows[i]| ==> '\r' !in rows[i][j];
      }
    }
    if CanonicalRows(rows) == rows {
      forall i, j | 0 <= i < |rows| && 0 <= j < |rows[i]| ensures '\r' !in rows[i][j] {
        assert CanonicalRow(rows[i])[j] == CanonicalRows(rows)[i][j] == rows[i][j];
      }
    }
  }

  /** The exact condition: the parser returns the same rows for a text and its canonical form iff
      no carriage return lies strictly inside a cell. */
  lemma CanonicalRowsIff(s: string)
    ensures Clean(RawRows(Canonical(s))) == Clean(RawRows(s)) <==> !CrWithinCell(s, false, false, false)
  {
    ReadsCanonically(s);
    CanonicalRowsFixed(Clean(RawRows(s)));
    LexHoldsCr(s, false, [], "");
    assert TrimRow([]) == [];
  }

  /** Two texts with one checksum input and no carriage return strictly inside a cell carry the
      same rows, hence the same records. */
  lemma ChecksumFixesRecords(a: string, b: string)
    requires Canonical(a) == Canonical(b)
    requires !CrWithinCell(a, false, false, false) && !CrWithinCell(b, false, false, false)
    ensures Clean(RawRows(a)) == Clean(RawRows(b)) && Parse(a) == Parse(b)
  {
    CanonicalRowsIff(a);
    CanonicalRowsIff(b);
  }

  lemma {:induction false} CanonicalConcat(a: string, b: string)
    requires b != "" && b[0] == '\n' ==> !EndsCr(a)
    ensures Canonical(a + b) == Canonical(a) + Canonical(b)
    decreases |a|
  {
    if a == "" {
      assert a + b == b;
    } else {
      var n := Taken(a);
      assert Taken(a + b) == n && (a + b)[n..] == a[n..] + b;
      CanonicalTurn(a);
      CanonicalTurn(a + b);
      CanonicalConcat(a[n..], b);
      Prepend(Unix(a[0]), Canonical(a[n..]), Canonical(b));
    }
  }

  /** A lone line break of either kind canonicalises to LF. */
  lemma CanonicalBreak(u: string, c: char, w: string)
    requires c == '\r' || c == '\n'
    requires !EndsCr(u) && (w != "" ==> w[0] != '\n')
    ensures Canonical(u + [c] + w) == Canonical(u) + "\n" + Canonical(w)
  {
    CanonicalSnoc(u, c);
    CanonicalConcat(u + [c], w);
  }

  lemma {:induction false} DoublingNothing(f: string)
    requires '"' !in f
    ensures DoubleQuotes(f) == f
  {
    if f != "" { DoublingNothing(f[1..]); }
  }

  /** A file of one column and one record, every cell quoted. */
  function OneCell(cell: string): seq<Line> { [Line([[Part("h", true)]], "\n"), Line([[Part(cell, true)]], "\n")] }

  lemma OnePart(text: string)
    ensures WriteCell([Part(text, true)]) == Quoted(text) && TextOf([Part(text, true)]) == text
  {
    assert [Part(text, true)][1..] == [];
  }

  lemma WriteTwoLines(a: Line, b: Line)
    ensures Write([a, b]) == WriteCells(a.cells) + a.end + (WriteCells(b.cells) + b.end)
  {
    assert [a, b][1..] == [b] && [b][1..] == [];
    assert Write([b]) == WriteCells(b.cells) + b.end;
  }

  lemma WriteOneCell(cell: string)
    ensures Write(OneCell(cell)) == Quoted("h") + "\n" + (Quoted(cell) + "\n")
  {
    OnePart("h");
    OnePart(cell);
    WriteTwoLines(OneCell(cell)[0], OneCell(cell)[1]);
  }

  lemma Around(head: string, quote: string, x: string, c: char, y: string, end: string)
    ensures head + end + (quote + (x + [c] + y) + quote + end) == (head + end + quote + x) + [c] + (y + quote + end)
  {
  }

  lemma WriteAround(x: string, c: char, y: string)
    requires '"' !in x && '"' !in y && c != '"'
    ensures Write(OneCell(x + [c] + y)) == (Quoted("h") + "\n" + "\"" + x) + [c] + (y + "\"" + "\n")
  {
    WriteOneCell(x + [c] + y);
    DoublingNothing(x + [c] + y);
    Around(Quoted("h"), "\"", x, c, y, "\n");
  }

  lemma TableOfOneCell(cell: string)
    ensures Table(OneCell(cell)) == [["h"], [cell]]
  {
    var lines := OneCell(cell);
    OnePart("h");
    OnePart(cell);
    assert Table(lines)[0] == RowOf(lines[0]) == ["h"] && Table(lines)[1] == RowOf(lines[1]) == [cell];
  }

  lemma OneHolds(record: Record, cell: string)
    requires HoldsCells(record, ["h"], [cell])
    ensures record == map["h" := cell]
  {
    assert LastOfItsName(["h"], 0) && ["h"][0] == "h" && [cell][0] == cell;
    assert record.Keys == {"h"} && record["h"] == cell;
  }

  lemma OneCellWritable(cell: string)
    requires cell != "" && IsTrimmed(cell)
    ensures Writable(OneCell(cell)) && AllTrimmed([["h"], [cell]]) && NoBlankRow([["h"], [cell]])
  {
    assert ["h"][0] != "" && [cell][0] != "";
    assert HasText(["h"]) && HasText([cell]);
  }

  lemma ReadOneCell(cell: string)
    requires cell != "" && IsTrimmed(cell)
    ensures Parse(Write(OneCell(cell))) == [map["h" := cell]]
  {
    var records := Parse(Write(OneCell(cell)));
    TableOfOneCell(cell);
    OneCellWritable(cell);
    WrittenThenReadRecords(OneCell(cell));
    assert |records| == 1;
    OneHolds(records[0], cell);
  }

  /** Two texts that differ in one quoted line break have one checksum input. */
  lemma OneChecksum()
    ensures Canonical(Write(OneCell("x\ry"))) == Canonical(Write(OneCell("x\ny")))
  {
    var u, w := Quoted("h") + "\n" + "\"" + "x", "y" + "\"" + "\n";
    WriteAround("x", '\r', "y");
    WriteAround("x", '\n', "y");
    assert "x" + ['\r'] + "y" == "x\ry" && "x" + ['\n'] + "y" == "x\ny";
    CanonicalBreak(u, '\r', w);
    CanonicalBreak(u, '\n', w);
  }

  /** The condition is needed: equal checksum inputs, different records. */
  lemma QuotedCrEscapesChecksum()
    ensures var a, b := Write(OneCell("x\ry")), Write(OneCell("x\ny"));
      && Canonical(a) == Canonical(b)
      && Parse(a) == [map["h" := "x\ry"]]
      && Parse(b) == [map["h" := "x\ny"]]
      && Parse(a) != Parse(b)
  {
    var a, b := "x\ry", "x\ny";
    OneChecksum();
    ReadOneCell(a);
    ReadOneCell(b);
    assert a[1] != b[1] && map["h" := a]["h"] == a;
    assert [map["h" := a]][0] != [map["h" := b]][0];
  }
}
