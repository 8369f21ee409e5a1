/** The permissive CSV reader of the sheets hook (`parseCSV`): lines are split
    on '\n', each line is scanned one character at a time with a quote toggle,
    every cell is trimmed and rows without any non-empty cell are dropped.
    A doubled quote `""` is two toggles, not an escaped quote. */
module Csv {
  import opened Seqs
  import opened JsText

  predicate IsNewline(c: char) { c == '\n' }

  predicate IsQuote(c: char) { c == '"' }

  predicate IsNotQuote(c: char) { c != '"' }

  // ---------------------------------------------------------------------
  // Specification of the line scanner

  /** What the scanner knows after a prefix of a line: the raw (untrimmed) text
      of every cell so far, the last one being the cell in progress, and
      whether the quote toggle is on. */
  datatype ScanState = ScanState(raw: seq<string>, inQuotes: bool)

  /** One character of the scan: a quote flips the toggle and is dropped, a
      comma outside quotes starts a new cell, anything else extends the cell
      in progress. */
  function Step(st: ScanState, c: char): (next: ScanState)
    requires st.raw != []
    ensures next.raw != []
  {
    if c == '"' then st.(inQuotes := !st.inQuotes)
    else if c == ',' && !st.inQuotes then st.(raw := st.raw + [""])
    else st.(raw := st.raw[..|st.raw| - 1] + [st.raw[|st.raw| - 1] + [c]])
  }

  /** The scanner state after reading all of `line`. */
  function Scan(line: string): (st: ScanState)
    ensures st.raw != []
    decreases |line|
  {
    if line == [] then ScanState([""], false)
    else Step(Scan(line[..|line| - 1]), line[|line| - 1])
  }

  function TrimAll(cells: seq<string>): (r: seq<string>)
    ensures |r| == |cells|
    ensures forall k :: 0 <= k < |cells| ==> r[k] == Trim(cells[k])
  {
    seq(|cells|, k requires 0 <= k < |cells| => Trim(cells[k]))
  }

  /** The cells of one line, before blank rows are dropped. */
  function LineCells(line: string): seq<string> {
    TrimAll(Scan(line).raw)
  }

  lemma ScanSnoc(line: string, c: char)
    ensures Scan(line + [c]) == Step(Scan(line), c)
  {
    assert (line + [c])[..|line|] == line;
  }

  // ---------------------------------------------------------------------
  // The scanner as the source writes it

  /** Scans one line with a per-character loop over `current`, `inQuotes` and
      the cells pushed so far. */
  method ParseLine(line: string) returns (values: seq<string>)
    ensures values == LineCells(line)
  {
    values := [];
    var current := "";
    var inQuotes := false;
    ghost var done: seq<string> := [];
    for i := 0 to |line|
      invariant Scan(line[..i]) == ScanState(done + [current], inQuotes)
      invariant values == TrimAll(done)
    {
      var c := line[i];
      StepOnCells(line, i, done, current, inQuotes);
      if c == '"' {
        inQuotes := !inQuotes;
      } else if c == ',' && !inQuotes {
        TrimAllSnoc(done, current);
        values := values + [Trim(current)];
        done := done + [current];
        current := "";
      } else {
        current := current + [c];
      }
    }
    TrimAllSnoc(done, current);
    values := values + [Trim(current)];
    assert line[..|line|] == line;
  }

  /** One turn of the scanning loop, in terms of the cells pushed so far and
      the cell in progress. */
  lemma StepOnCells(line: string, i: nat, done: seq<string>, current: string, inQuotes: bool)
    requires i < |line|
    requires Scan(line[..i]) == ScanState(done + [current], inQuotes)
    ensures line[i] == '"' ==> Scan(line[..i + 1]) == ScanState(done + [current], !inQuotes)
    ensures line[i] == ',' && !inQuotes ==>
      Scan(line[..i + 1]) == ScanState((done + [current]) + [""], inQuotes)
    ensures line[i] != '"' && (line[i] != ',' || inQuotes) ==>
      Scan(line[..i + 1]) == ScanState(done + [current + [line[i]]], inQuotes)
  {
    ScanSnoc(line[..i], line[i]);
    assert line[..i + 1] == line[..i] + [line[i]];
    assert (done + [current])[..|done|] == done;
  }

  lemma TrimAllSnoc(cells: seq<string>, cell: string)
    ensures TrimAll(cells + [cell]) == TrimAll(cells) + [Trim(cell)]
  {
  }

  /** A doubled quote `""` is two toggles and leaves nothing behind: it is
      not read as an escaped quote (unlike section 2 of RFC 4180). */
  lemma {:induction false} DoubledQuoteVanishes(prefix: string, rest: string)
    ensures Scan(prefix + ['"', '"'] + rest) == Scan(prefix + rest)
    decreases |rest|
  {
    if rest == [] {
      var once := prefix + ['"'];
      ScanSnoc(prefix, '"');
      ScanSnoc(once, '"');
      assert once + ['"'] == prefix + ['"', '"'] + rest;
      assert prefix + rest == prefix;
    } else {
      var init := rest[..|rest| - 1];
      var c := rest[|rest| - 1];
      DoubledQuoteVanishes(prefix, init);
      ScanSnoc(prefix + ['"', '"'] + init, c);
      ScanSnoc(prefix + init, c);
      assert prefix + ['"', '"'] + init + [c] == prefix + ['"', '"'] + rest;
      assert prefix + init + [c] == prefix + rest;
    }
  }

  // ---------------------------------------------------------------------
  // Properties of one line

  /** `line[j]` is a comma seen while the quote toggle is off: it ends a cell. */
  predicate IsSeparatorAt(line: string, j: nat)
    requires j < |line|
  {
    line[j] == ',' && Count(IsQuote, line[..j]) % 2 == 0
  }

  /** Number of separating commas among the first `n` characters. */
  function SeparatorsBefore(line: string, n: nat): nat
    requires n <= |line|
  {
    if n == 0 then 0
    else SeparatorsBefore(line, n - 1) + (if IsSeparatorAt(line, n - 1) then 1 else 0)
  }

  /** The quote toggle is on exactly after an odd number of quotes. */
  lemma {:induction false} ScanQuoteParity(line: string, n: nat)
    requires n <= |line|
    ensures Scan(line[..n]).inQuotes <==> Count(IsQuote, line[..n]) % 2 == 1
  {
    if n > 0 {
      var p, c := line[..n - 1], line[n - 1];
      var q, k := Scan(p).inQuotes, Count(IsQuote, p);
      assert q <==> k % 2 == 1 by {
        ScanQuoteParity(line, n - 1);
      }
      assert Scan(line[..n]).inQuotes == (if c == '"' then !q else q) by {
        assert line[..n] == p + [c];
        ScanSnoc(p, c);
      }
      assert Count(IsQuote, line[..n]) == k + (if c == '"' then 1 else 0) by {
        assert line[..n][..n - 1] == p;
      }
      if c == '"' {
        assert (k + 1) % 2 == 1 <==> k % 2 != 1;
      }
    } else {
      assert line[..n] == [];
    }
  }

  /** Each comma seen with the toggle off adds one cell. */
  lemma {:induction false} ScanCellCount(line: string, n: nat)
    requires n <= |line|
    ensures |Scan(line[..n]).raw| == SeparatorsBefore(line, n) + 1
  {
    if n > 0 {
      ScanCellCount(line, n - 1);
      var p, c := line[..n - 1], line[n - 1];
      assert Scan(line[..n]) == Step(Scan(p), c) by {
        assert line[..n] == p + [c];
        ScanSnoc(p, c);
      }
      assert IsSeparatorAt(line, n - 1) <==> c == ',' && !Scan(p).inQuotes by {
        ScanQuoteParity(line, n - 1);
      }
    } else {
      assert line[..n] == [];
    }
  }

  /** A line yields one cell more than it has commas outside quotes, however
      its quotes are balanced. */
  lemma CellCount(line: string)
    ensures |LineCells(line)| == SeparatorsBefore(line, |line|) + 1
  {
    ScanCellCount(line, |line|);
    assert line[..|line|] == line;
  }

  /** The raw cells joined with commas give back the line with its quote
      characters removed: the separating commas are the only characters lost
      besides the quotes, and a comma inside quotes stays in its cell. */
  lemma {:induction false} RawCellsJoin(line: string)
    ensures Join(Scan(line).raw, ",") == Filter(IsNotQuote, line)
    decreases |line|
  {
    if line != [] {
      var init := line[..|line| - 1];
      var c := line[|line| - 1];
      assert line == init + [c];
      RawCellsJoin(init);
      ScanSnoc(init, c);
      FilterSnoc(IsNotQuote, init, c);
      var st := Scan(init);
      if c == '"' {
        assert Scan(line).raw == st.raw;
      } else if c == ',' && !st.inQuotes {
        assert Scan(line).raw == st.raw + [""];
        JoinAppend(st.raw, ",", "");
      } else {
        assert Scan(line).raw == st.raw[..|st.raw| - 1] + [st.raw[|st.raw| - 1] + [c]];
        JoinExtendLast(st.raw, ",", c);
      }
    }
  }

  /** No raw cell holds a quote character. */
  lemma {:induction false} RawCellsQuoteFree(line: string)
    ensures forall k :: 0 <= k < |Scan(line).raw| ==> '"' !in Scan(line).raw[k]
    decreases |line|
  {
    if line != [] {
      RawCellsQuoteFree(line[..|line| - 1]);
    }
  }

  /** Every cell of a line is free of quote characters and is its own trim. */
  lemma LineCellsClean(line: string)
    ensures forall k :: 0 <= k < |LineCells(line)| ==>
      '"' !in LineCells(line)[k] && Trim(LineCells(line)[k]) == LineCells(line)[k]
  {
    RawCellsQuoteFree(line);
    var raw := Scan(line).raw;
    forall k | 0 <= k < |raw|
      ensures '"' !in Trim(raw[k]) && Trim(Trim(raw[k])) == Trim(raw[k])
    {
      TrimKeepsOnlyCharsOf(raw[k], '"');
      TrimIdempotent(raw[k]);
    }
  }

  /** Scanning text without quotes (and, outside quotes, without commas)
      only extends the cell in progress. */
  lemma {:induction false} ScanPlainText(prefix: string, t: string, done: seq<string>, cell: string, q: bool)
    requires Scan(prefix) == ScanState(done + [cell], q)
    requires '"' !in t
    requires !q ==> ',' !in t
    ensures Scan(prefix + t) == ScanState(done + [cell + t], q)
    decreases |t|
  {
    if t == [] {
      assert prefix + t == prefix && cell + t == cell;
    } else {
      var init := t[..|t| - 1];
      var c := t[|t| - 1];
      assert t == init + [c];
      ScanPlainText(prefix, init, done, cell, q);
      assert Scan(prefix + t) == Step(ScanState(done + [cell + init], q), c) by {
        assert prefix + t == (prefix + init) + [c];
        ScanSnoc(prefix + init, c);
      }
      assert (done + [cell + init])[..|done|] == done;
      assert (cell + init) + [c] == cell + t;
    }
  }

  /** A quoted cell is scanned as its text, with the toggle off again after
      the closing quote. */
  lemma QuotedCellScan(a: string)
    requires '"' !in a
    ensures Scan(['"'] + a + ['"']) == ScanState([a], false)
  {
    assert Scan(['"']) == ScanState([""], true) by {
      ScanSnoc([], '"');
      assert [] + ['"'] == ['"'];
    }
    ScanPlainText(['"'], a, [], "", true);
    assert "" + a == a;
    ScanSnoc(['"'] + a, '"');
  }

  /** The scan of `"a",b`: the raw cells `a` and `b`, quotes removed. */
  lemma QuotedCommaScan(a: string, b: string)
    requires '"' !in a && '"' !in b && ',' !in b
    ensures Scan(['"'] + a + ['"', ','] + b).raw == [a, b]
  {
    var closed := ['"'] + a + ['"'];
    var p := closed + [','];
    assert Scan(p) == ScanState([a, ""], false) by {
      QuotedCellScan(a);
      ScanSnoc(closed, ',');
    }
    assert ['"'] + a + ['"', ','] + b == p + b;
    ScanPlainText(p, b, [a], "", false);
    assert "" + b == b;
  }

  /** A quoted first cell keeps its commas: `"a",b` is the two cells `a` and
      `b` (trimmed) whenever `b` has no comma and neither has a quote. */
  lemma QuotedCommaStaysInCell(a: string, b: string)
    requires '"' !in a && '"' !in b && ',' !in b
    ensures LineCells(['"'] + a + ['"', ','] + b) == [Trim(a), Trim(b)]
  {
    QuotedCommaScan(a, b);
  }

  /** The usual example: the line `"Smith, John",555` gives the two cells
      `Smith, John` and `555`. */
  lemma QuotedCommaExample(name: string, phone: string)
    requires name == "Smith, John" && phone == "555"
    ensures LineCells(['"'] + name + ['"', ','] + phone) == ["Smith, John", "555"]
  {
    QuotedCommaStaysInCell(name, phone);
    assert Trim(name) == name by {
      TrimUnchanged(name);
    }
    assert Trim(phone) == phone by {
      TrimUnchanged(phone);
    }
  }

  // ---------------------------------------------------------------------
  // Whole documents

  /** `csv.split('\n')`. */
  function Lines(csv: string): seq<string> {
    Split(csv, IsNewline)
  }

  /** `row.some(cell => cell.length > 0)`. */
  predicate HasContent(row: seq<string>) {
    exists k | 0 <= k < |row| :: |row[k]| > 0
  }

  function AllLineCells(lines: seq<string>): (rows: seq<seq<string>>)
    ensures |rows| == |lines|
    ensures forall k :: 0 <= k < |lines| ==> rows[k] == LineCells(lines[k])
  {
    seq(|lines|, k requires 0 <= k < |lines| => LineCells(lines[k]))
  }

  /** What `parseCSV(csv)` returns. */
  function CsvRows(csv: string): seq<seq<string>> {
    Filter(HasContent, AllLineCells(Lines(csv)))
  }

  /** `parseCSV` as the source runs it: every line is scanned, and a row is
      kept when one of its cells is non-empty. */
  method ParseCsv(csv: string) returns (rows: seq<seq<string>>)
    ensures rows == CsvRows(csv)
  {
    var lines := Lines(csv);
    rows := [];
    for i := 0 to |lines|
      invariant rows == Filter(HasContent, AllLineCells(lines[..i]))
    {
      var cells := ParseLine(lines[i]);
      AllLineCellsSnoc(lines, i);
      FilterSnoc(HasContent, AllLineCells(lines[..i]), cells);
      if HasContent(cells) {
        rows := rows + [cells];
      }
    }
    assert lines[..|lines|] == lines;
  }

  lemma AllLineCellsSnoc(lines: seq<string>, i: nat)
    requires i < |lines|
    ensures AllLineCells(lines[..i + 1]) == AllLineCells(lines[..i]) + [LineCells(lines[i])]
  {
  }

  /** The rows of a document keep the order of its lines, skip only blank
      lines and number at most the lines of the text. */
  lemma CsvRowsOrder(csv: string)
    ensures |CsvRows(csv)| <= |Lines(csv)| == Count(IsNewline, csv) + 1
    ensures IsSubsequence(CsvRows(csv), AllLineCells(Lines(csv)))
  {
    FilterIsSubsequence(HasContent, AllLineCells(Lines(csv)));
  }

  /** Every row of a document has a non-empty cell, and its cells are
      trimmed and free of quote characters. */
  lemma CsvRowsClean(csv: string, row: seq<string>)
    requires row in CsvRows(csv)
    ensures HasContent(row)
    ensures forall k :: 0 <= k < |row| ==> '"' !in row[k] && Trim(row[k]) == row[k]
  {
    var lines := Lines(csv);
    var all := AllLineCells(lines);
    FilterMembers(HasContent, all, row);
    var i :| 0 <= i < |all| && all[i] == row;
    LineCellsClean(lines[i]);
  }

  /** The lines of a document, joined again with '\n', are the document. */
  lemma LinesJoin(csv: string)
    ensures Join(Lines(csv), "\n") == csv
  {
    SplitJoin(csv, '\n', IsNewline);
  }
}
