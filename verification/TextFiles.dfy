/** Files that Python reads and writes in text mode, line by line, and the rows
    of tab-separated fields in them. */
module TextFiles {
  import opened Text
  import opened TabLines

  /** What was written, one piece after the other. */
  function Concat(lines: seq<string>): string
  {
    if lines == [] then "" else Concat(lines[..|lines| - 1]) + lines[|lines| - 1]
  }

  /** Reading in text mode: each of `\r\n` and `\r` becomes `\n`. */
  function Universal(s: string): (r: string)
    ensures '\r' !in r
  {
    if s == "" then ""
    else if s[0] == '\r' then ['\n'] + Universal(if |s| > 1 && s[1] == '\n' then s[2..] else s[1..])
    else [s[0]] + Universal(s[1..])
  }

  /** `readlines()`: every line with its line end. */
  function LinesOf(s: string): (lines: seq<string>)
    decreases |s|
  {
    var n := IndexOf('\n', s);
    if s == "" then [] else if n == |s| then [s] else [s[..n + 1]] + LinesOf(s[n + 1..])
  }

  function FieldsOf(lines: seq<string>): (rows: seq<seq<string>>)
    ensures |rows| == |lines| && forall i | 0 <= i < |lines| :: rows[i] == Fields(lines[i])
  {
    seq(|lines|, i requires 0 <= i < |lines| => Fields(lines[i]))
  }

  /** A character-mode data file with these rows. */
  function FileText(rows: seq<seq<string>>): string
  {
    Concat(RowLines(rows))
  }

  /** The rows that a reader finds which takes every newline for the end of a row
      and every tab for the end of a field. */
  function RowsOf(text: string): seq<seq<string>>
  {
    FieldsOf(LinesOf(text))
  }

  // ------------------------------------------------------------------- lines

  /** Ends in its only newline. */
  predicate IsLine(line: string)
  {
    line != "" && line[|line| - 1] == '\n' && '\n' !in line[..|line| - 1]
  }

  /** Empty, or ends in a newline. */
  predicate Ended(s: string)
  {
    s == "" || s[|s| - 1] == '\n'
  }

  lemma LinesOfOne(line: string)
    requires IsLine(line)
    ensures LinesOf(line) == [line]
  {
    IndexOfUnique('\n', line, |line| - 1);
    assert line[..|line|] == line && line[|line|..] == "";
    assert LinesOf("") == [];
  }

  lemma {:induction false} LinesOfSnoc(s: string, line: string)
    requires Ended(s) && IsLine(line)
    ensures LinesOf(s + line) == LinesOf(s) + [line]
    decreases |s|
  {
    if s == "" {
      assert s + line == line;
      LinesOfOne(line);
    } else {
      var n := IndexOf('\n', s);
      assert s[|s| - 1] == '\n';
      assert (s + line)[..n] == s[..n];
      IndexOfUnique('\n', s + line, n);
      assert (s + line)[..n + 1] == s[..n + 1] && (s + line)[n + 1..] == s[n + 1..] + line;
      LinesOfSnoc(s[n + 1..], line);
    }
  }

  lemma {:induction false} LinesOfConcat(lines: seq<string>)
    requires forall line | line in lines :: IsLine(line)
    ensures Ended(Concat(lines)) && LinesOf(Concat(lines)) == lines
  {
    hide IsLine;
    if lines != [] {
      var front, last := lines[..|lines| - 1], lines[|lines| - 1];
      assert last in lines && lines == front + [last];
      LinesOfConcat(front);
      LinesOfSnoc(Concat(front), last);
      LineEnds(Concat(front), last);
    }
  }

  lemma LineEnds(s: string, line: string)
    requires IsLine(line)
    ensures Ended(s + line)
  {
  }

  lemma {:induction false} ConcatCons(first: string, lines: seq<string>)
    ensures Concat([first] + lines) == first + Concat(lines)
  {
    var all := [first] + lines;
    if lines == [] {
      assert all[..0] == [];
    } else {
      var front := lines[..|lines| - 1];
      assert all[..|all| - 1] == [first] + front && all[|all| - 1] == lines[|lines| - 1];
      ConcatCons(first, front);
    }
  }

  /** The lines of an ended text, put together again. */
  lemma {:induction false} LinesOfEnded(s: string)
    requires Ended(s)
    ensures Concat(LinesOf(s)) == s
    ensures forall line | line in LinesOf(s) :: IsLine(line)
    decreases |s|
  {
    hide LinesOf, Concat, IsLine, Ended;
    if s == "" {
      NoLines();
    } else {
      var n := FirstLine(s);
      LinesOfEnded(s[n + 1..]);
      ConcatCons(s[..n + 1], LinesOf(s[n + 1..]));
      assert s == s[..n + 1] + s[n + 1..];
    }
  }

  lemma NoLines()
    ensures LinesOf("") == [] && Concat([]) == ""
  {
  }

  lemma FirstLine(s: string) returns (n: nat)
    requires Ended(s) && s != ""
    ensures n < |s| && IsLine(s[..n + 1]) && Ended(s[n + 1..]) && LinesOf(s) == [s[..n + 1]] + LinesOf(s[n + 1..])
  {
    n := IndexOf('\n', s);
    assert s[|s| - 1] == '\n';
    assert s[..n + 1][..n] == s[..n];
  }

  lemma {:induction false} UniversalKeeps(s: string)
    ensures '\r' !in s ==> Universal(s) == s
    ensures Ended(s) ==> Ended(Universal(s))
    decreases |s|
  {
    if s != "" {
      var rest := if s[0] == '\r' && |s| > 1 && s[1] == '\n' then s[2..] else s[1..];
      UniversalKeeps(rest);
      if '\r' !in s { assert s == [s[0]] + s[1..]; }
      if rest == "" { assert Universal(rest) == ""; }
      UniversalStarts(rest);
    }
  }

  lemma UniversalStarts(s: string)
    ensures s != "" ==> Universal(s) != ""
  {
  }

  // -------------------------------------------------------------------- rows

  predicate Wide(rows: seq<seq<string>>)
  {
    forall row | row in rows :: row != []
  }

  /** A row's line, taken apart and put together again, without any assumption on
      the row it was printed from. */
  lemma RejoinedLine(line: string)
    requires IsLine(line)
    ensures RowLine(Fields(line)) == line
    ensures Fields(line) != [] && forall f | f in Fields(line) :: '\t' !in f && '\n' !in f
  {
    var body := line[..|line| - 1];
    assert line == body + ['\n'];
    StrippedLine(line);
    JoinOfSplit('\t', body);
    PartsAreFree('\t', body);
    forall f | f in Fields(line) ensures '\n' !in f {
      if '\n' in f { InJoin('\t', Fields(line), '\n'); }
    }
  }

  lemma StrippedLine(line: string)
    requires IsLine(line)
    ensures RstripNewlines(line) == line[..|line| - 1]
  {
    var body := line[..|line| - 1];
    if body != "" { assert body[|body| - 1] in body; }
    assert RstripNewlines(body) == body;
  }

  lemma {:induction false} RejoinedLines(lines: seq<string>)
    requires forall line | line in lines :: IsLine(line)
    ensures RowLines(FieldsOf(lines)) == lines
    ensures Wide(FieldsOf(lines))
    ensures forall row, f | row in FieldsOf(lines) && f in row :: '\t' !in f && '\n' !in f
  {
    hide IsLine, Fields, RowLine;
    if lines != [] {
      var front, last := lines[..|lines| - 1], lines[|lines| - 1];
      assert last in lines && lines == front + [last];
      RejoinedLines(front);
      RejoinedLine(last);
      assert FieldsOf(lines) == FieldsOf(front) + [Fields(last)];
      RowLinesSnoc(FieldsOf(front), Fields(last));
    }
  }

  /** An ended text is the file of the rows read from it. */
  lemma FileOfRowsRead(text: string)
    requires Ended(text)
    ensures FileText(RowsOf(text)) == text && Wide(RowsOf(text))
    ensures forall row, f | row in RowsOf(text) && f in row :: '\t' !in f && '\n' !in f
  {
    LinesOfEnded(text);
    RejoinedLines(LinesOf(text));
  }

  lemma {:induction false} FileEnds(rows: seq<seq<string>>)
    ensures Ended(FileText(rows))
  {
    if rows != [] {
      var last := RowLine(rows[|rows| - 1]);
      assert last[|last| - 1] == '\n';
    }
  }

  lemma FileSnoc(rows: seq<seq<string>>, last: seq<string>)
    ensures FileText(rows + [last]) == FileText(rows) + RowLine(last)
  {
    RowLinesSnoc(rows, last);
    assert (RowLines(rows) + [RowLine(last)])[..|rows|] == RowLines(rows);
  }

  // ---------------------------------------------- counting separators and text

  predicate Separates(c: char)
  {
    c == '\t' || c == '\n'
  }

  function Separators(s: string): nat
  {
    if s == "" then 0 else Separators(s[..|s| - 1]) + (if Separates(s[|s| - 1]) then 1 else 0)
  }

  lemma {:induction false} SeparatorsAdd(a: string, b: string)
    ensures Separators(a + b) == Separators(a) + Separators(b)
  {
    if b == "" {
      assert a + b == a;
    } else {
      assert (a + b)[..|a + b| - 1] == a + b[..|b| - 1];
      SeparatorsAdd(a, b[..|b| - 1]);
    }
  }

  lemma {:induction false} NoSeparators(s: string)
    ensures Separators(s) == 0 <==> '\t' !in s && '\n' !in s
  {
    if s != "" {
      NoSeparators(s[..|s| - 1]);
      assert s == s[..|s| - 1] + [s[|s| - 1]];
    }
  }

  /** How much text the first `n` fields of a row hold. */
  function FieldText(row: seq<string>, n: nat): nat
  {
    if n == 0 then 0 else FieldText(row, n - 1) + FieldSize(row, n - 1)
  }

  function FieldSize(row: seq<string>, j: nat): nat
  {
    if j < |row| then |row[j]| else 0
  }

  /** The separators inside the fields of a row. */
  function RowDirt(row: seq<string>): nat
  {
    if row == [] then 0 else RowDirt(row[..|row| - 1]) + Separators(row[|row| - 1])
  }

  // The same over all rows.
  function Width(rows: seq<seq<string>>, j: nat): nat
  {
    if rows == [] then 0 else Width(rows[..|rows| - 1], j) + FieldSize(rows[|rows| - 1], j)
  }

  function Total(rows: seq<seq<string>>, n: nat): nat
  {
    if rows == [] then 0 else Total(rows[..|rows| - 1], n) + FieldText(rows[|rows| - 1], n)
  }

  function AllText(rows: seq<seq<string>>): nat
  {
    if rows == [] then 0 else AllText(rows[..|rows| - 1]) + FieldText(rows[|rows| - 1], |rows[|rows| - 1]|)
  }

  function Cells(rows: seq<seq<string>>): nat
  {
    if rows == [] then 0 else Cells(rows[..|rows| - 1]) + |rows[|rows| - 1]|
  }

  function Dirt(rows: seq<seq<string>>): nat
  {
    if rows == [] then 0 else Dirt(rows[..|rows| - 1]) + RowDirt(rows[|rows| - 1])
  }

  lemma {:induction false} FieldTextOfPrefix(row: seq<string>, n: nat, m: nat)
    requires m <= n <= |row|
    ensures FieldText(row[..n], m) == FieldText(row, m)
  {
    if m > 0 { FieldTextOfPrefix(row, n, m - 1); }
  }

  /** A printed row is its text, a separator after each field, and nothing else. */
  lemma {:induction false} RowLineCounts(row: seq<string>)
    requires row != []
    ensures |RowLine(row)| == FieldText(row, |row|) + |row|
    ensures Separators(RowLine(row)) == |row| + RowDirt(row)
  {
    var n := |row| - 1;
    var front, last := row[..n], row[n];
    assert row == front + [last];
    FieldTextOfPrefix(row, n, n);
    if n == 0 {
      assert front == [];
      assert FieldText(row, 0) == 0 && FieldText(row, 1) == |last| && RowDirt(front) == 0;
      SeparatorsAdd(last, "\n");
      OneSeparator('\n');
    } else {
      RowLineCounts(front);
      JoinAppend('\t', front, last);
      var text := Join('\t', front);
      SeparatorsAdd(text, "\n");
      SeparatorsAdd(text + ['\t'] + last, "\n");
      SeparatorsAdd(text + ['\t'], last);
      SeparatorsAdd(text, ['\t']);
      OneSeparator('\n');
      OneSeparator('\t');
    }
  }

  lemma OneSeparator(c: char)
    requires Separates(c)
    ensures Separators([c]) == 1
  {
    assert [c][..0] == "";
  }

  lemma {:induction false} FileCounts(rows: seq<seq<string>>)
    requires Wide(rows)
    ensures |FileText(rows)| == AllText(rows) + Cells(rows)
    ensures Separators(FileText(rows)) == Cells(rows) + Dirt(rows)
  {
    hide RowLine;
    if rows != [] {
      var front, last := rows[..|rows| - 1], rows[|rows| - 1];
      assert last in rows && rows == front + [last];
      assert forall row | row in front :: row in rows;
      FileCounts(front);
      FileSnoc(front, last);
      RowLineCounts(last);
      SeparatorsAdd(FileText(front), RowLine(last));
    }
  }

  lemma {:induction false} TotalSplits(rows: seq<seq<string>>, n: nat)
    ensures Total(rows, n + 1) == Total(rows, n) + Width(rows, n)
  {
    if rows != [] { TotalSplits(rows[..|rows| - 1], n); }
  }

  lemma {:induction false} NoTotal(rows: seq<seq<string>>)
    ensures Total(rows, 0) == 0
  {
    if rows != [] { NoTotal(rows[..|rows| - 1]); }
  }

  lemma {:induction false} SameWidthsSameTotal(a: seq<seq<string>>, b: seq<seq<string>>, n: nat)
    requires forall j | 0 <= j < n :: Width(a, j) == Width(b, j)
    ensures Total(a, n) == Total(b, n)
  {
    if n == 0 {
      NoTotal(a);
      NoTotal(b);
    } else {
      SameWidthsSameTotal(a, b, n - 1);
      TotalSplits(a, n - 1);
      TotalSplits(b, n - 1);
    }
  }

  lemma {:induction false} FieldTextGrows(row: seq<string>, n: nat, m: nat)
    requires n <= m
    ensures FieldText(row, n) <= FieldText(row, m)
    ensures |row| <= n ==> FieldText(row, n) == FieldText(row, m)
  {
    if n < m { FieldTextGrows(row, n, m - 1); }
  }

  lemma {:induction false} TotalIsBounded(rows: seq<seq<string>>, n: nat)
    ensures Total(rows, n) <= AllText(rows)
    ensures (forall row | row in rows :: |row| <= n) ==> Total(rows, n) == AllText(rows)
  {
    if rows != [] {
      var front, last := rows[..|rows| - 1], rows[|rows| - 1];
      assert last in rows && forall row | row in front :: row in rows;
      TotalIsBounded(front, n);
      if n <= |last| { FieldTextGrows(last, n, |last|); } else { FieldTextGrows(last, |last|, n); }
    }
  }

  /** The file of some rows, read back as others: the text that the readers' first
      `n` columns hold cannot exceed the text of the rows, less the separators in
      their fields. */
  lemma ReadersHoldLess(rows: seq<seq<string>>, n: nat)
    requires Wide(rows) && forall row | row in rows :: |row| == n
    ensures Total(RowsOf(FileText(rows)), n) + Dirt(rows) <= Total(rows, n)
  {
    var read := RowsOf(FileText(rows));
    FileEnds(rows);
    FileOfRowsRead(FileText(rows));
    CleanHasNoDirt(read);
    FileCounts(rows);
    FileCounts(read);
    TotalIsBounded(rows, n);
    TotalIsBounded(read, n);
  }

  lemma {:induction false} RowHasNoDirt(row: seq<string>)
    ensures RowDirt(row) == 0 <==> forall f | f in row :: '\t' !in f && '\n' !in f
  {
    if row != [] {
      var front, last := row[..|row| - 1], row[|row| - 1];
      assert row == front + [last];
      RowHasNoDirt(front);
      NoSeparators(last);
    }
  }

  lemma {:induction false} CleanHasNoDirt(rows: seq<seq<string>>)
    ensures Dirt(rows) == 0 <==> forall row, f | row in rows && f in row :: '\t' !in f && '\n' !in f
  {
    if rows != [] {
      var front, last := rows[..|rows| - 1], rows[|rows| - 1];
      assert rows == front + [last];
      CleanHasNoDirt(front);
      RowHasNoDirt(last);
    }
  }

  // -------------------------------------------------------------- reading back

  lemma RowLineIsLine(row: seq<string>)
    requires forall f | f in row :: '\n' !in f
    ensures IsLine(RowLine(row))
  {
    InJoin('\t', row, '\n');
    var text := Join('\t', row);
    assert RowLine(row)[..|text|] == text;
  }

  lemma {:induction false} CleanRowsReadBack(rows: seq<seq<string>>)
    requires Wide(rows) && forall row, f | row in rows && f in row :: '\t' !in f && '\n' !in f
    ensures LinesOf(FileText(rows)) == RowLines(rows) && RowsOf(FileText(rows)) == rows
  {
    forall i | 0 <= i < |rows| ensures IsLine(RowLines(rows)[i]) && Fields(RowLines(rows)[i]) == rows[i] {
      assert rows[i] in rows;
      RowLineAt(rows, i);
      RowLineIsLine(rows[i]);
      FieldsOfRowLine(rows[i]);
    }
    hide IsLine, Fields, RowLine;
    LinesOfConcat(RowLines(rows));
  }

  /** A file is read back as the rows it was printed from if and only if no field
      holds a tab or a newline. */
  lemma RowsReadBackIff(rows: seq<seq<string>>)
    requires Wide(rows)
    ensures RowsOf(FileText(rows)) == rows <==>
            forall row, f | row in rows && f in row :: '\t' !in f && '\n' !in f
  {
    if forall row, f | row in rows && f in row :: '\t' !in f && '\n' !in f {
      CleanRowsReadBack(rows);
    } else if RowsOf(FileText(rows)) == rows {
      FileEnds(rows);
      FileOfRowsRead(FileText(rows));
    }
  }
}
