/** Which rows of a table the masking of its data file gets right. */
module MssqlRows {
  import opened Text
  import opened Masking
  import opened TabLines
  import opened TextFiles
  import opened MssqlDdl
  import opened MssqlFiles

  /** A value that character mode writes as one field of one line, and that reading
      in text mode leaves as it is. */
  predicate CleanField(f: string)
  {
    '\t' !in f && '\n' !in f && '\r' !in f
  }

  predicate Clean(rows: seq<seq<string>>)
  {
    forall row, f | row in rows && f in row :: CleanField(f)
  }

  /** Rows of a table with `n` columns. */
  predicate Rectangular(rows: seq<seq<string>>, n: nat)
  {
    forall row | row in rows :: |row| == n
  }

  predicate IsTable(schema: Schema)
  {
    && schema.columns != []
    && forall i, j | 0 <= i < j < |schema.columns| :: schema.columns[i].name != schema.columns[j].name
  }

  /** Under every profile with known providers, the data file of these rows is masked
      as the rows are by the columns that the profile names. */
  ghost predicate MasksRealColumns(table: string, schema: Schema, rows: seq<seq<string>>)
  {
    forall p: Profile, k: nat | ProvidersKnown(p.RulesFor(table), Names(schema), |schema.columns|) ::
      var q := WithSchema(p, table, schema);
      MaskedText(q, table, Names(schema), FileText(rows), k) == FileText(MaskRows(q, table, Names(schema), rows, k))
  }

  // ------------------------------------------------------------------ clean rows

  lemma {:induction false} InFile(rows: seq<seq<string>>, c: char)
    requires c != '\t' && c != '\n'
    ensures c in FileText(rows) <==> exists row, f :: row in rows && f in row && c in f
  {
    hide RowLine;
    if rows == [] {
      assert FileText(rows) == "";
    } else {
      var front, last := rows[..|rows| - 1], rows[|rows| - 1];
      assert rows == front + [last] && last in rows;
      InFile(front, c);
      FileSnoc(front, last);
      InRow(last, c);
    }
  }

  lemma InRow(row: seq<string>, c: char)
    requires c != '\t' && c != '\n'
    ensures c in RowLine(row) <==> exists f :: f in row && c in f
  {
    InJoin('\t', row, c);
    assert forall i | 0 <= i < |row| :: row[i] in row;
  }

  /** The masking step sees the rows of a clean file as they are. */
  lemma CleanRowsAreSeen(rows: seq<seq<string>>)
    requires Wide(rows) && Clean(rows)
    ensures RowsSeen(FileText(rows)) == rows
  {
    hide FileText, Universal;
    InFile(rows, '\r');
    UniversalKeeps(FileText(rows));
    CleanRowsReadBack(rows);
  }

  lemma NoRuleNoMask(p: Profile, table: string, columns: seq<string>, rows: seq<seq<string>>, k: nat)
    requires p.RulesFor(table) == map[]
    ensures MaskRows(p, table, columns, rows, k) == rows && RowDraws(p, table, columns, rows) == 0
  {
    UnruledRowsStay(p, table, columns, rows, k);
    NoRuleNoDraws(p, table, columns, rows);
  }

  lemma {:induction false} NoRuleNoDraws(p: Profile, table: string, columns: seq<string>, rows: seq<seq<string>>)
    requires p.RulesFor(table) == map[]
    ensures RowDraws(p, table, columns, rows) == 0
  {
    if rows != [] {
      NoRuleNoDraws(p, table, columns, rows[..|rows| - 1]);
      NoRulesNoDraws(columns, |rows[|rows| - 1]|, |columns|);
    }
  }

  /** A clean file is masked by the real columns, and draws what they call for. */
  lemma CleanFileIsMasked(p: Profile, table: string, columns: seq<string>, rows: seq<seq<string>>, k: nat)
    requires Wide(rows) && Clean(rows)
    ensures MaskedText(p, table, columns, FileText(rows), k) == FileText(MaskRows(p, table, columns, rows, k))
    ensures TextDraws(p, table, columns, FileText(rows)) == RowDraws(p, table, columns, rows)
  {
    hide FileText, MaskRows, RowDraws;
    CleanRowsAreSeen(rows);
    if p.RulesFor(table) == map[] { NoRuleNoMask(p, table, columns, rows, k); }
  }

  // ---------------------------------------------------------- carriage returns

  /** Rules one column of one table; every mask is empty. */
  function Blanking(table: string, column: string): Profile
  {
    Profile(map[table := map[column := "name"]], map[], false, (_, _) => "")
  }

  lemma BlankingIsKnown(table: string, column: string, schema: Schema)
    ensures var p := Blanking(table, column);
            && ProvidersKnown(p.RulesFor(table), Names(schema), |schema.columns|)
            && p.RulesFor(table) == map[column := "name"] && p.RulesFor(table) != map[]
            && WithSchema(p, table, schema).RulesFor(table) == p.RulesFor(table)
  {
    assert column in Blanking(table, column).RulesFor(table);
  }

  /** A name that is none of these. */
  function Other(names: seq<string>): (name: string)
    ensures forall n | n in names :: |n| < |name|
  {
    if names == [] then "x" else Other(names[..|names| - 1]) + names[|names| - 1]
  }

  /** Under a profile whose rule names none of the columns, the masking step still
      rewrites the file, and turns carriage returns into newlines. */
  lemma CarriageReturnIsLost(table: string, schema: Schema, rows: seq<seq<string>>)
    requires '\r' in FileText(rows)
    ensures !MasksRealColumns(table, schema, rows)
  {
    hide FileText, Universal, RowsOf, ProvidersKnown, MaskRows;
    var columns, text := Names(schema), FileText(rows);
    var name := Other(columns);
    var p := Blanking(table, name);
    var q := WithSchema(p, table, schema);
    BlankingIsKnown(table, name, schema);
    assert forall i: nat | i < |columns| :: columns[i] in columns && columns[i] != name;
    UnruledRowsStay(q, table, columns, rows, 0);
    UnruledRowsStay(q, table, columns, RowsSeen(text), 0);
    FileEnds(rows);
    UniversalKeeps(text);
    FileOfRowsRead(Universal(text));
    assert '\r' !in Universal(text);
    assert MaskedText(q, table, columns, text, 0) == Universal(text);
    assert MaskedText(q, table, columns, text, 0) != FileText(MaskRows(q, table, columns, rows, 0));
  }

  // ---------------------------------------------------------- tabs and newlines

  /** The rows with one column emptied. */
  function Blanked(rows: seq<seq<string>>, j: nat): (blanked: seq<seq<string>>)
  {
    if rows == [] then []
    else
      var last := rows[|rows| - 1];
      Blanked(rows[..|rows| - 1], j) + [if j < |last| then last[j := ""] else last]
  }

  lemma {:induction false} MaskRowsBlanks(table: string, schema: Schema, rows: seq<seq<string>>, j: nat, k: nat)
    requires IsTable(schema) && j < |schema.columns|
    ensures var q := WithSchema(Blanking(table, Names(schema)[j]), table, schema);
            MaskRows(q, table, Names(schema), rows, k) == Blanked(rows, j)
  {
    hide MaskedRow, RowDraws, IsTable;
    if rows != [] {
      var front, last := rows[..|rows| - 1], rows[|rows| - 1];
      var q := WithSchema(Blanking(table, Names(schema)[j]), table, schema);
      MaskRowsBlanks(table, schema, front, j, k);
      MaskedRowBlanks(table, schema, last, j, k + RowDraws(q, table, Names(schema), front));
    }
  }

  lemma MaskedRowBlanks(table: string, schema: Schema, row: seq<string>, j: nat, k: nat)
    requires IsTable(schema) && j < |schema.columns|
    ensures var q := WithSchema(Blanking(table, Names(schema)[j]), table, schema);
            MaskedRow(q, AS_IS, table, Names(schema), row, k) == if j < |row| then row[j := ""] else row
  {
    var columns := Names(schema);
    var q := WithSchema(Blanking(table, columns[j]), table, schema);
    BlankingIsKnown(table, columns[j], schema);
    var masked := MaskedRow(q, AS_IS, table, columns, row, k);
    var blanked := if j < |row| then row[j := ""] else row;
    hide LengthsOf, DrawsBefore;
    forall i | 0 <= i < |row| ensures masked[i] == blanked[i] {
      assert masked[i] == MaskedValue(q, AS_IS, table, columns, row, k, i);
      assert Ruled(q.RulesFor(table), columns, |row|, i) <==> i == j;
    }
  }

  lemma {:induction false} BlankingShortens(rows: seq<seq<string>>, j: nat)
    requires Wide(rows)
    ensures |FileText(Blanked(rows, j))| + Width(rows, j) == |FileText(rows)|
  {
    hide RowLine, FileText;
    if rows == [] {
      NoFile();
    } else {
      var front, last := rows[..|rows| - 1], rows[|rows| - 1];
      var blank := if j < |last| then last[j := ""] else last;
      assert rows == front + [last] && last in rows && forall row | row in front :: row in rows;
      BlankingShortens(front, j);
      FileSnoc(front, last);
      FileSnoc(Blanked(front, j), blank);
      BlankRowShortens(last, j);
    }
  }

  lemma NoFile()
    ensures FileText([]) == ""
  {
  }

  lemma BlankRowShortens(row: seq<string>, j: nat)
    ensures |RowLine(if j < |row| then row[j := ""] else row)| + FieldSize(row, j) == |RowLine(row)|
  {
    if j < |row| { JoinLengthAfterUpdate('\t', row, j, ""); }
  }

  /** Some column is read with another amount of text than it holds. */
  lemma SomeWidthDiffers(rows: seq<seq<string>>, n: nat) returns (j: nat)
    requires Wide(rows) && Rectangular(rows, n) && Dirt(rows) > 0
    ensures j < n && Width(RowsOf(FileText(rows)), j) != Width(rows, j)
  {
    hide FileText, RowsOf, Width, Dirt;
    ReadersHoldLess(rows, n);
    if j' :| 0 <= j' < n && Width(RowsOf(FileText(rows)), j') != Width(rows, j') {
      j := j';
    } else {
      SameWidthsSameTotal(RowsOf(FileText(rows)), rows, n);
    }
  }

  lemma SeparatorMisreads(table: string, schema: Schema, rows: seq<seq<string>>)
    requires IsTable(schema) && Rectangular(rows, |schema.columns|)
    requires Dirt(rows) > 0 && '\r' !in FileText(rows)
    ensures !MasksRealColumns(table, schema, rows)
  {
    hide FileText, RowsOf, Universal, Width, Dirt, MaskRows, Blanked, ProvidersKnown, IsTable;
    ColumnsExist(schema);
    assert Wide(rows);
    var columns, text := Names(schema), FileText(rows);
    var j := SomeWidthDiffers(rows, |columns|);
    var p := Blanking(table, columns[j]);
    var q := WithSchema(p, table, schema);
    BlankingIsKnown(table, columns[j], schema);
    UniversalKeeps(text);
    FileEnds(rows);
    FileOfRowsRead(text);
    MaskRowsBlanks(table, schema, rows, j, 0);
    MaskRowsBlanks(table, schema, RowsOf(text), j, 0);
    BlankingShortens(rows, j);
    BlankingShortens(RowsOf(text), j);
    assert MaskedText(q, table, columns, text, 0) != FileText(MaskRows(q, table, columns, rows, 0));
  }

  lemma ColumnsExist(schema: Schema)
    requires IsTable(schema)
    ensures |schema.columns| > 0
  {
  }

  // --------------------------------------------------------- the exact condition

  /** Under every profile the data file of a table's rows is masked by the columns
      that the profile names, exactly when no field holds a tab, a newline or a
      carriage return. */
  lemma MasksRealColumnsIffClean(table: string, schema: Schema, rows: seq<seq<string>>)
    requires IsTable(schema) && Rectangular(rows, |schema.columns|)
    ensures MasksRealColumns(table, schema, rows) <==> Clean(rows)
  {
    hide FileText, MaskRows, Dirt, MaskedText, ProvidersKnown;
    assert Wide(rows);
    InFile(rows, '\r');
    CleanHasNoDirt(rows);
    if Clean(rows) {
      forall p: Profile, k: nat | ProvidersKnown(p.RulesFor(table), Names(schema), |schema.columns|)
        ensures var q := WithSchema(p, table, schema);
                MaskedText(q, table, Names(schema), FileText(rows), k) == FileText(MaskRows(q, table, Names(schema), rows, k))
      {
        CleanFileIsMasked(WithSchema(p, table, schema), table, Names(schema), rows, k);
      }
    } else if '\r' in FileText(rows) {
      CarriageReturnIsLost(table, schema, rows);
    } else {
      SeparatorMisreads(table, schema, rows);
    }
  }

  // ------------------------------------------------------------- noninterference

  /** Rows that differ only in columns that the profile names. */
  predicate SameOutsideColumns(p: Profile, table: string, columns: seq<string>, a: seq<seq<string>>, b: seq<seq<string>>)
  {
    && |a| == |b|
    && forall r | 0 <= r < |a| :: SameRow(p, table, columns, a[r], b[r])
  }

  predicate SameRow(p: Profile, table: string, columns: seq<string>, a: seq<string>, b: seq<string>)
  {
    && |a| == |b| == |columns|
    && forall i | 0 <= i < |a| :: columns[i] in p.RulesFor(table) || a[i] == b[i]
  }

  lemma {:induction false} MaskRowsNoninterference(p: Profile, table: string, columns: seq<string>,
                                                   a: seq<seq<string>>, b: seq<seq<string>>, k: nat)
    requires SameOutsideColumns(p, table, columns, a, b)
    ensures MaskRows(p, table, columns, a, k) == MaskRows(p, table, columns, b, k)
    ensures RowDraws(p, table, columns, a) == RowDraws(p, table, columns, b)
  {
    hide SameRow, MaskedRow, DrawsOfRow;
    if a != [] {
      var frontA, frontB := a[..|a| - 1], b[..|b| - 1];
      assert SameRow(p, table, columns, a[|a| - 1], b[|b| - 1]);
      MaskRowsNoninterference(p, table, columns, frontA, frontB, k);
      MaskedRowNoninterference(p, table, columns, a[|a| - 1], b[|b| - 1], k + RowDraws(p, table, columns, frontA));
    }
  }

  lemma MaskedRowNoninterference(p: Profile, table: string, columns: seq<string>, a: seq<string>, b: seq<string>, k: nat)
    requires SameRow(p, table, columns, a, b)
    ensures MaskedRow(p, AS_IS, table, columns, a, k) == MaskedRow(p, AS_IS, table, columns, b, k)
    ensures DrawsOfRow(p.RulesFor(table), columns, |a|) == DrawsOfRow(p.RulesFor(table), columns, |b|)
  {
    hide MaskedRow;
    RowNoninterference(p, AS_IS, table, columns, a, b, k);
  }

  /** Values of the columns that the profile names leave no trace in the masked file
      of clean rows. */
  lemma MaskedFileNoninterference(p: Profile, table: string, columns: seq<string>,
                                  a: seq<seq<string>>, b: seq<seq<string>>, k: nat)
    requires columns != [] && Clean(a) && Clean(b) && SameOutsideColumns(p, table, columns, a, b)
    ensures MaskedText(p, table, columns, FileText(a), k) == MaskedText(p, table, columns, FileText(b), k)
    ensures TextDraws(p, table, columns, FileText(a)) == TextDraws(p, table, columns, FileText(b))
  {
    hide MaskRows, RowDraws, FileText, MaskedText, TextDraws, Clean;
    WideRows(p, table, columns, a, b);
    MaskRowsNoninterference(p, table, columns, a, b, k);
    CleanFileIsMasked(p, table, columns, a, k);
    CleanFileIsMasked(p, table, columns, b, k);
  }

  lemma WideRows(p: Profile, table: string, columns: seq<string>, a: seq<seq<string>>, b: seq<seq<string>>)
    requires columns != [] && SameOutsideColumns(p, table, columns, a, b)
    ensures Wide(a) && Wide(b)
  {
  }

  // ------------------------------------------------------------ what is misread

  /** A tab in a field: the masking step sees two fields, and all after it one
      position too late. */
  lemma TabShiftsRow(before: seq<string>, x: string, y: string, after: seq<string>)
    requires Clean([before + [x, y] + after])
    ensures RowsSeen(FileText([before + [x + ['\t'] + y] + after])) == [before + [x, y] + after]
  {
    hide RowsSeen, Clean, RowLine;
    MergedParts('\t', before, x, y, after);
    SameLineSameFile(before + [x + ['\t'] + y] + after, before + [x, y] + after);
    CleanRowsAreSeen([before + [x, y] + after]);
  }

  lemma SameLineSameFile(a: seq<string>, b: seq<string>)
    requires Join('\t', a) == Join('\t', b)
    ensures FileText([a]) == FileText([b])
  {
    OneRowFile(a);
    OneRowFile(b);
  }

  lemma OneRowFile(row: seq<string>)
    ensures FileText([row]) == RowLine(row)
  {
    hide RowLine;
    NoFile();
    FileSnoc([], row);
    assert [] + [row] == [row];
  }

  /** A newline in a field: the masking step sees two rows, and what comes after it
      from the first column on. */
  lemma NewlineSplitsRow(before: seq<string>, x: string, y: string, after: seq<string>)
    requires Clean([before + [x], [y] + after])
    ensures RowsSeen(FileText([before + [x + ['\n'] + y] + after])) == [before + [x], [y] + after]
  {
    hide RowsSeen, Clean;
    var row, a, b := before + [x + ['\n'] + y] + after, before + [x], [y] + after;
    JoinWithin('\t', before, x, ['\n'], y, after);
    OneRowFile(row);
    OneRowFile(a);
    FileSnoc([a], b);
    assert [a] + [b] == [a, b];
    assert Join('\t', row) + "\n" == (Join('\t', a) + "\n") + (Join('\t', b) + "\n");
    CleanRowsAreSeen([a, b]);
  }

  /** Under every profile: if a field before the last one holds a tab, the value of
      the last column is written as it came, past the columns that can be ruled. */
  lemma TabLeaksLastColumn(p: Profile, table: string, columns: seq<string>, row: seq<string>, k: nat)
    requires |row| == |columns| > 1 && p.RulesFor(table) != map[]
    requires forall f | f in row :: '\n' !in f && '\r' !in f
    requires '\t' !in row[|row| - 1] && exists j :: 0 <= j < |row| - 1 && '\t' in row[j]
    ensures exists written: seq<string> ::
              && MaskedText(p, table, columns, FileText([row]), k) == RowLine(written)
              && |written| > |columns| && written[|written| - 1] == row[|row| - 1]
  {
    hide *;
    var seen := Fields(RowLine(row));
    var written := MaskedRow(p, AS_IS, table, columns, seen, k);
    LastFieldSeen(row);
    PastTheColumns(p, table, columns, seen, k);
    OneRowText(p, table, columns, row, k);
    assert MaskedText(p, table, columns, FileText([row]), k) == RowLine(written);
  }

  lemma OneRowText(p: Profile, table: string, columns: seq<string>, row: seq<string>, k: nat)
    requires p.RulesFor(table) != map[] && forall f | f in row :: '\n' !in f && '\r' !in f
    ensures MaskedText(p, table, columns, FileText([row]), k)
         == RowLine(MaskedRow(p, AS_IS, table, columns, Fields(RowLine(row)), k))
  {
    hide MaskedRow, RowLine, RowsSeen, FileText, MaskRows, Fields;
    var seen := Fields(RowLine(row));
    OneLineSeen(row);
    OneRowMasked(p, table, columns, seen, k);
    OneRowFile(MaskedRow(p, AS_IS, table, columns, seen, k));
  }

  lemma OneLineSeen(row: seq<string>)
    requires forall f | f in row :: '\n' !in f && '\r' !in f
    ensures RowsSeen(FileText([row])) == [Fields(RowLine(row))]
  {
    hide RowLine, Universal, LinesOf, Fields, FileText;
    var line := RowLine(row);
    OneRowFile(row);
    RowLineIsLine(row);
    InRow(row, '\r');
    UniversalKeeps(line);
    LinesOfOne(line);
    assert RowsSeen(line) == [Fields(line)];
  }

  lemma OneRowMasked(p: Profile, table: string, columns: seq<string>, row: seq<string>, k: nat)
    ensures MaskRows(p, table, columns, [row], k) == [MaskedRow(p, AS_IS, table, columns, row, k)]
  {
    hide MaskedRow;
    assert [row][..0] == [];
  }

  lemma PastTheColumns(p: Profile, table: string, columns: seq<string>, fields: seq<string>, k: nat)
    requires |fields| > |columns|
    ensures MaskedRow(p, AS_IS, table, columns, fields, k)[|fields| - 1] == fields[|fields| - 1]
  {
    var i := |fields| - 1;
    assert MaskedRow(p, AS_IS, table, columns, fields, k)[i] == MaskedValue(p, AS_IS, table, columns, fields, k, i);
  }

  lemma LastFieldSeen(row: seq<string>)
    requires |row| > 1 && forall f | f in row :: '\n' !in f
    requires '\t' !in row[|row| - 1] && exists j :: 0 <= j < |row| - 1 && '\t' in row[j]
    ensures var seen := Fields(RowLine(row)); |seen| > |row| && seen[|seen| - 1] == row[|row| - 1]
  {
    var n := |row| - 1;
    var front, last := row[..n], row[n];
    var j :| 0 <= j < n && '\t' in row[j];
    assert front[j] == row[j];
    assert row == front + [last];
    RowLineIsLine(row);
    StrippedLine(RowLine(row));
    JoinAppend('\t', front, last);
    var text := Join('\t', front) + ['\t'] + last;
    assert RowLine(row) == text + ['\n'] && RowLine(row)[..|RowLine(row)| - 1] == text;
    SplitOfConcat('\t', Join('\t', front), last);
    SplitWithoutSeparator('\t', last);
    SplitCountsParts('\t', front);
  }

  /** A concrete table: the rule is for `name`, and the name leaves unmasked. */
  lemma TabLeakExample(fake: (string, nat) -> string, secret: string)
    requires CleanField(secret)
    ensures var p := Profile(map["users" := map["name" := "name"]], map[], false, fake);
            MaskedText(p, "users", ["id", "note", "name"], FileText([["1", "a\tb", secret]]), 0)
            == RowLine(["1", "a", fake("name", 0), secret])
  {
    hide RowsSeen, RowLine;
    var p := Profile(map["users" := map["name" := "name"]], map[], false, fake);
    var columns, seen := ["id", "note", "name"], ["1", "a", "b", secret];
    assert ["1"] + ["a", "b"] + [secret] == seen;
    assert "a" + ['\t'] + "b" == "a\tb";
    assert ["1"] + ["a\tb"] + [secret] == ["1", "a\tb", secret];
    TabShiftsRow(["1"], "a", "b", [secret]);
    assert "name" in p.RulesFor("users");
    OneRowMasked(p, "users", columns, seen, 0);
    ThirdOnly(p, seen, fake);
    assert seen[2 := fake("name", 0)] == ["1", "a", fake("name", 0), secret];
    OneRowFile(["1", "a", fake("name", 0), secret]);
  }

  lemma ThirdOnly(p: Profile, seen: seq<string>, fake: (string, nat) -> string)
    requires p == Profile(map["users" := map["name" := "name"]], map[], false, fake) && |seen| == 4
    ensures MaskedRow(p, AS_IS, "users", ["id", "note", "name"], seen, 0) == seen[2 := fake("name", 0)]
  {
    var columns, rules := ["id", "note", "name"], p.RulesFor("users");
    var masked := MaskedRow(p, AS_IS, "users", columns, seen, 0);
    assert rules == map["name" := "name"];
    assert DrawsBefore(rules, columns, 4, 1) == 0;
    assert DrawsBefore(rules, columns, 4, 2) == 0;
    forall i | 0 <= i < 4 ensures masked[i] == seen[2 := fake("name", 0)][i] {
      assert masked[i] == MaskedValue(p, AS_IS, "users", columns, seen, 0, i);
    }
  }

  // ----------------------------------------------------------- what is read back

  /** The masked file of clean rows is loaded as the masked rows if and only if no
      mask holds a tab or a newline: masks are written as they are drawn. */
  lemma MaskedFileReadsBackIff(p: Profile, table: string, columns: seq<string>, rows: seq<seq<string>>, k: nat)
    requires Wide(rows) && Clean(rows)
    ensures var masked := MaskRows(p, table, columns, rows, k);
            && |masked| == |rows| && (forall r | 0 <= r < |rows| :: |masked[r]| == |rows[r]|)
            && (RowsOf(MaskedText(p, table, columns, FileText(rows), k)) == masked <==>
                forall r: nat, i: nat | r < |rows| && i < |rows[r]| && Ruled(p.RulesFor(table), columns, |rows[r]|, i) ::
                  '\t' !in masked[r][i] && '\n' !in masked[r][i])
  {
    hide FileText, RowsOf, MaskedText, RowDraws, MaskRows, MaskedRow;
    var masked := MaskRows(p, table, columns, rows, k);
    CleanFileIsMasked(p, table, columns, rows, k);
    MaskRowsLength(p, table, columns, rows, k);
    forall r | 0 <= r < |rows|
      ensures |masked[r]| == |rows[r]|
      ensures forall i: nat | i < |rows[r]| && !Ruled(p.RulesFor(table), columns, |rows[r]|, i) ::
                masked[r][i] == rows[r][i]
    {
      MaskRowsAt(p, table, columns, rows, k, r);
      UnruledFields(p, table, columns, rows[r], k + RowDraws(p, table, columns, rows[..r]));
    }
    StaysWide(rows, masked);
    RowsReadBackIff(masked);
    CleanByPosition(rows, masked, p.RulesFor(table), columns);
  }

  lemma UnruledFields(p: Profile, table: string, columns: seq<string>, row: seq<string>, k: nat)
    ensures var masked := MaskedRow(p, AS_IS, table, columns, row, k);
            forall i: nat | i < |row| && !Ruled(p.RulesFor(table), columns, |row|, i) :: masked[i] == row[i]
  {
    var masked := MaskedRow(p, AS_IS, table, columns, row, k);
    forall i: nat | i < |row| && !Ruled(p.RulesFor(table), columns, |row|, i) ensures masked[i] == row[i] {
      assert masked[i] == MaskedValue(p, AS_IS, table, columns, row, k, i);
    }
  }

  lemma StaysWide(rows: seq<seq<string>>, masked: seq<seq<string>>)
    requires Wide(rows) && |masked| == |rows| && forall r | 0 <= r < |rows| :: |masked[r]| == |rows[r]|
    ensures Wide(masked)
  {
    forall row | row in masked ensures row != [] {
      var r :| 0 <= r < |masked| && masked[r] == row;
      assert rows[r] in rows;
    }
  }

  lemma CleanByPosition(rows: seq<seq<string>>, masked: seq<seq<string>>, rules: Rules, columns: seq<string>)
    requires Clean(rows) && |masked| == |rows| && forall r | 0 <= r < |rows| :: |masked[r]| == |rows[r]|
    requires forall r, i: nat | 0 <= r < |rows| && i < |rows[r]| && !Ruled(rules, columns, |rows[r]|, i) ::
               masked[r][i] == rows[r][i]
    ensures (forall row, f | row in masked && f in row :: '\t' !in f && '\n' !in f) <==>
            (forall r: nat, i: nat | r < |rows| && i < |rows[r]| && Ruled(rules, columns, |rows[r]|, i) ::
               '\t' !in masked[r][i] && '\n' !in masked[r][i])
  {
    hide Ruled;
    if forall r: nat, i: nat | r < |rows| && i < |rows[r]| && Ruled(rules, columns, |rows[r]|, i) ::
         '\t' !in masked[r][i] && '\n' !in masked[r][i] {
      forall row, f | row in masked && f in row ensures '\t' !in f && '\n' !in f {
        var r :| 0 <= r < |masked| && masked[r] == row;
        var i :| 0 <= i < |row| && row[i] == f;
        assert rows[r] in rows && rows[r][i] in rows[r];
      }
    }
    if forall row, f | row in masked && f in row :: '\t' !in f && '\n' !in f {
      forall r: nat, i: nat | r < |rows| && i < |rows[r]| ensures '\t' !in masked[r][i] && '\n' !in masked[r][i] {
        assert masked[r] in masked && masked[r][i] in masked[r];
      }
    }
  }
}
