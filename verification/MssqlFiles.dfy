/** A data file of one table: what `bcp` writes in character mode, and what the
    masking step makes of it. */
module MssqlFiles {
  import opened Text
  import opened Masking
  import opened TabLines
  import opened TextFiles
  import opened MssqlTypes
  import opened MssqlDdl

  /** Declared lengths by column name; a later column of the same name wins. */
  function LengthsOf(columns: seq<Column>): map<string, int>
  {
    if columns == [] then map[]
    else
      var last := columns[|columns| - 1];
      var lengths := LengthsOf(columns[..|columns| - 1]);
      if last.maxLength.Some? then lengths[last.name := last.maxLength.value] else lengths - {last.name}
  }

  /** The profile with the column lengths of the table's own schema. */
  function WithSchema(p: Profile, table: string, schema: Schema): Profile
  {
    p.(lengths := p.lengths[table := LengthsOf(schema.columns)])
  }

  function Names(schema: Schema): (names: seq<string>)
    ensures |names| == |schema.columns| && forall i | 0 <= i < |names| :: names[i] == schema.columns[i].name
  {
    seq(|schema.columns|, i requires 0 <= i < |schema.columns| => schema.columns[i].name)
  }

  /** The rows that the masking step sees in a file. */
  function RowsSeen(text: string): seq<seq<string>>
  {
    RowsOf(Universal(text))
  }

  /** The file after the masking step. */
  function MaskedText(p: Profile, table: string, columns: seq<string>, text: string, k: nat): string
  {
    if p.RulesFor(table) == map[] then text else FileText(MaskRows(p, table, columns, RowsSeen(text), k))
  }

  function TextDraws(p: Profile, table: string, columns: seq<string>, text: string): nat
  {
    if p.RulesFor(table) == map[] then 0 else RowDraws(p, table, columns, RowsSeen(text))
  }

  predicate AllKnown(p: Profile, table: string, columns: seq<string>, rows: seq<seq<string>>)
  {
    forall row | row in rows :: ProvidersKnown(p.RulesFor(table), columns, |row|)
  }

  /** `_mask_dat_file` on the text of the file. */
  method MaskDatFile(p: Profile, table: string, columns: seq<string>, text: string, k: nat)
    returns (written: string, draws: nat, ok: bool)
    ensures ok <==> p.RulesFor(table) == map[] || AllKnown(p, table, columns, RowsSeen(text))
    ensures ok ==> written == MaskedText(p, table, columns, text, k)
    ensures ok ==> draws == k + TextDraws(p, table, columns, text)
  {
    hide MaskedRow, DrawsOfRow, ProvidersKnown, Fields, RowLine, LinesOf, Universal, MaskRows, RowDraws, FileText, FieldsOf;
    if p.RulesFor(table) == map[] {
      return text, k, true;
    }
    var lines := LinesOf(Universal(text));
    ghost var rows := RowsSeen(text);
    written, draws, ok := "", k, true;
    NothingMasked(p, table, columns, rows, k);
    for n := 0 to |lines|
      invariant AllKnown(p, table, columns, rows[..n])
      invariant written == FileText(MaskRows(p, table, columns, rows[..n], k))
      invariant draws == k + RowDraws(p, table, columns, rows[..n])
    {
      var row, used, known := MaskRow(p, AS_IS, table, columns, Fields(lines[n]), draws);
      if !known {
        assert rows[n] in rows;
        return written, draws, false;
      }
      OneMoreRow(p, table, columns, rows, k, n);
      written, draws := written + RowLine(row), used;
    }
    assert rows[..|rows|] == rows;
  }

  lemma NothingMasked(p: Profile, table: string, columns: seq<string>, rows: seq<seq<string>>, k: nat)
    ensures FileText(MaskRows(p, table, columns, rows[..0], k)) == "" && RowDraws(p, table, columns, rows[..0]) == 0
  {
  }

  lemma OneMoreRow(p: Profile, table: string, columns: seq<string>, rows: seq<seq<string>>, k: nat, n: nat)
    requires n < |rows|
    ensures var masked := MaskRows(p, table, columns, rows[..n], k);
            var row := MaskedRow(p, AS_IS, table, columns, rows[n], k + RowDraws(p, table, columns, rows[..n]));
            FileText(MaskRows(p, table, columns, rows[..n + 1], k)) == FileText(masked) + RowLine(row)
    ensures RowDraws(p, table, columns, rows[..n + 1])
         == RowDraws(p, table, columns, rows[..n]) + DrawsOfRow(p.RulesFor(table), columns, |rows[n]|)
    ensures rows[..n + 1] == rows[..n] + [rows[n]]
  {
    hide MaskedRow, DrawsOfRow, RowLine, FileText, MaskRows, RowDraws;
    assert rows[..n + 1][..n] == rows[..n] && rows[..n + 1][n] == rows[n];
    MaskRowsLast(p, table, columns, rows[..n + 1], k);
    FileSnoc(MaskRows(p, table, columns, rows[..n], k),
             MaskedRow(p, AS_IS, table, columns, rows[n], k + RowDraws(p, table, columns, rows[..n])));
  }

  // ------------------------------------------------------- the cells of a masked file

  predicate DistinctColumns(columns: seq<Column>)
  {
    forall i, j | 0 <= i < j < |columns| :: columns[i].name != columns[j].name
  }

  lemma {:induction false} LengthsAreDeclared(columns: seq<Column>)
    requires DistinctColumns(columns)
    ensures forall c | c in columns ::
              && (c.name in LengthsOf(columns) <==> c.maxLength.Some?)
              && (c.maxLength.Some? ==> LengthsOf(columns)[c.name] == c.maxLength.value)
  {
    if columns != [] {
      var front := columns[..|columns| - 1];
      assert columns == front + [columns[|columns| - 1]];
      LengthsAreDeclared(front);
    }
  }

  /** Every cell of a masked row: in a column that the profile names, what the column's
      declared length leaves of the provider's answer, and otherwise the value that
      was there. */
  lemma MaskedCell(p: Profile, table: string, schema: Schema, rows: seq<seq<string>>, k: nat, r: nat, i: nat)
    requires DistinctColumns(schema.columns) && r < |rows| && |rows[r]| == |schema.columns| && i < |rows[r]|
    ensures var q, names, column := WithSchema(p, table, schema), Names(schema), schema.columns[i];
            var masked := MaskRows(q, table, names, rows, k);
            && |masked| == |rows| && |masked[r]| == |rows[r]|
            && if table in p.rules && column.name in p.rules[table]
               then IsCut(p.fake(p.rules[table][column.name],
                                 k + RowDraws(q, table, names, rows[..r])
                                   + |NamedBefore(p, table, names, |rows[r]|, i)|),
                          column.maxLength, masked[r][i])
               else masked[r][i] == rows[r][i]
  {
    hide MaskRows, RowDraws, LengthsOf, IsCut, DistinctColumns;
    var q, names := WithSchema(p, table, schema), Names(schema);
    LengthsAreDeclared(schema.columns);
    MaskRowsAreMasked(q, table, names, rows, k, r);
    assert NamedBefore(q, table, names, |rows[r]|, i) == NamedBefore(p, table, names, |rows[r]|, i);
    hide NamedBefore;
  }

  // ------------------------------------------------------- a column of length -1

  lemma RuledField(p: Profile, table: string, columns: seq<string>, fields: seq<string>, k: nat, i: nat)
    requires Ruled(p.RulesFor(table), columns, |fields|, i)
    ensures MaskedRow(p, AS_IS, table, columns, fields, k)[i]
         == MaskText(p, p.RulesFor(table)[columns[i]], p.LengthOf(table, columns[i]),
                     k + DrawsBefore(p.RulesFor(table), columns, |fields|, i))
  {
    hide MaskText, DrawsBefore;
    assert MaskedRow(p, AS_IS, table, columns, fields, k)[i] == MaskedValue(p, AS_IS, table, columns, fields, k, i);
  }

  /** A column that is declared with length -1, as SQL Server reports `max`: in every
      row that is written its field is the drawn text if and only if that is empty,
      and otherwise the drawn text without its last character. */
  lemma MaxColumnIsCutIff(p: Profile, table: string, schema: Schema, rows: seq<seq<string>>, k: nat, n: nat, i: nat)
    requires n < |rows| && Ruled(p.RulesFor(table), Names(schema), |rows[n]|, i)
    requires var lengths := LengthsOf(schema.columns);
             Names(schema)[i] in lengths && lengths[Names(schema)[i]] == -1
    ensures var q, columns, rules := WithSchema(p, table, schema), Names(schema), p.RulesFor(table);
            var masked := MaskRows(q, table, columns, rows, k);
            var at := k + RowDraws(q, table, columns, rows[..n]) + DrawsBefore(rules, columns, |rows[n]|, i);
            var drawn := p.fake(rules[columns[i]], at);
            && |masked| == |rows| && i < |masked[n]|
            && (masked[n][i] == drawn <==> drawn == "")
            && (drawn != "" ==> masked[n][i] + [drawn[|drawn| - 1]] == drawn)
  {
    hide LengthsOf, RowDraws, DrawsBefore, MaskedRow, MaskText, MaskRows;
    var q, columns, rules := WithSchema(p, table, schema), Names(schema), p.RulesFor(table);
    MaskRowsAt(q, table, columns, rows, k, n);
    var draws := k + RowDraws(q, table, columns, rows[..n]);
    var at := draws + DrawsBefore(rules, columns, |rows[n]|, i);
    RuledField(q, table, columns, rows[n], draws, i);
    MaskIsUncutIff(q, rules[columns[i]], Some(-1), at);
    if q.fake(rules[columns[i]], at) != "" { MaxColumnLosesOneCharacter(q, rules[columns[i]], at); }
  }
}
