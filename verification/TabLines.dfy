/** Tab-separated data lines, as COPY blocks and character-mode data files hold them. */
module TabLines {
  import opened Text

  /** `line.rstrip('\n').split('\t')`. */
  function Fields(line: string): seq<string>
  {
    Split('\t', RstripNewlines(line))
  }

  /** `'\t'.join(fields) + '\n'`. */
  function RowLine(fields: seq<string>): string
  {
    Join('\t', fields) + "\n"
  }

  /** A row is read back from its line. */
  lemma FieldsOfRowLine(row: seq<string>)
    requires row != [] && forall f | f in row :: '\t' !in f && '\n' !in f
    ensures Fields(RowLine(row)) == row
  {
    InJoin('\t', row, '\n');
    var text := Join('\t', row);
    assert RowLine(row)[..|text|] == text;
    assert RstripNewlines(text) == text by {
      if text != "" { assert text[|text| - 1] in text; }
    }
    SplitOfJoin('\t', row);
  }

  /** The lines of some rows. */
  function RowLines(rows: seq<seq<string>>): (lines: seq<string>)
    ensures |lines| == |rows|
  {
    if rows == [] then [] else RowLines(rows[..|rows| - 1]) + [RowLine(rows[|rows| - 1])]
  }

  lemma RowLinesSnoc(rows: seq<seq<string>>, last: seq<string>)
    ensures RowLines(rows + [last]) == RowLines(rows) + [RowLine(last)]
  {
    assert (rows + [last])[..|rows|] == rows;
  }

  lemma {:induction false} RowLineAt(rows: seq<seq<string>>, i: nat)
    requires i < |rows|
    ensures RowLines(rows)[i] == RowLine(rows[i]) && RowLines(rows)[..i] == RowLines(rows[..i])
  {
    if i < |rows| - 1 {
      RowLineAt(rows[..|rows| - 1], i);
      assert rows[..|rows| - 1][..i] == rows[..i];
      assert RowLines(rows)[..i] == RowLines(rows[..|rows| - 1])[..i];
    }
  }
}
