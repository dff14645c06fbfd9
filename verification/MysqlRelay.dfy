/** The INSERT-line relay of the MySQL handler: recogniser, printer, and the
    stream that rewrites a dump line by line. */
module MysqlRelay {
  import opened Text
  import opened Masking
  import opened LinePatterns
  import opened MysqlTokens
  import opened Streams

  // -------------------------------------------------------------- INSERT lines

  datatype Insert = Insert(table: string, columns: string, values: string)

  const INSERT: Pattern :=
    Pattern("INSERT INTO `", (c: char) => c == '`', "` (", ") VALUES (")

  /** The text of an INSERT line up to its line end. */
  function InsertText(ins: Insert, tail: string): string
  {
    LinePatterns.Print(INSERT, Parts(ins.table, ins.columns, ins.values + (");" + tail)))
  }

  /** The line the relay writes. */
  function PrintInsert(ins: Insert): string
  {
    InsertText(ins, "\n")
  }

  predicate InsertParts(ins: Insert)
  {
    && ins.table != "" && (forall i | 0 <= i < |ins.table| :: ins.table[i] != '`')
    && (forall i | 0 <= i < |ins.columns| :: ins.columns[i] != ')')
    && '\n' !in ins.values
  }

  /** What stands before the closing `);` and at most two newlines. */
  function BeforeEnd(rest: string): Option<string>
  {
    var core := RstripNewlines(rest);
    var n := |core| - 2;
    if |rest| - |core| <= 2 && n >= 0 && core[n..] == ");" && '\n' !in core[..n] then Some(core[..n]) else None
  }

  /** `_INSERT_RE.match`. */
  function ParseInsert(line: string): Option<Insert>
  {
    var parts := LinePatterns.Parse(INSERT, line);
    if parts.None? then None else
    var v := BeforeEnd(parts.value.rest);
    if v.None? then None else Some(Insert(parts.value.name, parts.value.columns, v.value))
  }

  lemma ShortTail(tail: string)
    requires |tail| <= 2 && forall i | 0 <= i < |tail| :: tail[i] == '\n'
    ensures tail in TAILS
  {
    assert |tail| == 0 ==> tail == "";
    assert |tail| == 1 ==> tail == "\n";
    assert |tail| == 2 ==> tail == "\n\n";
  }

  lemma BeforeEndExact(rest: string, v: string)
    ensures BeforeEnd(rest) == Some(v) <==>
            '\n' !in v && exists tail :: tail in TAILS && rest == v + (");" + tail)
  {
    hide RstripNewlines;
    if BeforeEnd(rest) == Some(v) {
      var core := RstripNewlines(rest);
      var tail := rest[|core|..];
      assert core == v + ");";
      assert rest == v + (");" + tail);
      ShortTail(tail);
    }
    if tail :| '\n' !in v && tail in TAILS && rest == v + (");" + tail) {
      assert rest == (v + ");") + tail;
      RstripOfTail(v + ");", tail);
      assert (v + ");")[..|v|] == v;
    }
  }

  /** The recogniser accepts exactly the language of the pattern, and reads each
      of its lines in one way only. */
  lemma ParseInsertExact(line: string, ins: Insert)
    ensures ParseInsert(line) == Some(ins) <==>
            InsertParts(ins) && exists tail :: tail in TAILS && line == InsertText(ins, tail)
  {
    if ParseInsert(line) == Some(ins) {
      var parts := LinePatterns.Parse(INSERT, line).value;
      ParseExact(INSERT, line, parts);
      BeforeEndExact(parts.rest, ins.values);
      var tail :| tail in TAILS && parts.rest == ins.values + (");" + tail);
      assert line == InsertText(ins, tail);
      assert InsertParts(ins);
    }
    if tail :| InsertParts(ins) && tail in TAILS && line == InsertText(ins, tail) {
      var rest := ins.values + (");" + tail);
      ParseExact(INSERT, line, Parts(ins.table, ins.columns, rest));
      BeforeEndExact(rest, ins.values);
    }
  }

  /** Reading a printed line gives its parts back if and only if they can be
      told apart. */
  lemma PrintedInsertReadsBackIff(ins: Insert)
    ensures ParseInsert(PrintInsert(ins)) == Some(ins) <==> InsertParts(ins)
  {
    ParseInsertExact(PrintInsert(ins), ins);
    assert "\n" in TAILS;
  }

  /** The column names of an INSERT line, without their backticks. */
  function ColumnNames(columns: string): (names: seq<string>)
  {
    var parts := Split(',', columns);
    seq(|parts|, i requires 0 <= i < |parts| => StripChar('`', Strip(parts[i])))
  }

  // ------------------------------------------------------------------ the stream

  /** The relay after some lines: what it wrote, the tables it warned about, the
      masks it drew, and whether an unknown provider ended it. */
  datatype Stream = Stream(out: seq<string>, warned: seq<string>, draws: nat, failed: bool)

  function Step(p: Profile, st: Stream, line: string): Stream
  {
    if st.failed then st else
    match ParseInsert(line)
    case None => st.(out := st.out + [line])
    case Some(ins) =>
      var rules := p.RulesFor(ins.table);
      if rules == map[] then
        var news := if p.wholeDb && ins.table !in st.warned then [ins.table] else [];
        st.(out := st.out + [line], warned := st.warned + news)
      else
        var values, columns := Tokenise(ins.values), ColumnNames(ins.columns);
        if ProvidersKnown(rules, columns, |values|) then
          var row := MaskedRow(p, QuoteValue, ins.table, columns, values, st.draws);
          st.(out := st.out + [PrintInsert(ins.(values := Join(',', row)))],
              draws := st.draws + DrawsOfRow(rules, columns, |values|))
        else st.(failed := true)
  }

  const FRESH := Stream([], [], 0, false)

  function StepOf(p: Profile): (Stream, string) -> Stream
  {
    (st, line) => Step(p, st, line)
  }

  function Relay(p: Profile, lines: seq<string>): Stream
  {
    Fold(StepOf(p), FRESH, lines)
  }

  /** One turn of the relay loop. */
  method RelayLine(p: Profile, st: Stream, line: string) returns (next: Stream)
    requires !st.failed
    ensures next == Step(p, st, line)
  {
    hide ParseInsert, PrintInsert, Tokenise, ColumnNames, MaskedRow, ProvidersKnown, DrawsOfRow, Join, Tokens;
    var ins := ParseInsert(line);
    if ins.None? {
      return st.(out := st.out + [line]);
    }
    var Insert(table, columnsText, valuesText) := ins.value;
    var columns := ColumnNames(columnsText);
    if p.RulesFor(table) == map[] {
      var warned := st.warned;
      if p.wholeDb && table !in warned {
        warned := warned + [table];
      }
      return st.(out := st.out + [line], warned := warned);
    }
    var values := SplitValues(valuesText);
    var row, draws, known := MaskRow(p, QuoteValue, table, columns, values, st.draws);
    if !known {
      return st.(failed := true);
    }
    return st.(out := st.out + [PrintInsert(Insert(table, columnsText, Join(',', row)))], draws := draws);
  }

  /** `_relay_lines` without collation stripping. The relay ends early, with
      what it wrote so far, when the generator raises. */
  method RelayLines(p: Profile, lines: seq<string>) returns (st: Stream)
    ensures st == Relay(p, lines)
  {
    hide ParseInsert, PrintInsert, Tokenise, ColumnNames, MaskedRow, ProvidersKnown, DrawsOfRow, Join;
    st := FRESH;
    var n := 0;
    while n < |lines| && !st.failed
      invariant 0 <= n <= |lines|
      invariant st == Relay(p, lines[..n])
    {
      FoldSnoc(StepOf(p), FRESH, lines[..n], lines[n]);
      assert lines[..n + 1] == lines[..n] + [lines[n]];
      st := RelayLine(p, st, lines[n]);
      n := n + 1;
    }
    FoldStops(StepOf(p), FRESH, lines[..n], lines[n..]);
    assert lines == lines[..n] + lines[n..];
  }
}
