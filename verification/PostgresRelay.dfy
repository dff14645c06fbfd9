/** The COPY-block relay of the Postgres handler: a state machine over the lines
    of a dump. */
module PostgresRelay {
  import opened Text
  import opened Masking
  import opened LinePatterns
  import opened Streams
  import opened TabLines

  const COPY: Pattern := Pattern("COPY ", IsSpace, " (", ") FROM stdin;")
  const END := "\\.\n"
  const TIMEOUT := "SET transaction_timeout"

  /** `_COPY_HEADER_RE.match`: the name and the column list. */
  function ParseCopy(line: string): Option<(string, string)>
  {
    var parts := LinePatterns.Parse(COPY, line);
    if parts.Some? && parts.value.rest in TAILS then Some((parts.value.name, parts.value.columns)) else None
  }

  /** A COPY header line. */
  function Header(name: string, columns: string, tail: string): string
  {
    LinePatterns.Print(COPY, Parts(name, columns, tail))
  }

  predicate HeaderParts(name: string, columns: string, tail: string)
  {
    LinePatterns.WellFormed(COPY, Parts(name, columns, tail)) && tail in TAILS
  }

  /** The header pattern accepts exactly the printed headers. */
  lemma ParseCopyExact(line: string, name: string, columns: string)
    ensures ParseCopy(line) == Some((name, columns)) <==>
            exists tail :: HeaderParts(name, columns, tail) && line == Header(name, columns, tail)
  {
    if ParseCopy(line) == Some((name, columns)) {
      var parts := LinePatterns.Parse(COPY, line).value;
      ParseExact(COPY, line, parts);
      assert HeaderParts(name, columns, parts.rest) && line == Header(name, columns, parts.rest);
    }
    if tail :| HeaderParts(name, columns, tail) && line == Header(name, columns, tail) {
      ParseExact(COPY, line, Parts(name, columns, tail));
    }
  }

  /** The table a header names: the schema and surrounding quotes are dropped. */
  function TableOf(name: string): string
  {
    var dot := IndexOf('.', name);
    StripChar('"', if dot < |name| then name[dot + 1..] else name)
  }

  function ColumnNames(columns: string): (names: seq<string>)
  {
    var parts := Split(',', columns);
    seq(|parts|, i requires 0 <= i < |parts| => Strip(parts[i]))
  }

  /** The relay after some lines. An empty `table` is "outside any block" (the
      source tests the name for truth, so an empty name counts as none). */
  datatype Stream = Stream(
    table: string, columns: seq<string>, rules: Rules,
    out: seq<string>, warned: seq<string>, draws: nat, failed: bool)
  {
    function Write(line: string): Stream {
      this.(out := out + [line])
    }

    function Outside(): Stream {
      this.(table := "", columns := [], rules := map[])
    }
  }

  const FRESH := Stream("", [], map[], [], [], 0, false)

  function OpenBlock(p: Profile, st: Stream, name: string, columns: string): Stream
  {
    var table := TableOf(name);
    var rules := p.RulesFor(table);
    var news := if rules == map[] && p.wholeDb && table !in st.warned then [table] else [];
    st.(table := table, columns := ColumnNames(columns), rules := rules, warned := st.warned + news)
  }

  function MaskLine(p: Profile, st: Stream, fields: seq<string>): Stream
  {
    if ProvidersKnown(p.RulesFor(st.table), st.columns, |fields|) then
      st.Write(RowLine(MaskedRow(p, AS_IS, st.table, st.columns, fields, st.draws)))
        .(draws := st.draws + DrawsOfRow(p.RulesFor(st.table), st.columns, |fields|))
    else st.(failed := true)
  }

  function Step(p: Profile, st: Stream, line: string): Stream
  {
    if st.failed || TIMEOUT <= line then st else
    match ParseCopy(line)
    case Some((name, columns)) => OpenBlock(p, st, name, columns).Write(line)
    case None =>
      if st.table != "" && line != END && st.rules != map[] then MaskLine(p, st, Fields(line))
      else if line == END then st.Outside().Write(line)
      else st.Write(line)
  }

  function StepOf(p: Profile): (Stream, string) -> Stream
  {
    (st, line) => Step(p, st, line)
  }

  function Relay(p: Profile, lines: seq<string>): Stream
  {
    Fold(StepOf(p), FRESH, lines)
  }

  /** The rules in force are those of the current table. */
  predicate InForce(p: Profile, st: Stream)
  {
    st.rules == map[] || st.rules == p.RulesFor(st.table)
  }

  /** One turn of the relay loop. */
  method RelayLine(p: Profile, st: Stream, line: string) returns (next: Stream)
    requires !st.failed && InForce(p, st)
    ensures next == Step(p, st, line) && InForce(p, next)
  {
    hide ParseCopy, ColumnNames, TableOf, MaskedRow, ProvidersKnown, DrawsOfRow, Fields, RowLine;
    next := st;
    if TIMEOUT <= line {
      return;
    }
    var header := ParseCopy(line);
    if header.Some? {
      var table := TableOf(header.value.0);
      var rules := p.RulesFor(table);
      if rules == map[] && p.wholeDb && table !in st.warned {
        next := next.(warned := next.warned + [table]);
      }
      next := next.(table := table, columns := ColumnNames(header.value.1), rules := rules);
      return next.Write(line);
    }
    if st.table != "" && line != END && st.rules != map[] {
      var row, draws, known := MaskRow(p, AS_IS, st.table, st.columns, Fields(line), st.draws);
      if !known {
        return st.(failed := true);
      }
      return st.Write(RowLine(row)).(draws := draws);
    }
    if line == END {
      next := next.Outside();
    }
    next := next.Write(line);
  }

  /** `_relay_lines`. It ends early, with what it wrote so far, when the
      generator raises. */
  method RelayLines(p: Profile, lines: seq<string>) returns (st: Stream)
    ensures st == Relay(p, lines)
  {
    hide ParseCopy, OpenBlock, MaskLine, Fields;
    st := FRESH;
    var n := 0;
    while n < |lines| && !st.failed
      invariant 0 <= n <= |lines|
      invariant st == Relay(p, lines[..n]) && InForce(p, st)
    {
      FoldSnoc(StepOf(p), FRESH, lines[..n], lines[n]);
      assert lines[..n + 1] == lines[..n] + [lines[n]];
      st := RelayLine(p, st, lines[n]);
      n := n + 1;
    }
    FoldStops(StepOf(p), FRESH, lines[..n], lines[n..]);
    assert lines == lines[..n] + lines[n..];
  }
}
