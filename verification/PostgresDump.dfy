/** The block-level meaning of a Postgres dump, and the proof that the streaming
    relay computes it. */
module PostgresDump {
  import opened Text
  import opened Masking
  import LinePatterns
  import opened Streams
  import opened TabLines
  import opened PostgresRelay
  import opened Warnings

  // -------------------------------------------------------------------- dumps

  /** A dump as its author sees it. `tail` is the line end of a COPY header. */
  datatype Item =
    | Stmt(line: string)
    | Copy(name: string, columns: string, tail: string, rows: seq<seq<string>>)

  function ItemLines(item: Item): seq<string>
  {
    match item
    case Stmt(line) => [line]
    case Copy(name, columns, tail, rows) => [Header(name, columns, tail)] + RowLines(rows) + [END]
  }

  function Lines(dump: seq<Item>): seq<string>
  {
    if dump == [] then [] else Lines(dump[..|dump| - 1]) + ItemLines(dump[|dump| - 1])
  }

  /** A data row in COPY text format that is not a COPY header in disguise. */
  predicate DataRow(row: seq<string>)
  {
    && row != [] && (forall f | f in row :: '\t' !in f && '\n' !in f)
    && ParseCopy(RowLine(row)).None? && RowLine(row) != END
  }

  predicate TimeoutRow(row: seq<string>)
  {
    TIMEOUT <= RowLine(row)
  }

  predicate WellFormed(item: Item)
  {
    match item
    case Stmt(line) => ParseCopy(line).None?
    case Copy(name, columns, tail, rows) =>
      HeaderParts(name, columns, tail) && TableOf(name) != "" && forall row | row in rows :: DataRow(row)
  }

  /** No data row begins like the setting the relay filters out. */
  predicate NoTimeoutRows(item: Item)
  {
    item.Copy? ==> forall row | row in item.rows :: !TimeoutRow(row)
  }

  // ------------------------------------------------------ the block-level spec

  /** A block's rows with its ruled columns masked. */
  function MaskBlock(p: Profile, item: Item, k: nat): seq<seq<string>>
    requires item.Copy?
  {
    var table := TableOf(item.name);
    if p.RulesFor(table) == map[] then item.rows
    else MaskRows(p, table, ColumnNames(item.columns), item.rows, k)
  }

  /** Row by row, a block holds its rows with a mask in each column that the profile
      names for the table, and nothing else changed. */
  lemma BlockRowsAreMasked(p: Profile, item: Item, k: nat, i: nat)
    requires item.Copy? && i < |item.rows|
    ensures var table, columns, masked := TableOf(item.name), ColumnNames(item.columns), MaskBlock(p, item, k);
            && |masked| == |item.rows|
            && IsMaskedRow(p, AS_IS, table, columns, item.rows[i], k + RowDraws(p, table, columns, item.rows[..i]), masked[i])
            && (table !in p.rules ==> masked == item.rows)
  {
    hide MaskRows, RowDraws, NamedBefore, IsMaskOf;
    MaskRowsAreMasked(p, TableOf(item.name), ColumnNames(item.columns), item.rows, k, i);
  }

  /** The item after the relay; the filtered setting disappears. */
  function MaskItem(p: Profile, item: Item, k: nat): seq<Item>
  {
    match item
    case Stmt(line) => if TIMEOUT <= line then [] else [item]
    case Copy(_, _, _, _) => [item.(rows := MaskBlock(p, item, k))]
  }

  function ItemDraws(p: Profile, item: Item): nat
  {
    if item.Copy? && p.RulesFor(TableOf(item.name)) != map[]
    then RowDraws(p, TableOf(item.name), ColumnNames(item.columns), item.rows) else 0
  }

  function DumpDraws(p: Profile, dump: seq<Item>): nat
  {
    if dump == [] then 0 else DumpDraws(p, dump[..|dump| - 1]) + ItemDraws(p, dump[|dump| - 1])
  }

  function MaskDump(p: Profile, dump: seq<Item>): seq<Item>
  {
    if dump == [] then []
    else
      var init := dump[..|dump| - 1];
      MaskDump(p, init) + MaskItem(p, dump[|dump| - 1], DumpDraws(p, init))
  }

  /** Every ruled field of every row has a provider the generator knows. */
  predicate ItemKnown(p: Profile, item: Item)
  {
    item.Copy? ==>
      forall row | row in item.rows ::
        ProvidersKnown(p.RulesFor(TableOf(item.name)), ColumnNames(item.columns), |row|)
  }

  // ---------------------------------------------------------------- refinement

  /** Between blocks. */
  predicate Idle(st: Stream)
  {
    st.table == "" && st.columns == [] && st.rules == map[] && !st.failed
  }

  /** The relay inside a block of a masked table. */
  predicate InBlock(p: Profile, st: Stream)
  {
    st.table != "" && st.rules == p.RulesFor(st.table) && st.rules != map[] && !st.failed
  }

  lemma MaskedRowStep(p: Profile, st: Stream, row: seq<string>)
    requires InBlock(p, st) && DataRow(row) && !TimeoutRow(row)
    ensures Step(p, st, RowLine(row)) == MaskLine(p, st, row)
  {
    FieldsOfRowLine(row);
  }

  predicate RowsKnown(p: Profile, st: Stream, rows: seq<seq<string>>)
  {
    forall row | row in rows :: ProvidersKnown(p.RulesFor(st.table), st.columns, |row|)
  }

  /** The stream after the rows of a masked block. */
  function AfterRows(p: Profile, st: Stream, rows: seq<seq<string>>): Stream
  {
    st.(out := st.out + RowLines(MaskRows(p, st.table, st.columns, rows, st.draws)),
        draws := st.draws + RowDraws(p, st.table, st.columns, rows))
  }

  lemma AfterRowsSnoc(p: Profile, st: Stream, init: seq<seq<string>>, last: seq<string>)
    requires ProvidersKnown(p.RulesFor(st.table), st.columns, |last|)
    ensures AfterRows(p, st, init + [last]) == MaskLine(p, AfterRows(p, st, init), last)
  {
    assert (init + [last])[..|init|] == init;
    var k := st.draws + RowDraws(p, st.table, st.columns, init);
    RowLinesSnoc(MaskRows(p, st.table, st.columns, init, st.draws),
                 MaskedRow(p, AS_IS, st.table, st.columns, last, k));
  }

  /** A block's rows, masked: the run either masks all of them or stops at the
      first unknown provider. */
  lemma {:induction false} MaskedRowsRun(p: Profile, st: Stream, rows: seq<seq<string>>)
    requires InBlock(p, st) && forall row | row in rows :: DataRow(row) && !TimeoutRow(row)
    ensures var end := Fold(StepOf(p), st, RowLines(rows));
            if RowsKnown(p, st, rows) then end == AfterRows(p, st, rows) else end.failed
  {
    if rows != [] {
      var init, last := rows[..|rows| - 1], rows[|rows| - 1];
      assert rows == init + [last];
      MaskedRowsRun(p, st, init);
      RowLinesSnoc(init, last);
      FoldSnoc(StepOf(p), st, RowLines(init), RowLine(last));
      if RowsKnown(p, st, init) {
        var mid := AfterRows(p, st, init);
        MaskedRowStep(p, mid, last);
        if ProvidersKnown(p.RulesFor(st.table), st.columns, |last|) { AfterRowsSnoc(p, st, init, last); }
      }
    }
  }

  lemma PlainRowStep(p: Profile, st: Stream, row: seq<string>)
    requires st.rules == map[] && !st.failed && DataRow(row) && !TimeoutRow(row)
    ensures Step(p, st, RowLine(row)) == st.Write(RowLine(row))
  {
  }

  /** A block's rows, passed on. */
  lemma {:induction false} PlainRowsRun(p: Profile, st: Stream, rows: seq<seq<string>>)
    requires st.rules == map[] && !st.failed && forall row | row in rows :: DataRow(row) && !TimeoutRow(row)
    ensures Fold(StepOf(p), st, RowLines(rows)) == st.(out := st.out + RowLines(rows))
  {
    if rows == [] {
      assert st.out + [] == st.out;
    } else {
      var init, last := rows[..|rows| - 1], rows[|rows| - 1];
      assert rows == init + [last];
      PlainRowsRun(p, st, init);
      RowLinesSnoc(init, last);
      FoldSnoc(StepOf(p), st, RowLines(init), RowLine(last));
      PlainRowStep(p, st.(out := st.out + RowLines(init)), last);
      assert st.out + RowLines(rows) == st.out + RowLines(init) + [RowLine(last)];
    }
  }

  // ------------------------------------------------------------ items and dumps

  lemma HeaderStep(p: Profile, st: Stream, item: Item)
    requires Idle(st) && item.Copy? && WellFormed(item)
    ensures var header := Header(item.name, item.columns, item.tail);
            Step(p, st, header) == OpenBlock(p, st, item.name, item.columns).Write(header)
  {
    var header := Header(item.name, item.columns, item.tail);
    ParseCopyExact(header, item.name, item.columns);
    assert header[0] == 'C';
  }

  lemma EndStep(p: Profile, st: Stream)
    requires !st.failed
    ensures Step(p, st, END) == st.Outside().Write(END)
  {
    assert ParseCopy(END).None?;
  }

  /** What an item adds to the stream, as the spec sees it. */
  function AfterItem(p: Profile, st: Stream, item: Item): Stream
  {
    var block := if item.Copy? then OpenBlock(p, st, item.name, item.columns) else st;
    block.Outside().(out := st.out + Lines(MaskItem(p, item, st.draws)),
                      draws := st.draws + ItemDraws(p, item))
  }

  /** One item, relayed line by line from between blocks, does what the spec says
      and ends between blocks; or it stops at an unknown provider. */
  lemma ItemRun(p: Profile, st: Stream, item: Item)
    requires Idle(st) && WellFormed(item) && NoTimeoutRows(item)
    ensures var end := Fold(StepOf(p), st, ItemLines(item));
            if ItemKnown(p, item) then end == AfterItem(p, st, item) else end.failed
  {
    if item.Stmt? { StmtRun(p, st, item); } else { CopyRun(p, st, item); }
  }

  lemma StmtRun(p: Profile, st: Stream, item: Item)
    requires Idle(st) && WellFormed(item) && item.Stmt?
    ensures Fold(StepOf(p), st, ItemLines(item)) == AfterItem(p, st, item)
  {
    FoldSnoc(StepOf(p), st, [], item.line);
    assert [] + [item.line] == [item.line];
    OneItem(item);
  }

  lemma CopyRun(p: Profile, st: Stream, item: Item)
    requires Idle(st) && WellFormed(item) && NoTimeoutRows(item) && item.Copy?
    ensures var end := Fold(StepOf(p), st, ItemLines(item));
            if ItemKnown(p, item) then end == AfterItem(p, st, item) else end.failed
  {
    hide Step, Header, RowLines, Fold;
    var header := Header(item.name, item.columns, item.tail);
    HeaderStep(p, st, item);
    var block := OpenBlock(p, st, item.name, item.columns).Write(header);
    var mid := Fold(StepOf(p), block, RowLines(item.rows));
    BracketRun(p, st, header, RowLines(item.rows), block);
    BlockRun(p, st, item, header, mid);
    OneItem(item.(rows := MaskBlock(p, item, st.draws)));
  }

  lemma BracketRun(p: Profile, st: Stream, first: string, lines: seq<string>, block: Stream)
    requires block == Step(p, st, first)
    ensures Fold(StepOf(p), st, [first] + lines + [END]) == Step(p, Fold(StepOf(p), block, lines), END)
  {
    FoldSnoc(StepOf(p), st, [], first);
    assert [] + [first] == [first];
    FoldConcat(StepOf(p), st, [first], lines);
    FoldSnoc(StepOf(p), st, [first] + lines, END);
  }

  lemma BlockRun(p: Profile, st: Stream, item: Item, header: string, mid: Stream)
    requires Idle(st) && item.Copy? && WellFormed(item) && NoTimeoutRows(item)
    requires mid == Fold(StepOf(p), OpenBlock(p, st, item.name, item.columns).Write(header), RowLines(item.rows))
    ensures if ItemKnown(p, item)
            then Step(p, mid, END) ==
                 OpenBlock(p, st, item.name, item.columns).Outside().(
                   out := st.out + ([header] + RowLines(MaskBlock(p, item, st.draws)) + [END]),
                   draws := st.draws + ItemDraws(p, item))
            else Step(p, mid, END).failed
  {
    hide Step, WellFormed, NoTimeoutRows, Fold, RowLines, MaskRows, RowDraws, ColumnNames, TableOf;
    var block := OpenBlock(p, st, item.name, item.columns).Write(header);
    var rows := RowLines(MaskBlock(p, item, st.draws));
    assert st.out + [header] + rows + [END] == st.out + ([header] + rows + [END]);
    if mid.failed { FailedStep(p, mid, END); } else { EndStep(p, mid); }
    NamedBlock(item);
    BlockRows(p, block, item);
  }

  lemma NamedBlock(item: Item)
    requires item.Copy? && WellFormed(item)
    ensures TableOf(item.name) != ""
  {
  }

  lemma FailedStep(p: Profile, st: Stream, line: string)
    requires st.failed
    ensures Step(p, st, line) == st
  {
  }

  lemma BlockRows(p: Profile, block: Stream, item: Item)
    requires item.Copy? && WellFormed(item) && NoTimeoutRows(item) && !block.failed
    requires block.rules != map[] ==> InBlock(p, block)
    ensures var end := Fold(StepOf(p), block, RowLines(item.rows));
            if block.rules == map[] then end == block.(out := block.out + RowLines(item.rows))
            else if RowsKnown(p, block, item.rows) then end == AfterRows(p, block, item.rows) else end.failed
  {
    if block.rules == map[] {
      PlainRowsRun(p, block, item.rows);
    } else {
      MaskedRowsRun(p, block, item.rows);
    }
  }

  lemma OneItem(item: Item)
    ensures Lines([item]) == ItemLines(item)
  {
    assert [item][..0] == [];
    assert [] + ItemLines(item) == ItemLines(item);
  }

  lemma LinesSnoc(dump: seq<Item>, last: Item)
    ensures Lines(dump + [last]) == Lines(dump) + ItemLines(last)
  {
    assert (dump + [last])[..|dump|] == dump;
  }

  lemma {:induction false} LinesConcat(a: seq<Item>, b: seq<Item>)
    ensures Lines(a + b) == Lines(a) + Lines(b)
  {
    if b == [] {
      assert a + b == a;
    } else {
      var init, last := b[..|b| - 1], b[|b| - 1];
      assert a + b == (a + init) + [last] && b == init + [last];
      LinesSnoc(a + init, last);
      LinesSnoc(init, last);
      LinesConcat(a, init);
      Associative(Lines(a), Lines(init), ItemLines(last));
    }
  }

  lemma MaskDumpSnoc(p: Profile, dump: seq<Item>, last: Item)
    ensures Lines(MaskDump(p, dump + [last])) ==
            Lines(MaskDump(p, dump)) + Lines(MaskItem(p, last, DumpDraws(p, dump)))
    ensures DumpDraws(p, dump + [last]) == DumpDraws(p, dump) + ItemDraws(p, last)
  {
    assert (dump + [last])[..|dump|] == dump;
    LinesConcat(MaskDump(p, dump), MaskItem(p, last, DumpDraws(p, dump)));
  }

  predicate AllKnown(p: Profile, dump: seq<Item>)
  {
    forall item | item in dump :: ItemKnown(p, item)
  }

  /** The stream has computed the block-level meaning of the dump. */
  predicate Computed(p: Profile, dump: seq<Item>, st: Stream)
  {
    Idle(st) && st.out == Lines(MaskDump(p, dump)) && st.draws == DumpDraws(p, dump)
  }

  /** The streaming relay refines the block-level spec: on the printed lines of a
      well-formed dump it writes the printed lines of the masked dump, without
      the filtered setting, and ends between blocks. It raises if and only if
      some ruled field has an unknown provider. */
  lemma {:induction false} RelayRefinesSpec(p: Profile, dump: seq<Item>)
    requires forall item | item in dump :: WellFormed(item) && NoTimeoutRows(item)
    ensures var st := Relay(p, Lines(dump));
            if AllKnown(p, dump) then Computed(p, dump, st) else st.failed
  {
    hide Step, Computed, Lines, ItemLines, WellFormed, NoTimeoutRows, ItemKnown;
    if dump == [] {
      NothingComputedYet(p, dump);
    } else {
      var init, last := dump[..|dump| - 1], dump[|dump| - 1];
      assert dump == init + [last];
      RelayRefinesSpec(p, init);
      LinesSnoc(init, last);
      FoldConcat(StepOf(p), FRESH, Lines(init), ItemLines(last));
      var st := Relay(p, Lines(init));
      if AllKnown(p, init) {
        ItemComputed(p, init, last, st);
      } else {
        FailedStays(p, st, ItemLines(last));
      }
    }
  }

  lemma NothingComputedYet(p: Profile, dump: seq<Item>)
    requires dump == []
    ensures AllKnown(p, dump) && Computed(p, dump, Relay(p, Lines(dump)))
  {
  }

  lemma ItemComputed(p: Profile, init: seq<Item>, last: Item, st: Stream)
    requires Computed(p, init, st) && WellFormed(last) && NoTimeoutRows(last)
    ensures var end := Fold(StepOf(p), st, ItemLines(last));
            if ItemKnown(p, last) then Computed(p, init + [last], end) else end.failed
  {
    hide Step, Fold, WellFormed, NoTimeoutRows, ItemKnown, Lines, MaskItem, ItemLines, MaskDump, ItemDraws;
    ItemRun(p, st, last);
    MaskDumpSnoc(p, init, last);
    DrawsSnoc(p, init, last);
  }

  lemma DrawsSnoc(p: Profile, init: seq<Item>, last: Item)
    ensures DumpDraws(p, init + [last]) == DumpDraws(p, init) + ItemDraws(p, last)
  {
    hide ItemDraws;
    assert (init + [last])[..|init|] == init;
  }

  lemma {:induction false} FailedStays(p: Profile, st: Stream, lines: seq<string>)
    requires st.failed
    ensures Fold(StepOf(p), st, lines) == st
  {
    if lines != [] { FailedStays(p, st, lines[..|lines| - 1]); }
  }

  /** A block alone, relayed. */
  lemma BlockOut(p: Profile, item: Item)
    requires item.Copy? && WellFormed(item) && NoTimeoutRows(item) && ItemKnown(p, item)
    ensures Relay(p, ItemLines(item)).out == ItemLines(item.(rows := MaskBlock(p, item, 0)))
  {
    hide Step, Fold, WellFormed, NoTimeoutRows, ItemKnown, ItemLines, MaskBlock, Lines;
    var masked := item.(rows := MaskBlock(p, item, 0));
    ItemRun(p, FRESH, item);
    OneItem(masked);
    assert MaskItem(p, item, 0) == [masked];
    assert FRESH.out + Lines([masked]) == Lines([masked]);
  }

  // ----------------------------------------------- rows that look like the setting

  /** The lines the filter lets through. */
  function Kept(lines: seq<string>): (kept: seq<string>)
  {
    if lines == [] then []
    else
      var last := lines[|lines| - 1];
      Kept(lines[..|lines| - 1]) + if TIMEOUT <= last then [] else [last]
  }

  lemma {:induction false} KeptConcat(a: seq<string>, b: seq<string>)
    ensures Kept(a + b) == Kept(a) + Kept(b)
  {
    if b == [] {
      assert a + b == a;
    } else {
      var init := b[..|b| - 1];
      assert (a + b)[..|a + b| - 1] == a + init;
      KeptConcat(a, init);
    }
  }

  lemma StepCounts(p: Profile, st: Stream, line: string)
    ensures var next := Step(p, st, line);
            && (st.failed ==> next == st)
            && (!st.failed ==> |next.out| == |st.out| + if next.failed || TIMEOUT <= line then 0 else 1)
            && (next.failed && !st.failed ==> !(TIMEOUT <= line))
  {
  }

  /** For every input, one line out for every line the filter lets through, up to
      an unknown provider. */
  lemma {:induction false} OneLinePerKeptLine(p: Profile, lines: seq<string>)
    ensures var st := Relay(p, lines);
            |st.out| <= |Kept(lines)| && (st.failed <==> |st.out| < |Kept(lines)|)
  {
    if lines != [] {
      OneLinePerKeptLine(p, lines[..|lines| - 1]);
      StepCounts(p, Relay(p, lines[..|lines| - 1]), lines[|lines| - 1]);
    }
  }

  lemma {:induction false} KeptRows(rows: seq<seq<string>>)
    ensures |Kept(RowLines(rows))| <= |rows|
    ensures |Kept(RowLines(rows))| == |rows| ==> forall row | row in rows :: !TimeoutRow(row)
  {
    if rows != [] {
      var init, last := rows[..|rows| - 1], rows[|rows| - 1];
      assert rows == init + [last];
      KeptRows(init);
      assert RowLines(rows)[..|rows| - 1] == RowLines(init);
    }
  }

  lemma KeptItem(p: Profile, item: Item, k: nat)
    ensures |Kept(ItemLines(item))| <= |Lines(MaskItem(p, item, k))|
    ensures |Kept(ItemLines(item))| == |Lines(MaskItem(p, item, k))| ==> NoTimeoutRows(item)
  {
    if item.Copy? {
      var header := Header(item.name, item.columns, item.tail);
      KeptConcat([header] + RowLines(item.rows), [END]);
      KeptConcat([header], RowLines(item.rows));
      KeptRows(item.rows);
      MaskRowsLength(p, TableOf(item.name), ColumnNames(item.columns), item.rows, k);
      OneItem(item.(rows := MaskBlock(p, item, k)));
      assert |Kept([header])| <= 1 && |Kept([END])| <= 1;
    } else {
      OneItem(item);
      assert [item.line][..0] == [];
    }
  }

  lemma {:induction false} KeptDump(p: Profile, dump: seq<Item>)
    ensures |Kept(Lines(dump))| <= |Lines(MaskDump(p, dump))|
    ensures |Kept(Lines(dump))| == |Lines(MaskDump(p, dump))| ==> forall item | item in dump :: NoTimeoutRows(item)
  {
    if dump != [] {
      var init, last := dump[..|dump| - 1], dump[|dump| - 1];
      assert dump == init + [last];
      KeptDump(p, init);
      KeptConcat(Lines(init), ItemLines(last));
      KeptItem(p, last, DumpDraws(p, init));
      MaskDumpSnoc(p, init, last);
    }
  }

  /** Exactly when the relay computes the block-level meaning: no data row begins
      like the filtered setting (such a row is dropped, because the filter is
      tried before the block state), and all providers are known. */
  lemma RelayRefinesSpecIff(p: Profile, dump: seq<Item>)
    requires forall item | item in dump :: WellFormed(item)
    ensures Relay(p, Lines(dump)).out == Lines(MaskDump(p, dump)) <==>
            AllKnown(p, dump) && forall item | item in dump :: NoTimeoutRows(item)
  {
    OneLinePerKeptLine(p, Lines(dump));
    KeptDump(p, dump);
    if forall item | item in dump :: NoTimeoutRows(item) { RelayRefinesSpec(p, dump); }
  }

  /** Without any rules the relay is exactly the filter, for every input. */
  lemma {:induction false} WithoutRulesRelayIsFilter(p: Profile, lines: seq<string>)
    requires forall table :: p.RulesFor(table) == map[]
    ensures var st := Relay(p, lines);
            st.out == Kept(lines) && st.draws == 0 && !st.failed && st.rules == map[]
  {
    if lines != [] {
      WithoutRulesRelayIsFilter(p, lines[..|lines| - 1]);
    }
  }

  // ------------------------------------------------------------------- warnings

  /** The line is a header of that table, which is copied without a profile. */
  predicate Unprofiled(p: Profile, line: string, table: string)
  {
    var header := ParseCopy(line);
    && !(TIMEOUT <= line) && header.Some? && TableOf(header.value.0) == table
    && p.wholeDb && (table in p.rules ==> p.rules[table] == map[])
  }

  lemma StepWarns(p: Profile, st: Stream, line: string)
    requires !st.failed
    ensures WarnsOnce((l, t) => Unprofiled(p, l, t), line, st.warned, Step(p, st, line).warned)
  {
    hide ParseCopy, TableOf, ColumnNames, Fields, MaskedRow, ProvidersKnown, DrawsOfRow, RowLine;
    var passes, next := (l, t) => Unprofiled(p, l, t), Step(p, st, line);
    var header := ParseCopy(line);
    if header.Some? && !(TIMEOUT <= line) {
      var t := TableOf(header.value.0);
      assert passes(line, t) <==> p.wholeDb && p.RulesFor(t) == map[];
      assert next.warned == if passes(line, t) && t !in st.warned then st.warned + [t] else st.warned;
    } else {
      assert next.warned == st.warned;
    }
  }

  lemma OneUnprofiledTable(p: Profile, line: string, t: string, u: string)
    requires Unprofiled(p, line, t) && Unprofiled(p, line, u)
    ensures t == u
  {
  }

  /** Each table is named at most once, and exactly when a block of it was copied
      without a profile in a whole-database run. */
  lemma {:induction false} WarnsOncePerUnprofiledTable(p: Profile, lines: seq<string>)
    ensures var st := Relay(p, lines);
            WarnedRightly((l, t) => Unprofiled(p, l, t), lines, st.warned, st.failed)
  {
    hide Step, Unprofiled, WarnedRightly, WarnsOnce;
    var passes := (l, t) => Unprofiled(p, l, t);
    if lines == [] {
      NothingNamed(passes);
    } else {
      var init, last := lines[..|lines| - 1], lines[|lines| - 1];
      var st := Relay(p, init);
      WarnsOncePerUnprofiledTable(p, init);
      assert lines == init + [last] && Relay(p, lines) == Step(p, st, last);
      if st.failed {
        StepCounts(p, st, last);
        CutStaysRight(passes, init, last, st.warned);
      } else {
        StepWarns(p, st, last);
        forall t, u | passes(last, t) && passes(last, u) ensures t == u { OneUnprofiledTable(p, last, t, u); }
        NamedOnce(passes, init, last, st.warned, Step(p, st, last).warned, Step(p, st, last).failed);
      }
    }
  }

  // ---------------------------------------------------------- noninterference

  /** Rows that differ in ruled columns only. */
  predicate SameRows(p: Profile, table: string, columns: seq<string>, a: seq<seq<string>>, b: seq<seq<string>>)
  {
    && |a| == |b|
    && forall i | 0 <= i < |a| ::
         && |a[i]| == |b[i]|
         && forall j: nat | j < |a[i]| ::
              Ruled(p.RulesFor(table), columns, |a[i]|, j) || a[i][j] == b[i][j]
  }

  predicate SameOutsideRules(p: Profile, a: Item, b: Item)
  {
    match a
    case Stmt(_) => a == b
    case Copy(name, columns, tail, rows) =>
      b.Copy? && b.name == name && b.columns == columns && b.tail == tail &&
      SameRows(p, TableOf(name), ColumnNames(columns), rows, b.rows)
  }

  predicate Relayable(item: Item)
  {
    WellFormed(item) && NoTimeoutRows(item)
  }

  lemma MaskLineNoninterference(p: Profile, st: Stream, a: seq<string>, b: seq<string>)
    requires InBlock(p, st) && DataRow(a) && DataRow(b) && !TimeoutRow(a) && !TimeoutRow(b)
    requires |a| == |b|
    requires forall j: nat | j < |a| :: Ruled(p.RulesFor(st.table), st.columns, |a|, j) || a[j] == b[j]
    ensures Step(p, st, RowLine(a)) == Step(p, st, RowLine(b))
  {
    MaskedRowStep(p, st, a);
    MaskedRowStep(p, st, b);
    RowNoninterference(p, AS_IS, st.table, st.columns, a, b, st.draws);
  }

  lemma {:induction false} MaskedRowsNoninterference(p: Profile, st: Stream, a: seq<seq<string>>, b: seq<seq<string>>)
    requires InBlock(p, st) && SameRows(p, st.table, st.columns, a, b)
    requires forall row | row in a + b :: DataRow(row) && !TimeoutRow(row)
    ensures Fold(StepOf(p), st, RowLines(a)) == Fold(StepOf(p), st, RowLines(b))
  {
    if a != [] {
      var initA, initB := a[..|a| - 1], b[..|b| - 1];
      var lastA, lastB := a[|a| - 1], b[|b| - 1];
      assert a == initA + [lastA] && b == initB + [lastB];
      MaskedRowsNoninterference(p, st, initA, initB);
      MaskedRowsRun(p, st, initA);
      var mid := Fold(StepOf(p), st, RowLines(initA));
      RowLinesSnoc(initA, lastA);
      RowLinesSnoc(initB, lastB);
      FoldSnoc(StepOf(p), st, RowLines(initA), RowLine(lastA));
      FoldSnoc(StepOf(p), st, RowLines(initB), RowLine(lastB));
      hide Fold, RowLines, RowLine, DataRow, Ruled;
      if !mid.failed { MaskLineNoninterference(p, mid, lastA, lastB); }
    }
  }

  lemma RowsNoninterference(p: Profile, st: Stream, a: seq<seq<string>>, b: seq<seq<string>>)
    requires st.table != "" && st.rules == p.RulesFor(st.table) && !st.failed
    requires SameRows(p, st.table, st.columns, a, b)
    requires forall row | row in a + b :: DataRow(row) && !TimeoutRow(row)
    ensures Fold(StepOf(p), st, RowLines(a)) == Fold(StepOf(p), st, RowLines(b))
  {
    if st.rules == map[] {
      forall i | 0 <= i < |a| ensures a[i] == b[i] {
        assert forall j: nat | j < |a[i]| :: a[i][j] == b[i][j];
      }
      assert a == b;
    } else {
      MaskedRowsNoninterference(p, st, a, b);
    }
  }

  lemma {:induction false} RowLinesPrefix(rows: seq<seq<string>>, n: nat)
    requires n <= |rows|
    ensures RowLines(rows)[..n] == RowLines(rows[..n])
  {
    if n < |rows| {
      RowLinesPrefix(rows[..|rows| - 1], n);
      assert rows[..|rows| - 1][..n] == rows[..n];
    } else {
      assert rows[..n] == rows;
    }
  }

  /** The lines of a block up to line `n`, by its parts. */
  lemma CopyPrefix(item: Item, n: nat)
    requires item.Copy? && 0 < n <= |item.rows| + 1
    ensures |ItemLines(item)| == |item.rows| + 2
    ensures ItemLines(item)[..n] == [Header(item.name, item.columns, item.tail)] + RowLines(item.rows[..n - 1])
  {
    var header := Header(item.name, item.columns, item.tail);
    RowLinesPrefix(item.rows, n - 1);
    SlicePrefix([header], RowLines(item.rows), [END], n - 1);
  }

  lemma SlicePrefix<T>(a: seq<T>, b: seq<T>, c: seq<T>, n: nat)
    requires n <= |b|
    ensures (a + b + c)[..|a| + n] == a + b[..n]
  {
  }

  lemma BlockPrefixNoninterference(p: Profile, st: Stream, a: Item, b: Item, n: nat)
    requires Idle(st) && a.Copy? && Relayable(a) && Relayable(b) && SameOutsideRules(p, a, b)
    requires n <= |a.rows|
    ensures var header := Header(a.name, a.columns, a.tail);
            Fold(StepOf(p), st, [header] + RowLines(a.rows[..n])) ==
            Fold(StepOf(p), st, [header] + RowLines(b.rows[..n]))
  {
    var header := Header(a.name, a.columns, a.tail);
    HeaderStep(p, st, a);
    var block := Step(p, st, header);
    FoldSnoc(StepOf(p), st, [], header);
    assert [] + [header] == [header];
    RowsNoninterference(p, block, a.rows[..n], b.rows[..n]);
    FoldConcat(StepOf(p), st, [header], RowLines(a.rows[..n]));
    FoldConcat(StepOf(p), st, [header], RowLines(b.rows[..n]));
  }

  /** Two items that differ in ruled columns only run alike, line by line. */
  lemma ItemNoninterference(p: Profile, st: Stream, a: Item, b: Item, n: nat)
    requires Idle(st) && Relayable(a) && Relayable(b) && SameOutsideRules(p, a, b)
    requires n <= |ItemLines(a)|
    ensures |ItemLines(a)| == |ItemLines(b)|
    ensures Fold(StepOf(p), st, ItemLines(a)[..n]) == Fold(StepOf(p), st, ItemLines(b)[..n])
  {
    hide Step, Relayable, Header, RowLines, Fold;
    if a.Copy? {
      var m := |a.rows|;
      CopyPrefix(a, m + 1);
      CopyPrefix(b, m + 1);
      if 0 < n <= m + 1 {
        CopyPrefix(a, n);
        CopyPrefix(b, n);
        BlockPrefixNoninterference(p, st, a, b, n - 1);
      } else if n == m + 2 {
        BlockPrefixNoninterference(p, st, a, b, m);
        assert a.rows[..m] == a.rows && b.rows[..m] == b.rows;
        var header := Header(a.name, a.columns, a.tail);
        FoldSnoc(StepOf(p), st, [header] + RowLines(a.rows), END);
        FoldSnoc(StepOf(p), st, [header] + RowLines(b.rows), END);
        assert ItemLines(a)[..n] == ItemLines(a) && ItemLines(b)[..n] == ItemLines(b);
      }
    }
  }

  /** Well-formed dumps that differ in ruled columns only. */
  predicate Alike(p: Profile, a: seq<Item>, b: seq<Item>)
  {
    |a| == |b| && forall i | 0 <= i < |a| :: AlikeItems(p, a[i], b[i])
  }

  predicate AlikeItems(p: Profile, a: Item, b: Item)
  {
    Relayable(a) && Relayable(b) && SameOutsideRules(p, a, b)
  }

  /** Fields in positions that the relay reads as ruled leave no trace: two
      well-formed dumps that differ in such positions only are relayed alike
      under the same draws, at every prefix of the stream. */
  lemma {:induction false} RelayNoninterference(p: Profile, a: seq<Item>, b: seq<Item>, n: nat)
    requires Alike(p, a, b) && n <= |Lines(a)|
    ensures |Lines(a)| == |Lines(b)|
    ensures Relay(p, Lines(a)[..n]) == Relay(p, Lines(b)[..n])
    decreases |a|
  {
    hide Step, Fold, ItemLines, Relayable, SameOutsideRules, Lines, Relay;
    if a != [] {
      var initA, initB := a[..|a| - 1], b[..|b| - 1];
      var lastA, lastB := a[|a| - 1], b[|b| - 1];
      assert AlikeItems(p, lastA, lastB);
      assert a == initA + [lastA] && b == initB + [lastB];
      LinesSnoc(initA, lastA);
      LinesSnoc(initB, lastB);
      var x, y := Lines(initA), Lines(initB);
      RelayNoninterference(p, initA, initB, if n <= |x| then n else |x|);
      if n <= |x| {
        ItemNoninterference(p, FRESH, lastA, lastB, 0);
        PrefixesAgree(p, x, y, ItemLines(lastA), ItemLines(lastB), n);
      } else {
        assert forall i | 0 <= i < |initA| :: AlikeItems(p, initA[i], initB[i]);
        LastItemNoninterference(p, initA, Relay(p, x), lastA, lastB, n - |x|);
        RunsAgree(p, x, y, ItemLines(lastA), ItemLines(lastB), n - |x|);
      }
    }
  }

  lemma PrefixesAgree(p: Profile, x: seq<string>, y: seq<string>, s: seq<string>, t: seq<string>, n: nat)
    requires n <= |x| == |y| && Relay(p, x[..n]) == Relay(p, y[..n])
    ensures Relay(p, (x + s)[..n]) == Relay(p, (y + t)[..n])
  {
    assert (x + s)[..n] == x[..n] && (y + t)[..n] == y[..n];
  }

  lemma RunsAgree(p: Profile, x: seq<string>, y: seq<string>, s: seq<string>, t: seq<string>, n: nat)
    requires |x| == |y| && |s| == |t| && n <= |s|
    requires Relay(p, x[..|x|]) == Relay(p, y[..|x|])
    requires Fold(StepOf(p), Relay(p, x), s[..n]) == Fold(StepOf(p), Relay(p, x), t[..n])
    ensures Relay(p, (x + s)[..|x| + n]) == Relay(p, (y + t)[..|x| + n])
  {
    hide Step;
    assert x[..|x|] == x && y[..|x|] == y;
    FoldPrefix(StepOf(p), FRESH, x, s, n);
    FoldPrefix(StepOf(p), FRESH, y, t, n);
  }

  lemma LastItemNoninterference(p: Profile, init: seq<Item>, st: Stream, a: Item, b: Item, n: nat)
    requires (forall item | item in init :: Relayable(item)) && st == Relay(p, Lines(init))
    requires Relayable(a) && Relayable(b) && SameOutsideRules(p, a, b)
    requires n <= |ItemLines(a)|
    ensures |ItemLines(a)| == |ItemLines(b)|
    ensures Fold(StepOf(p), st, ItemLines(a)[..n]) == Fold(StepOf(p), st, ItemLines(b)[..n])
  {
    hide Step, Fold, ItemLines, SameOutsideRules, Lines, WellFormed, NoTimeoutRows;
    RelayRefinesSpec(p, init);
    if st.failed {
      ItemNoninterference(p, FRESH, a, b, n);
      FailedStays(p, st, ItemLines(a)[..n]);
      FailedStays(p, st, ItemLines(b)[..n]);
    } else {
      ItemNoninterference(p, st, a, b, n);
    }
  }

  // ------------------------------------------- why rows must not look like headers

  lemma TwoSteps(p: Profile, st: Stream, a: string, b: string)
    ensures Fold(StepOf(p), st, [a, b]) == Step(p, Step(p, st, a), b)
  {
    FoldSnoc(StepOf(p), st, [], a);
    FoldSnoc(StepOf(p), st, [a], b);
    assert [] + [a] == [a] && [a] + [b] == [a, b];
  }

  /** A data row of a masked table that has the shape of a COPY header switches
      the relay to the table it names: the rows after it pass unmasked. */
  lemma HeaderRowUnmasksTheRest(p: Profile, st: Stream, name: string, columns: string, tail: string, row: string)
    requires InBlock(p, st) && HeaderParts(name, columns, tail) && p.RulesFor(TableOf(name)) == map[]
    requires !(TIMEOUT <= row) && ParseCopy(row).None? && row != END
    ensures var header := Header(name, columns, tail);
            var next := Fold(StepOf(p), st, [header, row]);
            next.out == st.out + [header, row] && next.draws == st.draws
  {
    var header := Header(name, columns, tail);
    TwoSteps(p, st, header, row);
    ParseCopyExact(header, name, columns);
    assert header[0] == 'C';
    assert st.out + [header, row] == (st.out + [header]) + [row];
  }

  /** A concrete dump in which a data row is lost. */
  lemma LostRowExample(p: Profile)
    requires forall table :: p.RulesFor(table) == map[]
    ensures var row := ["SET transaction_timeout"];
            var dump := [Copy("t", "a", "\n", [row])];
            && WellFormed(dump[0])
            && RowLine(row) in Lines(MaskDump(p, dump)) && RowLine(row) !in Relay(p, Lines(dump)).out
  {
    var row := ["SET transaction_timeout"];
    var item := Copy("t", "a", "\n", [row]);
    var line := RowLine(row);
    assert TIMEOUT <= line;
    LostRowIsWellFormed();
    OneItem(item);
    assert RowLines([row]) == [line] by { assert [row][..0] == []; }
    WithoutRulesRelayIsFilter(p, Lines([item]));
    LostRowSpec(p, item);
    KeptHasNoTimeout(Lines([item]));
  }

  lemma LostRowIsWellFormed()
    ensures WellFormed(Copy("t", "a", "\n", [["SET transaction_timeout"]]))
  {
    var row := ["SET transaction_timeout"];
    assert "\n" in LinePatterns.TAILS;
    assert TableOf("t") == "t";
    SettingIsDataRow(row);
    hide DataRow, TableOf;
  }

  lemma SettingIsDataRow(row: seq<string>)
    requires row == ["SET transaction_timeout"]
    ensures DataRow(row)
  {
    hide ParseCopy;
    var line := RowLine(row);
    assert line[0] == 'S';
    if ParseCopy(line).Some? {
      var (name, columns) := ParseCopy(line).value;
      ParseCopyExact(line, name, columns);
    }
  }

  lemma LostRowSpec(p: Profile, item: Item)
    requires item.Copy? && p.RulesFor(TableOf(item.name)) == map[]
    ensures Lines(MaskDump(p, [item])) == Lines([item])
  {
    assert [item][..0] == [];
    assert MaskDump(p, [item]) == [item];
  }

  lemma {:induction false} KeptHasNoTimeout(lines: seq<string>)
    ensures forall line | line in Kept(lines) :: !(TIMEOUT <= line)
  {
    if lines != [] { KeptHasNoTimeout(lines[..|lines| - 1]); }
  }
}
