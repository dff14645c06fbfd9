/** What the MySQL relay guarantees about whole dumps. */
module MysqlDump {
  import opened Text
  import opened Masking
  import opened MysqlTokens
  import opened MysqlRelay
  import opened Streams
  import opened Warnings

  // ------------------------------------------------------- reading a line back

  /** The masked form of a recognised line whose table has rules. */
  function MaskedValues(p: Profile, ins: Insert, k: nat): seq<string>
  {
    MaskedRow(p, QuoteValue, ins.table, ColumnNames(ins.columns), Tokenise(ins.values), k)
  }

  /** The masks drawn for the line, by position. */
  function MasksOf(p: Profile, ins: Insert, k: nat): (masks: map<nat, string>)
  {
    var columns, n := ColumnNames(ins.columns), |Tokenise(ins.values)|;
    map i: nat | i < n && Ruled(p.RulesFor(ins.table), columns, n, i) ::
      MaskAt(p, ins.table, columns, n, k, i)
  }

  lemma MaskedIsReplaced(p: Profile, ins: Insert, k: nat)
    ensures MaskedValues(p, ins, k) == Replaced(Tokenise(ins.values), MasksOf(p, ins, k))
  {
  }

  /** Position by position: ruled values decode to their masks, which are what the
      column's length leaves of the drawn texts, and all others are unchanged
      character for character. */
  lemma MaskedPositions(p: Profile, ins: Insert, k: nat, i: nat)
    requires i < |Tokenise(ins.values)|
    ensures var masks, row := MasksOf(p, ins, k), MaskedValues(p, ins, k);
            && |row| == |Tokenise(ins.values)|
            && (i in masks <==> i < |ColumnNames(ins.columns)| && ColumnNames(ins.columns)[i] in p.RulesFor(ins.table))
            && (i in masks ==>
                  && Decode(row[i]) == Some(masks[i])
                  && IsMaskOf(p, ins.table, ColumnNames(ins.columns), |row|, k, i, masks[i]))
            && (i !in masks ==> row[i] == Tokenise(ins.values)[i])
  {
    var masks := MasksOf(p, ins, k);
    if i in masks {
      QuoteIsLossless(masks[i]);
      MaskAtIsMaskOf(p, ins.table, ColumnNames(ins.columns), |Tokenise(ins.values)|, k, i);
    }
  }

  /** The value the server stores for a ruled column is the drawn text, cut to the
      column's declared length, because masks are cut before they are quoted. */
  lemma StoredMaskFits(p: Profile, ins: Insert, k: nat, i: nat, length: nat)
    requires i in MasksOf(p, ins, k)
    requires var column := ColumnNames(ins.columns)[i];
             ins.table in p.lengths && column in p.lengths[ins.table] && p.lengths[ins.table][column] == length
    ensures var columns := ColumnNames(ins.columns);
            var drawn := p.fake(p.rules[ins.table][columns[i]],
                                k + |NamedBefore(p, ins.table, columns, |Tokenise(ins.values)|, i)|);
            var stored := Decode(MaskedValues(p, ins, k)[i]);
            stored.Some? && stored.value <= drawn && |stored.value| == if |drawn| <= length then |drawn| else length
  {
    hide MaskAt, NamedBefore, Tokenise, ColumnNames, MaskedValues, Decode;
    MaskedPositions(p, ins, k, i);
  }

  /** The rewritten line is recognised again, with the same table, column list
      and values, if and only if no mask brings in a line end. */
  lemma RewrittenLineReadsBackIff(p: Profile, ins: Insert, k: nat)
    requires InsertParts(ins)
    ensures var masks := MasksOf(p, ins, k);
            var rewritten := ins.(values := Join(',', MaskedValues(p, ins, k)));
            ParseInsert(PrintInsert(rewritten)) == Some(rewritten) <==>
            forall i: nat | i in masks :: '\n' !in masks[i]
  {
    var tokens, row, masks := Tokenise(ins.values), MaskedValues(p, ins, k), MasksOf(p, ins, k);
    MaskedIsReplaced(p, ins, k);
    InJoin(',', tokens, '\n');
    InJoin(',', row, '\n');
    PrintedInsertReadsBackIff(ins.(values := Join(',', row)));
    forall i: nat | i < |row| ensures '\n' in row[i] <==> i in masks && '\n' in masks[i] {
      assert '\n' !in tokens[i];
      if i in masks { QuotingKeepsOthers(masks[i], '\n'); }
    }
    assert forall i: nat | i in masks :: i < |row|;
  }

  /** Its values are tokenised back one by one if and only if no mask before the
      last position ends in a backslash. */
  lemma RewrittenValuesReadBackIff(p: Profile, ins: Insert, k: nat)
    ensures var row, masks := MaskedValues(p, ins, k), MasksOf(p, ins, k);
            Tokenise(Join(',', row)) == row <==>
            forall i: nat | i in masks && i < |row| - 1 :: !EndsInBackslash(masks[i])
  {
    MaskedIsReplaced(p, ins, k);
    ReplacedRowReadsBackIff(ins.values, MasksOf(p, ins, k));
  }

  // ------------------------------------------------------------- stream facts

  /** What one line does to the stream, whatever it holds. */
  lemma StepShape(p: Profile, st: Stream, line: string)
    ensures var next := Step(p, st, line);
            && st.out <= next.out
            && (st.failed ==> next == st)
            && (!st.failed ==> |next.out| == |st.out| + if next.failed then 0 else 1)
  {
    hide ParseInsert, PrintInsert, Tokenise, ColumnNames, ProvidersKnown, MaskedRow, DrawsOfRow, Join, QuoteValue;
  }

  /** One line out for every line in, up to an unknown provider. */
  lemma {:induction false} LineCount(p: Profile, lines: seq<string>)
    ensures var st := Relay(p, lines);
            |st.out| <= |lines| && (st.failed <==> |st.out| < |lines|)
  {
    if lines != [] {
      LineCount(p, lines[..|lines| - 1]);
      StepShape(p, Relay(p, lines[..|lines| - 1]), lines[|lines| - 1]);
    }
  }

  /** What was written for a prefix of the dump is never taken back. */
  lemma OutputOnlyGrows(p: Profile, lines: seq<string>, rest: seq<string>)
    ensures Relay(p, lines).out <= Relay(p, lines + rest).out
  {
    var out := (st: Stream) => st.out;
    forall st, line ensures out(st) <= out(StepOf(p)(st, line)) {
      StepShape(p, st, line);
    }
    FoldGrows(StepOf(p), FRESH, out, lines, rest);
  }

  predicate Unprofiled(p: Profile, line: string, table: string)
  {
    var ins := ParseInsert(line);
    ins.Some? && ins.value.table == table && p.wholeDb && (table in p.rules ==> p.rules[table] == map[])
  }

  lemma StepWarns(p: Profile, st: Stream, line: string)
    requires !st.failed
    ensures WarnsOnce((l, t) => Unprofiled(p, l, t), line, st.warned, Step(p, st, line).warned)
  {
    hide ParseInsert, PrintInsert, Tokenise, ColumnNames, ProvidersKnown, MaskedRow, DrawsOfRow, Join, QuoteValue;
    var passes, next := (l, t) => Unprofiled(p, l, t), Step(p, st, line);
    var ins := ParseInsert(line);
    if ins.Some? {
      var t := ins.value.table;
      assert passes(line, t) <==> p.wholeDb && p.RulesFor(t) == map[];
      assert next.warned == if passes(line, t) && t !in st.warned then st.warned + [t] else st.warned;
    } else {
      assert next.warned == st.warned;
    }
  }

  /** Warnings: each table is named at most once, and exactly when rows of it passed
      without a profile in a whole-database run. */
  lemma {:induction false} WarnsOncePerUnprofiledTable(p: Profile, lines: seq<string>)
    ensures var st := Relay(p, lines);
            WarnedRightly((l, t) => Unprofiled(p, l, t), lines, st.warned, st.failed)
  {
    hide Step, Unprofiled, WarnedRightly, WarnsOnce;
    var passes := (l, t) => Unprofiled(p, l, t);
    if lines == [] {
      NothingNamed(passes);
    } else {
      var init, last := lines[..|lines| - 1], lines[|lines| - 1];
      var st := Relay(p, init);
      WarnsOncePerUnprofiledTable(p, init);
      assert lines == init + [last] && Relay(p, lines) == Step(p, st, last);
      if st.failed {
        StepShape(p, st, last);
        CutStaysRight(passes, init, last, st.warned);
      } else {
        StepWarns(p, st, last);
        forall t, u | passes(last, t) && passes(last, u) ensures t == u { OneUnprofiledTable(p, last, t, u); }
        NamedOnce(passes, init, last, st.warned, Step(p, st, last).warned, Step(p, st, last).failed);
      }
    }
  }

  lemma OneUnprofiledTable(p: Profile, line: string, t: string, u: string)
    requires Unprofiled(p, line, t) && Unprofiled(p, line, u)
    ensures t == u
  {
  }

  // --------------------------------------------------------- noninterference

  /** A dump as its author sees it: data rows and all other lines. */
  datatype Item =
    | Other(line: string)
    | Row(table: string, columns: string, values: seq<Literal>)

  function ItemLine(item: Item): string
  {
    match item
    case Other(line) => line
    case Row(table, columns, values) => PrintInsert(Insert(table, columns, Join(',', LiteralTexts(values))))
  }

  function Lines(dump: seq<Item>): (lines: seq<string>)
    ensures |lines| == |dump|
    ensures forall i | 0 <= i < |dump| :: lines[i] == ItemLine(dump[i])
  {
    seq(|dump|, i requires 0 <= i < |dump| => ItemLine(dump[i]))
  }

  /** A row the dump tool can have written and the relay can take apart. */
  predicate Separable(item: Item)
  {
    item.Row? ==>
      && item.values != [] && (forall l | l in item.values :: ValidLiteral(l))
      && (forall i | 0 <= i < |item.values| - 1 :: !EndsInEscapedBackslash(item.values[i]))
      && InsertParts(Insert(item.table, item.columns, Join(',', LiteralTexts(item.values))))
  }

  /** The items differ in ruled values only. */
  predicate SameOutsideRules(p: Profile, a: Item, b: Item)
  {
    || a == b
    || (&& a.Row? && b.Row? && a.table == b.table && a.columns == b.columns && |a.values| == |b.values|
        && forall i: nat | i < |a.values| ::
             Ruled(p.RulesFor(a.table), ColumnNames(a.columns), |a.values|, i) || a.values[i] == b.values[i])
  }

  /** Lines recognised as rows that differ in ruled values only step alike. */
  lemma ParsedNoninterference(p: Profile, st: Stream, lineA: string, lineB: string, a: Insert, b: Insert)
    requires ParseInsert(lineA) == Some(a) && ParseInsert(lineB) == Some(b)
    requires a.table == b.table && a.columns == b.columns && p.RulesFor(a.table) != map[]
    requires var s, t := Tokenise(a.values), Tokenise(b.values);
             |s| == |t| && forall i | 0 <= i < |s| ::
               Ruled(p.RulesFor(a.table), ColumnNames(a.columns), |s|, i) || s[i] == t[i]
    ensures Step(p, st, lineA) == Step(p, st, lineB)
  {
    hide ParseInsert, PrintInsert, Tokenise, ColumnNames, MaskedRow, DrawsOfRow, ProvidersKnown, Join, Ruled;
    var s, t := Tokenise(a.values), Tokenise(b.values);
    RowNoninterference(p, QuoteValue, a.table, ColumnNames(a.columns), s, t, st.draws);
  }

  lemma SeparableReadsBack(item: Item)
    requires item.Row? && Separable(item)
    ensures var texts := LiteralTexts(item.values);
            && Tokenise(Join(',', texts)) == texts
            && ParseInsert(ItemLine(item)) == Some(Insert(item.table, item.columns, Join(',', texts)))
  {
    PrintedInsertReadsBackIff(Insert(item.table, item.columns, Join(',', LiteralTexts(item.values))));
    DumpedRowTokenisesIff(item.values);
  }

  lemma StepNoninterference(p: Profile, st: Stream, a: Item, b: Item)
    requires Separable(a) && Separable(b) && SameOutsideRules(p, a, b)
    ensures Step(p, st, ItemLine(a)) == Step(p, st, ItemLine(b))
  {
    hide Step, ItemLine, Join;
    if a != b {
      SeparableReadsBack(a);
      SeparableReadsBack(b);
      var s, t := LiteralTexts(a.values), LiteralTexts(b.values);
      if p.RulesFor(a.table) != map[] {
        ParsedNoninterference(p, st, ItemLine(a), ItemLine(b),
          Insert(a.table, a.columns, Join(',', s)), Insert(b.table, b.columns, Join(',', t)));
      }
    }
  }

  /** Values in positions that the relay reads as ruled leave no trace: dumps of
      separable rows that differ in such positions only are relayed alike, at
      every prefix of the stream. */
  lemma RelayNoninterference(p: Profile, a: seq<Item>, b: seq<Item>, n: nat)
    requires |a| == |b| && n <= |a|
    requires forall i | 0 <= i < |a| :: Separable(a[i]) && Separable(b[i]) && SameOutsideRules(p, a[i], b[i])
    ensures Relay(p, Lines(a)[..n]) == Relay(p, Lines(b)[..n])
  {
    forall i, st | 0 <= i < n ensures StepOf(p)(st, Lines(a)[i]) == StepOf(p)(st, Lines(b)[i]) {
      StepNoninterference(p, st, a[i], b[i]);
    }
    FoldCongruence(StepOf(p), FRESH, Lines(a), Lines(b), n);
  }
}
