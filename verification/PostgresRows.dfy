/** Which dumps the COPY relay gets right under every profile. */
module PostgresRows {
  import opened Text
  import opened Masking
  import opened Streams
  import opened TabLines
  import opened PostgresRelay
  import opened PostgresDump

  /** A row that COPY can print: it may look like a header or like the setting. */
  predicate Printable(row: seq<string>)
  {
    row != [] && (forall f | f in row :: '\t' !in f && '\n' !in f) && RowLine(row) != END
  }

  predicate Shaped(item: Item)
  {
    match item
    case Stmt(line) => ParseCopy(line).None?
    case Copy(name, columns, tail, rows) =>
      HeaderParts(name, columns, tail) && TableOf(name) != "" && forall row | row in rows :: Printable(row)
  }

  /** A row whose line begins like the filtered setting or has the shape of a COPY
      header: what the relay tests before it looks at the block state. */
  predicate Treacherous(row: seq<string>)
  {
    TimeoutRow(row) || ParseCopy(RowLine(row)).Some?
  }

  predicate Plain(item: Item)
  {
    item.Copy? ==> forall row | row in item.rows :: !Treacherous(row)
  }

  lemma PlainIsWellFormed(item: Item)
    requires Shaped(item)
    ensures Plain(item) <==> WellFormed(item) && NoTimeoutRows(item)
  {
  }

  /** The relay computes the block-level meaning of this dump for every profile
      whose providers are known. */
  ghost predicate RefinedForAll(dump: seq<Item>)
  {
    forall p | AllKnown(p, dump) :: Relay(p, Lines(dump)).out == Lines(MaskDump(p, dump))
  }

  /** Blanks the first column of one table. */
  function Blanking(item: Item): Profile
    requires item.Copy?
  {
    Profile(map[TableOf(item.name) := map[ColumnNames(item.columns)[0] := "name"]], map[], false, (_, _) => "")
  }

  lemma BlankingIsKnown(item: Item, dump: seq<Item>)
    requires item.Copy?
    ensures AllKnown(Blanking(item), dump)
    ensures Blanking(item).RulesFor(TableOf(item.name)) != map[]
  {
    var p := Blanking(item);
    assert ColumnNames(item.columns)[0] in p.RulesFor(TableOf(item.name));
    forall table, columns, n ensures ProvidersKnown(p.RulesFor(table), columns, n) { }
  }

  lemma OutputOnlyGrows(p: Profile, lines: seq<string>, rest: seq<string>)
    ensures Relay(p, lines).out <= Relay(p, lines + rest).out
  {
    var out := (st: Stream) => st.out;
    forall st, line ensures out(st) <= out(StepOf(p)(st, line)) { StepGrows(p, st, line); }
    FoldGrows(StepOf(p), FRESH, out, lines, rest);
  }

  lemma StepGrows(p: Profile, st: Stream, line: string)
    ensures st.out <= Step(p, st, line).out
  {
    hide ParseCopy, Fields, RowLine, MaskedRow, ProvidersKnown, DrawsOfRow;
  }

  lemma {:induction false} MaskDumpPrefix(p: Profile, dump: seq<Item>, n: nat)
    requires n <= |dump|
    ensures MaskDump(p, dump[..n]) <= MaskDump(p, dump)
    decreases |dump|
  {
    if n < |dump| {
      MaskDumpPrefix(p, dump[..|dump| - 1], n);
      assert dump[..|dump| - 1][..n] == dump[..n];
    } else {
      assert dump[..n] == dump;
    }
  }

  lemma LinesPrefix(a: seq<Item>, b: seq<Item>)
    requires a <= b
    ensures Lines(a) <= Lines(b)
  {
    assert b == a + b[|a|..];
    LinesConcat(a, b[|a|..]);
  }

  /** The lines of a dump up to and including row `r` of item `m`. */
  function Upto(dump: seq<Item>, m: nat, r: nat): seq<string>
    requires m < |dump| && dump[m].Copy? && r < |dump[m].rows|
  {
    var item := dump[m];
    (Lines(dump[..m]) + ([Header(item.name, item.columns, item.tail)] + RowLines(item.rows[..r]))) + [RowLine(item.rows[r])]
  }

  lemma UptoIsPrefix(dump: seq<Item>, m: nat, r: nat)
    requires m < |dump| && dump[m].Copy? && r < |dump[m].rows|
    ensures Upto(dump, m, r) <= Lines(dump)
  {
    hide Lines, RowLines, RowLine, Header;
    var item := dump[m];
    LinesPrefix(dump[..m + 1], dump);
    assert dump[..m + 1] == dump[..m] + [item];
    LinesSnoc(dump[..m], item);
    RowLineAt(item.rows, r);
    var header := Header(item.name, item.columns, item.tail);
    CutRows(Lines(dump[..m]), [header], RowLines(item.rows), [END], r);
  }

  lemma CutRows<T>(a: seq<T>, b: seq<T>, c: seq<T>, d: seq<T>, r: nat)
    requires r < |c|
    ensures (a + (b + c[..r])) + [c[r]] <= a + (b + c + d)
    ensures (a + (b + c + d))[|a| + |b| + r] == c[r]
  {
    assert ((a + (b + c[..r])) + [c[r]]) + (c[r + 1..] + d) == a + (b + c + d);
  }

  /** What the spec prints in the place of a row: its mask, and a blank first field. */
  lemma SpecAtRow(dump: seq<Item>, m: nat, r: nat)
    requires m < |dump| && dump[m].Copy? && r < |dump[m].rows| && dump[m].rows[r] != []
    ensures var p, item := Blanking(dump[m]), dump[m];
            var at := |Lines(MaskDump(p, dump[..m]))| + 1 + r;
            var spec := Lines(MaskDump(p, dump));
            at < |spec| && !BeginsWithC(spec[at])
  {
    hide Lines, Header, RowLines, MaskDump, Blanking, BeginsWithC, MaskedRow, ItemLines, MaskRows;
    var p, item, init := Blanking(dump[m]), dump[m], dump[..m];
    var k := DumpDraws(p, init);
    var before, masked := Lines(MaskDump(p, init)), item.(rows := MaskBlock(p, item, k));
    SpecHasItem(p, dump, m);
    SpecRow(item, r, k);
    var header := [Header(item.name, item.columns, item.tail)];
    LinesOfCopy(masked);
    CutRows(before, header, RowLines(masked.rows), [END], r);
  }

  lemma LinesOfCopy(item: Item)
    requires item.Copy?
    ensures ItemLines(item) == [Header(item.name, item.columns, item.tail)] + RowLines(item.rows) + [END]
  {
    hide Header;
  }

  predicate BeginsWithC(line: string)
  {
    line != "" && line[0] == 'C'
  }

  /** The masked item within the printed spec. */
  lemma SpecHasItem(p: Profile, dump: seq<Item>, m: nat)
    requires m < |dump| && dump[m].Copy?
    ensures var masked := dump[m].(rows := MaskBlock(p, dump[m], DumpDraws(p, dump[..m])));
            Lines(MaskDump(p, dump[..m])) + ItemLines(masked) <= Lines(MaskDump(p, dump))
  {
    hide Lines, ItemLines, MaskBlock;
    var init, item := dump[..m], dump[m];
    assert dump[..m + 1] == init + [item];
    MaskDumpPrefix(p, dump, m + 1);
    LinesPrefix(MaskDump(p, init + [item]), MaskDump(p, dump));
    MaskDumpSnoc(p, init, item);
    OneItem(item.(rows := MaskBlock(p, item, DumpDraws(p, init))));
  }

  lemma SpecRow(item: Item, r: nat, k: nat)
    requires item.Copy? && r < |item.rows| && item.rows[r] != []
    ensures var masked := MaskBlock(Blanking(item), item, k);
            |masked| == |item.rows| && !BeginsWithC(RowLines(masked)[r])
  {
    hide RowLines, MaskRows, MaskedRow, Blanking, BeginsWithC;
    var p := Blanking(item);
    var table, columns := TableOf(item.name), ColumnNames(item.columns);
    BlankingIsKnown(item, []);
    MaskRowsAt(p, table, columns, item.rows, k, r);
    RowLineAt(MaskBlock(p, item, k), r);
    BlankFirst(item, item.rows[r], k + RowDraws(p, table, columns, item.rows[..r]));
  }

  lemma BlankFirst(item: Item, row: seq<string>, k: nat)
    requires item.Copy? && row != []
    ensures !BeginsWithC(RowLine(MaskedRow(Blanking(item), AS_IS, TableOf(item.name), ColumnNames(item.columns), row, k)))
  {
    var p := Blanking(item);
    var table, columns := TableOf(item.name), ColumnNames(item.columns);
    var masked := MaskedRow(p, AS_IS, table, columns, row, k);
    assert Ruled(p.RulesFor(table), columns, |row|, 0);
    assert masked[0] == MaskedValue(p, AS_IS, table, columns, row, k, 0) == "";
  }

  /** What the relay prints for the first row of the dump that has the shape of a
      header: the row itself, in that very place. */
  lemma RelayAtRow(dump: seq<Item>, m: nat, r: nat)
    requires m < |dump| && dump[m].Copy? && r < |dump[m].rows|
    requires forall i | 0 <= i < m :: WellFormed(dump[i]) && NoTimeoutRows(dump[i])
    requires Shaped(dump[m]) && NoTimeoutRows(dump[m])
    requires forall i | 0 <= i < r :: DataRow(dump[m].rows[i])
    requires ParseCopy(RowLine(dump[m].rows[r])).Some?
    ensures var p := Blanking(dump[m]);
            var at := |Lines(MaskDump(p, dump[..m]))| + 1 + r;
            var out := Relay(p, Lines(dump)).out;
            at < |out| && out[at] == RowLine(dump[m].rows[r])
  {
    hide *;
    var p, item := Blanking(dump[m]), dump[m];
    var init, line := dump[..m], RowLine(item.rows[r]);
    ItemsBefore(dump, m);
    var short := item.(rows := item.rows[..r]);
    RowsBefore(item, r);
    var mid := [Header(item.name, item.columns, item.tail)] + RowLines(short.rows);
    var st := Relay(p, Lines(init));
    RelayInBlock(p, st, short);
    HeaderPasses(p, Fold(StepOf(p), st, mid), line);
    RelayOnward(p, dump, m, r, mid, line);
  }

  lemma ItemsBefore(dump: seq<Item>, m: nat)
    requires m < |dump| && dump[m].Copy?
    requires forall i | 0 <= i < m :: WellFormed(dump[i]) && NoTimeoutRows(dump[i])
    ensures var p := Blanking(dump[m]);
            && Idle(Relay(p, Lines(dump[..m])))
            && |Relay(p, Lines(dump[..m])).out| == |Lines(MaskDump(p, dump[..m]))|
            && p.RulesFor(TableOf(dump[m].name)) != map[]
            && forall rows :: ItemKnown(p, dump[m].(rows := rows))
  {
    var p, item := Blanking(dump[m]), dump[m];
    BlankingIsKnown(item, dump[..m]);
    forall rows ensures ItemKnown(p, item.(rows := rows)) {
      BlankingIsKnown(item, [item.(rows := rows)]);
      assert item.(rows := rows) in [item.(rows := rows)];
    }
    hide WellFormed, NoTimeoutRows, Lines, MaskDump, Blanking, ItemKnown, Relay;
    RelayRefinesSpec(p, dump[..m]);
  }

  lemma RowsBefore(item: Item, r: nat)
    requires item.Copy? && Shaped(item) && NoTimeoutRows(item) && r < |item.rows|
    requires forall i | 0 <= i < r :: DataRow(item.rows[i])
    ensures var short := item.(rows := item.rows[..r]); WellFormed(short) && NoTimeoutRows(short)
    ensures !(TIMEOUT <= RowLine(item.rows[r]))
  {
    hide DataRow, Header, HeaderParts, RowLine;
    var short := item.(rows := item.rows[..r]);
    assert forall row | row in short.rows :: row in item.rows && DataRow(row);
    assert item.rows[r] in item.rows;
    assert !TimeoutRow(item.rows[r]);
  }

  /** What is printed up to row `r` stays, and the row itself comes next. */
  lemma RelayOnward(p: Profile, dump: seq<Item>, m: nat, r: nat, mid: seq<string>, line: string)
    requires m < |dump| && dump[m].Copy? && r < |dump[m].rows|
    requires mid == [Header(dump[m].name, dump[m].columns, dump[m].tail)] + RowLines(dump[m].rows[..r])
    requires line == RowLine(dump[m].rows[r])
    requires var block := Fold(StepOf(p), Relay(p, Lines(dump[..m])), mid);
             Step(p, block, line).out == block.out + [line]
    ensures var block := Fold(StepOf(p), Relay(p, Lines(dump[..m])), mid);
            var out := Relay(p, Lines(dump)).out;
            |block.out| < |out| && out[|block.out|] == line
  {
    hide Step, Lines, Header, RowLines, RowLine, Fold;
    var before := Lines(dump[..m]);
    FoldConcat(StepOf(p), FRESH, before, mid);
    FoldSnoc(StepOf(p), FRESH, before + mid, line);
    UptoIsPrefix(dump, m, r);
    var prefix := Upto(dump, m, r);
    assert prefix == before + mid + [line];
    assert Lines(dump) == prefix + Lines(dump)[|prefix|..];
    OutputOnlyGrows(p, prefix, Lines(dump)[|prefix|..]);
  }

  lemma HeaderPasses(p: Profile, st: Stream, line: string)
    requires !st.failed && !(TIMEOUT <= line) && ParseCopy(line).Some?
    ensures Step(p, st, line).out == st.out + [line]
  {
  }

  /** Into a masked block and over its rows, without its end. */
  lemma RelayInBlock(p: Profile, st: Stream, item: Item)
    requires Idle(st) && item.Copy? && WellFormed(item) && NoTimeoutRows(item)
    requires ItemKnown(p, item) && p.RulesFor(TableOf(item.name)) != map[]
    ensures var end := Fold(StepOf(p), st, [Header(item.name, item.columns, item.tail)] + RowLines(item.rows));
            !end.failed && |end.out| == |st.out| + 1 + |item.rows|
  {
    var header := Header(item.name, item.columns, item.tail);
    HeaderStep(p, st, item);
    var block := OpenBlock(p, st, item.name, item.columns).Write(header);
    FoldSnoc(StepOf(p), st, [], header);
    assert [] + [header] == [header];
    FoldConcat(StepOf(p), st, [header], RowLines(item.rows));
    MaskedRowsRun(p, block, item.rows);
    MaskRowsLength(p, block.table, block.columns, item.rows, block.draws);
  }

  /** The relay computes the block-level meaning under every profile exactly when
      no data row begins like the filtered setting or has the shape of a COPY
      header. */
  lemma RefinedForAllIffPlain(dump: seq<Item>)
    requires forall item | item in dump :: Shaped(item)
    ensures RefinedForAll(dump) <==> forall item | item in dump :: Plain(item)
  {
    forall item | item in dump ensures Plain(item) <==> WellFormed(item) && NoTimeoutRows(item) {
      PlainIsWellFormed(item);
    }
    if forall item | item in dump :: Plain(item) {
      forall p | AllKnown(p, dump) ensures Relay(p, Lines(dump)).out == Lines(MaskDump(p, dump)) {
        RelayRefinesSpec(p, dump);
      }
    } else {
      NotRefined(dump);
    }
  }

  lemma NotRefined(dump: seq<Item>)
    requires forall item | item in dump :: Shaped(item)
    requires exists item | item in dump :: !Plain(item)
    ensures !RefinedForAll(dump)
  {
    hide Shaped, Plain, RefinedForAll, NoTimeoutRows, WellFormed;
    if forall item | item in dump :: NoTimeoutRows(item) {
      var item :| item in dump && !Plain(item);
      var k :| 0 <= k < |dump| && dump[k] == item;
      HasHeaderRow(item);
      var m := FirstWhere(dump, HAS_HEADER_ROW, k);
      var i :| 0 <= i < |dump[m].rows| && IS_HEADER(dump[m].rows[i]);
      var r := FirstWhere(dump[m].rows, IS_HEADER, i);
      NotRefinedAt(dump, m, r);
    } else if RefinedForAll(dump) {
      RefinedKeepsRows(dump);
    }
  }

  const IS_HEADER: seq<string> -> bool := (row: seq<string>) => ParseCopy(RowLine(row)).Some?
  const HAS_HEADER_ROW: Item -> bool :=
    (item: Item) => item.Copy? && exists i | 0 <= i < |item.rows| :: IS_HEADER(item.rows[i])

  lemma HasHeaderRow(item: Item)
    requires !Plain(item) && NoTimeoutRows(item)
    ensures HAS_HEADER_ROW(item)
  {
    hide ParseCopy, RowLine;
    var row :| row in item.rows && Treacherous(row);
    var i :| 0 <= i < |item.rows| && item.rows[i] == row;
    assert IS_HEADER(item.rows[i]);
  }

  /** The first of the items up to `k` with that property. */
  function FirstWhere<T>(s: seq<T>, p: T -> bool, k: nat): (i: nat)
    requires k < |s| && p(s[k])
    ensures i <= k && p(s[i]) && forall j | 0 <= j < i :: !p(s[j])
  {
    if k == 0 || p(s[0]) then 0 else 1 + FirstWhere(s[1..], p, k - 1)
  }

  lemma NotRefinedAt(dump: seq<Item>, m: nat, r: nat)
    requires forall item | item in dump :: Shaped(item) && NoTimeoutRows(item)
    requires m < |dump| && HAS_HEADER_ROW(dump[m]) && forall i | 0 <= i < m :: !HAS_HEADER_ROW(dump[i])
    requires r < |dump[m].rows| && IS_HEADER(dump[m].rows[r]) && forall i | 0 <= i < r :: !IS_HEADER(dump[m].rows[i])
    ensures !RefinedForAll(dump)
  {
    var p, row := Blanking(dump[m]), dump[m].rows[r];
    RowsAreData(dump, m, r);
    hide Shaped, NoTimeoutRows, WellFormed, DataRow, Lines, MaskDump, Blanking;
    BlankingIsKnown(dump[m], dump);
    RelayAtRow(dump, m, r);
    SpecAtRow(dump, m, r);
    HeaderBegins(RowLine(row));
    assert Relay(p, Lines(dump)).out != Lines(MaskDump(p, dump));
  }

  lemma RowsAreData(dump: seq<Item>, m: nat, r: nat)
    requires forall item | item in dump :: Shaped(item) && NoTimeoutRows(item)
    requires m < |dump| && dump[m].Copy? && forall i | 0 <= i < m :: !HAS_HEADER_ROW(dump[i])
    requires r < |dump[m].rows| && forall i | 0 <= i < r :: !IS_HEADER(dump[m].rows[i])
    ensures forall i | 0 <= i < m :: WellFormed(dump[i])
    ensures dump[m].rows[r] != [] && forall i | 0 <= i < r :: DataRow(dump[m].rows[i])
  {
    hide ParseCopy, RowLine, HeaderParts;
    assert dump[m] in dump;
    forall i | 0 <= i < m ensures WellFormed(dump[i]) {
      assert dump[i] in dump;
      if dump[i].Copy? {
        forall row | row in dump[i].rows ensures DataRow(row) {
          var k :| 0 <= k < |dump[i].rows| && dump[i].rows[k] == row;
          assert !IS_HEADER(dump[i].rows[k]);
        }
      }
    }
    assert dump[m].rows[r] in dump[m].rows;
    forall i | 0 <= i < r ensures DataRow(dump[m].rows[i]) { assert dump[m].rows[i] in dump[m].rows; }
  }

  lemma HeaderBegins(line: string)
    requires ParseCopy(line).Some?
    ensures BeginsWithC(line)
  {
    var (name, columns) := ParseCopy(line).value;
    ParseCopyExact(line, name, columns);
  }

  /** A relay that is right for some known profile loses no row. */
  lemma RefinedKeepsRows(dump: seq<Item>)
    requires RefinedForAll(dump)
    ensures forall item | item in dump :: NoTimeoutRows(item)
  {
    var p := Profile(map[], map[], false, (_, _) => "");
    NoRulesKnown(p, dump);
    assert Relay(p, Lines(dump)).out == Lines(MaskDump(p, dump));
    KeepsRows(p, dump);
  }

  lemma KeepsRows(p: Profile, dump: seq<Item>)
    requires Relay(p, Lines(dump)).out == Lines(MaskDump(p, dump))
    ensures forall item | item in dump :: NoTimeoutRows(item)
  {
    hide NoTimeoutRows, Relay, MaskDump, Lines, Kept;
    OneLinePerKeptLine(p, Lines(dump));
    KeptDump(p, dump);
  }

  lemma NoRulesKnown(p: Profile, dump: seq<Item>)
    requires p.rules == map[]
    ensures AllKnown(p, dump)
  {
    hide ColumnNames, TableOf;
  }
}
