/** Which rows the INSERT relay masks as their literals call for, under every
    profile. */
module MysqlRows {
  import opened Text
  import opened Masking
  import opened MysqlTokens
  import opened MysqlRelay
  import opened MysqlDump
  import opened Streams

  predicate Distinct(names: seq<string>)
  {
    forall i, j | 0 <= i < j < |names| :: names[i] != names[j]
  }

  function RowInsert(item: Item): Insert
    requires item.Row?
  {
    Insert(item.table, item.columns, Join(',', LiteralTexts(item.values)))
  }

  /** A line the dump tool can have written: as many values as there are columns,
      and every value a literal. */
  predicate Shaped(item: Item)
  {
    match item
    case Other(line) => ParseInsert(line).None?
    case Row(_, columns, values) =>
      && values != [] && (forall l | l in values :: ValidLiteral(l)) && InsertParts(RowInsert(item))
      && |ColumnNames(columns)| == |values| && Distinct(ColumnNames(columns))
  }

  /** No literal before the last one ends in an escaped backslash. */
  predicate PlainItem(item: Item)
  {
    item.Row? ==> forall i | 0 <= i < |item.values| - 1 :: !EndsInEscapedBackslash(item.values[i])
  }

  // ---------------------------------------------------- the literal-level meaning

  /** The line with the row's ruled literals masked. */
  function MaskItem(p: Profile, item: Item, k: nat): string
  {
    match item
    case Other(line) => line
    case Row(table, columns, values) =>
      PrintInsert(Insert(table, columns,
        Join(',', MaskedRow(p, QuoteValue, table, ColumnNames(columns), LiteralTexts(values), k))))
  }

  function ItemDraws(p: Profile, item: Item): nat
  {
    if item.Row? then DrawsOfRow(p.RulesFor(item.table), ColumnNames(item.columns), |item.values|) else 0
  }

  predicate ItemKnown(p: Profile, item: Item)
  {
    item.Row? ==> ProvidersKnown(p.RulesFor(item.table), ColumnNames(item.columns), |item.values|)
  }

  function DumpDraws(p: Profile, dump: seq<Item>): nat
  {
    if dump == [] then 0 else DumpDraws(p, dump[..|dump| - 1]) + ItemDraws(p, dump[|dump| - 1])
  }

  function MaskDump(p: Profile, dump: seq<Item>): (lines: seq<string>)
    ensures |lines| == |dump|
  {
    if dump == [] then []
    else
      var front := dump[..|dump| - 1];
      MaskDump(p, front) + [MaskItem(p, dump[|dump| - 1], DumpDraws(p, front))]
  }

  predicate AllKnown(p: Profile, dump: seq<Item>)
  {
    forall item | item in dump :: ItemKnown(p, item)
  }

  // ------------------------------------------------------ plain rows are masked

  lemma PlainIsSeparable(item: Item)
    requires Shaped(item) && PlainItem(item)
    ensures Separable(item)
  {
  }

  lemma NothingRuled(p: Profile, table: string, columns: seq<string>, values: seq<string>, k: nat)
    requires forall i: nat :: !Ruled(p.RulesFor(table), columns, |values|, i)
    ensures MaskedRow(p, QuoteValue, table, columns, values, k) == values
  {
    var masked := MaskedRow(p, QuoteValue, table, columns, values, k);
    forall i | 0 <= i < |values| ensures masked[i] == values[i] {
      assert masked[i] == MaskedValue(p, QuoteValue, table, columns, values, k, i);
    }
  }

  /** The step of a recognised line whose values are taken apart into `tokens`. */
  lemma RowStep(p: Profile, st: Stream, item: Item, tokens: seq<string>)
    requires item.Row? && InsertParts(RowInsert(item)) && !st.failed
    requires Tokenise(RowInsert(item).values) == tokens && p.RulesFor(item.table) != map[]
    requires ProvidersKnown(p.RulesFor(item.table), ColumnNames(item.columns), |tokens|)
    ensures var row := MaskedRow(p, QuoteValue, item.table, ColumnNames(item.columns), tokens, st.draws);
            Step(p, st, ItemLine(item))
            == st.(out := st.out + [PrintInsert(RowInsert(item).(values := Join(',', row)))],
                   draws := st.draws + DrawsOfRow(p.RulesFor(item.table), ColumnNames(item.columns), |tokens|))
  {
    PrintedInsertReadsBackIff(RowInsert(item));
    hide ParseInsert, PrintInsert, Tokenise, ColumnNames, MaskedRow, DrawsOfRow, ProvidersKnown, InsertParts, Join,
      LiteralTexts;
  }

  lemma UnruledTableStep(p: Profile, st: Stream, item: Item)
    requires item.Row? && InsertParts(RowInsert(item)) && !st.failed && p.RulesFor(item.table) == map[]
    ensures var next := Step(p, st, ItemLine(item));
            next.out == st.out + [ItemLine(item)] && next.draws == st.draws && !next.failed
  {
    PrintedInsertReadsBackIff(RowInsert(item));
    hide ParseInsert, PrintInsert, Tokenise, ColumnNames, MaskedRow, DrawsOfRow, ProvidersKnown, InsertParts, Join,
      LiteralTexts;
  }

  lemma PlainStep(p: Profile, st: Stream, item: Item)
    requires Shaped(item) && PlainItem(item) && ItemKnown(p, item) && !st.failed
    ensures var next := Step(p, st, ItemLine(item));
            && next.out == st.out + [MaskItem(p, item, st.draws)]
            && next.draws == st.draws + ItemDraws(p, item) && !next.failed
  {
    if item.Row? {
      PlainIsSeparable(item);
      SeparableReadsBack(item);
      var rules, columns, texts := p.RulesFor(item.table), ColumnNames(item.columns), LiteralTexts(item.values);
      if rules == map[] {
        UnruledTableStep(p, st, item);
        NoRulesNoDraws(columns, |texts|, |columns|);
        NothingRuled(p, item.table, columns, texts, st.draws);
      } else {
        RowStep(p, st, item, texts);
      }
    }
  }

  // ------------------------------------------- the token of the first open literal

  /** The tokens of a text before its first open piece are the pieces. */
  lemma {:induction false} ClosedPiecesAreTokens(texts: seq<string>, tokens: seq<string>, f: nat)
    requires f < |texts| && Tokens(Join(',', texts), tokens)
    requires forall i | 0 <= i < f :: Closed(texts[i])
    ensures f < |tokens| && tokens[..f] == texts[..f]
    ensures Tokens(Join(',', texts[f..]), tokens[f..])
    decreases f
  {
    if f == 0 {
      assert texts[0..] == texts && tokens[0..] == tokens;
    } else {
      var rest := Join(',', texts[1..]);
      if |tokens| == 1 {
        ClosedThenCommaCuts(texts[0], rest);
        assert false;
      } else {
        FirstTokenUnique(texts[0], rest, tokens[0], Join(',', tokens[1..]));
        TokensTail(Join(',', texts), tokens);
        ClosedPiecesAreTokens(texts[1..], tokens[1..], f - 1);
        assert texts[1..][f - 1..] == texts[f..] && tokens[1..][f - 1..] == tokens[f..];
        assert texts[..f] == [texts[0]] + texts[1..][..f - 1];
        assert tokens[..f] == [tokens[0]] + tokens[1..][..f - 1];
      }
    }
  }

  /** The token that begins with an open piece goes on beyond its comma. */
  lemma OpenPieceGoesOn(texts: seq<string>, tokens: seq<string>)
    requires |texts| > 1 && Tokens(Join(',', texts), tokens)
    requires NoCut(START, texts[0]) && !Closed(texts[0])
    ensures |tokens[0]| > |texts[0]|
    ensures tokens[0] <= Join(',', texts)
    ensures |tokens| > 1 ==> |tokens[0]| < |Join(',', texts)| && Join(',', texts)[|tokens[0]|] == ','
  {
    var s := Join(',', texts);
    assert s == texts[0] + [','] + Join(',', texts[1..]);
    if |tokens| > 1 {
      assert s == tokens[0] + [','] + Join(',', tokens[1..]);
      assert tokens[0] == s[..|tokens[0]|] && texts[0] == s[..|texts[0]|];
      if |tokens[0]| < |texts[0]| {
        assert texts[0] == tokens[0] + [','] + texts[0][|tokens[0]| + 1..];
        ClosedThenCommaCuts(tokens[0], texts[0][|tokens[0]| + 1..]);
        assert false;
      } else if |tokens[0]| == |texts[0]| {
        assert false;
      }
    }
  }

  /** The row's first literal, before the last, that ends in an escaped backslash. */
  predicate FirstOpen(item: Item, f: nat)
  {
    && item.Row? && f < |item.values| - 1 && EndsInEscapedBackslash(item.values[f])
    && forall i | 0 <= i < f :: !EndsInEscapedBackslash(item.values[i])
  }

  lemma {:induction false} HasFirstOpen(item: Item, f: nat) returns (first: nat)
    requires item.Row? && f < |item.values| - 1 && EndsInEscapedBackslash(item.values[f])
    ensures FirstOpen(item, first)
    decreases f
  {
    if i :| 0 <= i < f && EndsInEscapedBackslash(item.values[i]) {
      first := HasFirstOpen(item, i);
    } else {
      first := f;
    }
  }

  lemma TokensAtFirstOpen(item: Item, f: nat)
    requires Shaped(item) && FirstOpen(item, f)
    ensures var texts, tokens := LiteralTexts(item.values), Tokenise(RowInsert(item).values);
            && f < |tokens| && tokens[..f] == texts[..f] && |tokens[f]| > |texts[f]|
            && tokens[f] <= Join(',', texts[f..])
            && (|tokens| > f + 1 ==> |tokens[f]| < |Join(',', texts[f..])| && Join(',', texts[f..])[|tokens[f]|] == ',')
  {
    var texts, tokens := LiteralTexts(item.values), Tokenise(RowInsert(item).values);
    forall i | 0 <= i <= f
      ensures NoCut(START, texts[i]) && (Closed(texts[i]) <==> !EndsInEscapedBackslash(item.values[i]))
    {
      assert item.values[i] in item.values;
      LiteralIsClosedIff(item.values[i]);
    }
    hide Tokenise, NoCut, Closed, Join, LiteralTexts, Shaped;
    ClosedPiecesAreTokens(texts, tokens, f);
    OpenPieceGoesOn(texts[f..], tokens[f..]);
  }

  // ------------------------------------------ a profile under which the row is wrong

  /** Rules one column of one table; every mask is empty. */
  function Blanking(table: string, column: string): Profile
  {
    Profile(map[table := map[column := "name"]], map[], false, (_, _) => "")
  }

  lemma BlankingIsKnown(table: string, column: string, dump: seq<Item>)
    ensures var p := Blanking(table, column);
            && p.RulesFor(table) == map[column := "name"] && p.RulesFor(table) != map[]
            && (forall t, names, n :: ProvidersKnown(p.RulesFor(t), names, n))
            && AllKnown(p, dump)
  {
    assert column in Blanking(table, column).RulesFor(table);
  }

  /** With distinct names, exactly one position is ruled, and its mask is `''`. */
  lemma BlankedRow(table: string, names: seq<string>, values: seq<string>, j: nat, k: nat)
    requires j < |names| && j < |values| && Distinct(names)
    ensures MaskedRow(Blanking(table, names[j]), QuoteValue, table, names, values, k) == values[j := "''"]
  {
    var p := Blanking(table, names[j]);
    var masked := MaskedRow(p, QuoteValue, table, names, values, k);
    EmptyQuoted();
    forall i | 0 <= i < |values| ensures masked[i] == values[j := "''"][i] {
      assert masked[i] == MaskedValue(p, QuoteValue, table, names, values, k, i);
      assert Ruled(p.RulesFor(table), names, |values|, i) <==> i == j;
    }
  }

  lemma EmptyQuoted()
    ensures QuoteValue("") == "''"
  {
    assert Replace('\\', "\\\\", "") == "" && Replace('\'', "\\'", "") == "";
  }

  lemma PrintLength(ins: Insert, values: string)
    ensures |PrintInsert(ins.(values := values))| + |ins.values| == |PrintInsert(ins)| + |values|
  {
  }

  /** Blanking the column of the first open literal takes more text away than the
      literal: the line is shorter than it should be. */
  lemma FirstOpenIsMisread(st: Stream, item: Item, f: nat)
    requires Shaped(item) && FirstOpen(item, f) && !st.failed
    ensures var p := Blanking(item.table, ColumnNames(item.columns)[f]);
            var out := Step(p, st, ItemLine(item)).out;
            && |out| == |st.out| + 1 && st.out <= out && out[|st.out|] != MaskItem(p, item, st.draws)
  {
    var names, texts := ColumnNames(item.columns), LiteralTexts(item.values);
    var ins := RowInsert(item);
    var tokens := Tokenise(ins.values);
    var p := Blanking(item.table, names[f]);
    TokensAtFirstOpen(item, f);
    hide Tokenise, FirstOpen, Join, PrintInsert, ProvidersKnown, ColumnNames, LiteralTexts;
    BlankingIsKnown(item.table, names[f], []);
    RowStep(p, st, item, tokens);
    BlankedRow(item.table, names, tokens, f, st.draws);
    BlankedRow(item.table, names, texts, f, st.draws);
    JoinLengthAfterUpdate(',', tokens, f, "''");
    JoinLengthAfterUpdate(',', texts, f, "''");
    assert Join(',', tokens) == Join(',', texts);
    PrintLength(ins, Join(',', tokens[f := "''"]));
    PrintLength(ins, Join(',', texts[f := "''"]));
  }

  // ----------------------------------------------------------- the exact condition

  /** Under every profile with known providers, and from every live state, the
      relay writes the row with its ruled literals masked. */
  ghost predicate MaskedForAll(item: Item)
  {
    forall p: Profile, st: Stream | ItemKnown(p, item) && !st.failed ::
      Step(p, st, ItemLine(item)).out == st.out + [MaskItem(p, item, st.draws)]
  }

  /** It does so exactly when no literal before the last ends in an escaped
      backslash. */
  lemma MaskedForAllIffPlain(item: Item)
    requires Shaped(item)
    ensures MaskedForAll(item) <==> PlainItem(item)
  {
    hide Shaped, Step, MaskItem, ItemKnown, ColumnNames;
    if PlainItem(item) {
      forall p: Profile, st: Stream | ItemKnown(p, item) && !st.failed
        ensures Step(p, st, ItemLine(item)).out == st.out + [MaskItem(p, item, st.draws)]
      {
        PlainStep(p, st, item);
      }
    } else {
      var i :| 0 <= i < |item.values| - 1 && EndsInEscapedBackslash(item.values[i]);
      var f := HasFirstOpen(item, i);
      NotMasked(item, f);
    }
  }

  lemma NotMasked(item: Item, f: nat)
    requires Shaped(item) && FirstOpen(item, f)
    ensures !MaskedForAll(item)
  {
    var p := Blanking(item.table, ColumnNames(item.columns)[f]);
    BlankingIsKnown(item.table, ColumnNames(item.columns)[f], [item]);
    assert item in [item];
    FirstOpenIsMisread(FRESH, item, f);
    hide Step, MaskItem, ItemKnown, Shaped;
    assert ItemKnown(p, item) && !FRESH.failed;
    assert Step(p, FRESH, ItemLine(item)).out != FRESH.out + [MaskItem(p, item, FRESH.draws)];
  }

  /** The same for whole dumps. */
  ghost predicate RefinedForAll(dump: seq<Item>)
  {
    forall p | AllKnown(p, dump) :: Relay(p, Lines(dump)).out == MaskDump(p, dump)
  }

  lemma LinesSnoc(dump: seq<Item>, last: Item)
    ensures Lines(dump + [last]) == Lines(dump) + [ItemLine(last)]
  {
  }

  /** On dumps of plain rows the relay writes the masked literals, draws as many
      masks as they call for, and does not raise. */
  lemma {:induction false} PlainDumpIsMasked(p: Profile, dump: seq<Item>)
    requires AllKnown(p, dump) && forall item | item in dump :: Shaped(item) && PlainItem(item)
    ensures var st := Relay(p, Lines(dump));
            st.out == MaskDump(p, dump) && st.draws == DumpDraws(p, dump) && !st.failed
  {
    hide Shaped, PlainItem, ItemKnown, Step, MaskItem, ItemDraws;
    if dump != [] {
      var front, last := dump[..|dump| - 1], dump[|dump| - 1];
      assert dump == front + [last];
      PlainDumpIsMasked(p, front);
      LinesSnoc(front, last);
      FoldSnoc(StepOf(p), FRESH, Lines(front), ItemLine(last));
      PlainStep(p, Relay(p, Lines(front)), last);
    }
  }

  lemma {:induction false} MaskDumpAt(p: Profile, dump: seq<Item>, m: nat)
    requires m < |dump|
    ensures MaskDump(p, dump)[m] == MaskItem(p, dump[m], DumpDraws(p, dump[..m]))
    ensures MaskDump(p, dump)[..m] == MaskDump(p, dump[..m])
  {
    hide MaskItem, DumpDraws;
    var front := dump[..|dump| - 1];
    if m < |front| {
      MaskDumpAt(p, front, m);
      assert front[..m] == dump[..m];
      assert MaskDump(p, dump)[..m] == MaskDump(p, front)[..m];
    }
  }

  /** A dump of lines the dump tool can have written is relayed as its literals
      call for, under every profile, exactly when all its rows are plain. */
  lemma RefinedForAllIffPlain(dump: seq<Item>)
    requires forall item | item in dump :: Shaped(item)
    ensures RefinedForAll(dump) <==> forall item | item in dump :: PlainItem(item)
  {
    hide Shaped, PlainItem, AllKnown, MaskDump, Lines, Relay;
    if forall item | item in dump :: PlainItem(item) {
      forall p | AllKnown(p, dump) ensures Relay(p, Lines(dump)).out == MaskDump(p, dump) {
        PlainDumpIsMasked(p, dump);
      }
    } else {
      var item :| item in dump && !PlainItem(item);
      var i :| 0 <= i < |dump| && dump[i] == item;
      var m := FirstNotPlain(dump, i);
      NotRefined(dump, m);
    }
  }

  lemma {:induction false} FirstNotPlain(dump: seq<Item>, i: nat) returns (m: nat)
    requires i < |dump| && !PlainItem(dump[i])
    ensures m < |dump| && !PlainItem(dump[m]) && forall j | 0 <= j < m :: PlainItem(dump[j])
    decreases i
  {
    hide PlainItem;
    if j :| 0 <= j < i && !PlainItem(dump[j]) {
      m := FirstNotPlain(dump, j);
    } else {
      m := i;
    }
  }

  lemma NotRefined(dump: seq<Item>, m: nat)
    requires forall item | item in dump :: Shaped(item)
    requires m < |dump| && !PlainItem(dump[m]) && forall j | 0 <= j < m :: PlainItem(dump[j])
    ensures !RefinedForAll(dump)
  {
    var item := dump[m];
    assert item in dump && Shaped(item);
    var i :| 0 <= i < |item.values| - 1 && EndsInEscapedBackslash(item.values[i]);
    var f := HasFirstOpen(item, i);
    var p := Blanking(item.table, ColumnNames(item.columns)[f]);
    hide Shaped, PlainItem, Step, MaskItem, Lines, ItemKnown, MaskDump, FirstOpen;
    BlankingIsKnown(item.table, ColumnNames(item.columns)[f], dump);
    BlankingIsKnown(item.table, ColumnNames(item.columns)[f], dump[..m]);
    PlainDumpIsMasked(p, dump[..m]);
    FirstOpenIsMisread(Relay(p, Lines(dump[..m])), item, f);
    StaysWrong(p, dump, m);
  }

  lemma StaysWrong(p: Profile, dump: seq<Item>, m: nat)
    requires m < |dump| && AllKnown(p, dump)
    requires var st := Relay(p, Lines(dump[..m]));
             var out := Step(p, st, ItemLine(dump[m])).out;
             && st.out == MaskDump(p, dump[..m]) && st.draws == DumpDraws(p, dump[..m])
             && |out| == |st.out| + 1 && out[|st.out|] != MaskItem(p, dump[m], st.draws)
    ensures !RefinedForAll(dump)
  {
    hide Step, MaskItem, AllKnown, ItemLine;
    MaskDumpAt(p, dump, m);
    var before := Lines(dump[..m]);
    FoldSnoc(StepOf(p), FRESH, before, ItemLine(dump[m]));
    assert Lines(dump) == (before + [ItemLine(dump[m])]) + Lines(dump)[m + 1..];
    OutputOnlyGrows(p, before + [ItemLine(dump[m])], Lines(dump)[m + 1..]);
    assert Relay(p, Lines(dump)).out != MaskDump(p, dump);
  }

  // --------------------------------------------------------------- what leaks

  /** An open piece takes its comma and all of a next piece without commas. */
  lemma OpenPieceTakesNext(texts: seq<string>, tokens: seq<string>)
    requires |texts| > 1 && Tokens(Join(',', texts), tokens)
    requires NoCut(START, texts[0]) && !Closed(texts[0]) && ',' !in texts[1]
    ensures texts[0] + [','] + texts[1] <= tokens[0]
  {
    var s := Join(',', texts);
    OpenPieceGoesOn(texts, tokens);
    OneToken(s, tokens);
    JoinBegins(texts);
    hide Tokens, NoCut, Closed, Join;
    LongEnough(s, texts[0], texts[1], tokens[0]);
  }

  lemma OneToken(s: string, tokens: seq<string>)
    requires Tokens(s, tokens)
    ensures |tokens| == 1 ==> tokens[0] == s
  {
  }

  lemma JoinBegins(texts: seq<string>)
    requires |texts| > 1
    ensures texts[0] + [','] + texts[1] <= Join(',', texts)
  {
    var rest := Join(',', texts[1..]);
    assert texts[1] <= rest;
    BeginsAfter(texts[0] + [','], texts[1], rest);
  }

  lemma BeginsAfter(head: string, a: string, rest: string)
    requires a <= rest
    ensures head + a <= head + rest
  {
    assert rest == a + rest[|a|..];
    assert head + rest == (head + a) + rest[|a|..];
  }

  /** A prefix of `s` that is longer than `a` and stops at the end or at a comma. */
  lemma LongEnough(s: string, a: string, b: string, token: string)
    requires a + [','] + b <= s && token <= s && |token| > |a| && ',' !in b
    requires |token| < |s| ==> s[|token|] == ','
    ensures a + [','] + b <= token
  {
    var n := |a| + 1 + |b|;
    forall j | |a| < j < n ensures s[j] != ',' {
      assert s[j] == (a + [','] + b)[j] == b[j - |a| - 1];
    }
    assert s[..n] == a + [','] + b && token[..n] == s[..n];
  }

  lemma {:induction false} JoinPrefix(parts: seq<string>, n: nat)
    requires 0 < n <= |parts|
    ensures Join(',', parts[..n]) <= Join(',', parts)
  {
    if n == |parts| {
      assert parts[..n] == parts;
    } else if n > 1 {
      JoinPrefix(parts[1..], n - 1);
      assert parts[..n][1..] == parts[1..][..n - 1];
    }
  }

  /** Pieces up to a longer one: what they join to is a prefix. */
  lemma {:induction false} JoinOfLongerLast(parts: seq<string>, short: string, long: string)
    requires short <= long
    ensures Join(',', parts + [short]) <= Join(',', parts + [long])
  {
    if parts != [] {
      JoinAppend(',', parts, short);
      JoinAppend(',', parts, long);
    } else {
      assert [] + [short] == [short] && [] + [long] == [long];
    }
  }

  lemma NothingAfter(parts: seq<string>, one: string, two: seq<string>)
    ensures parts + [one] + [] == parts + [one] && parts + two + [] == parts + two
  {
  }

  /** Any row that agrees with the tokens up to the first open one begins with
      all the values before it, that value, and the next. */
  lemma RowBeginsAsItCame(item: Item, f: nat, row: seq<string>)
    requires Shaped(item) && FirstOpen(item, f) && ',' !in LiteralText(item.values[f + 1])
    requires var tokens := Tokenise(RowInsert(item).values);
             |row| == |tokens| && forall i | 0 <= i <= f && i < |tokens| :: row[i] == tokens[i]
    ensures Join(',', LiteralTexts(item.values)[..f + 2]) <= Join(',', row)
  {
    hide Tokenise, LiteralTexts, Shaped, Join, LiteralText;
    var texts, tokens := LiteralTexts(item.values), Tokenise(RowInsert(item).values);
    TokensAtFirstOpen(item, f);
    FirstOpenTakesNext(item, f);
    JoinOfLongerLast(texts[..f], texts[f] + [','] + texts[f + 1], tokens[f]);
    MergedParts(',', texts[..f], texts[f], texts[f + 1], []);
    NothingAfter(texts[..f], texts[f] + [','] + texts[f + 1], [texts[f], texts[f + 1]]);
    assert texts[..f + 2] == texts[..f] + [texts[f], texts[f + 1]];
    assert row[..f + 1] == texts[..f] + [tokens[f]];
    JoinPrefix(row, f + 1);
  }

  lemma FirstOpenTakesNext(item: Item, f: nat)
    requires Shaped(item) && FirstOpen(item, f) && ',' !in LiteralText(item.values[f + 1])
    ensures var texts, tokens := LiteralTexts(item.values), Tokenise(RowInsert(item).values);
            f < |tokens| && texts[f] + [','] + texts[f + 1] <= tokens[f]
  {
    var texts, tokens := LiteralTexts(item.values), Tokenise(RowInsert(item).values);
    forall i | 0 <= i <= f
      ensures NoCut(START, texts[i]) && (Closed(texts[i]) <==> !EndsInEscapedBackslash(item.values[i]))
    {
      assert item.values[i] in item.values;
      LiteralIsClosedIff(item.values[i]);
    }
    hide Tokenise, NoCut, Closed, Join, LiteralTexts, Shaped;
    ClosedPiecesAreTokens(texts, tokens, f);
    OpenPieceTakesNext(texts[f..], tokens[f..]);
  }

  /** For a row of any width: if neither the column of the first open literal nor
      one before it is ruled, the line that is written begins with the values
      up to and including the next column as they came, whatever rule that column
      has. */
  lemma BackslashLeaksNextColumn(p: Profile, st: Stream, item: Item, f: nat)
    requires Shaped(item) && FirstOpen(item, f) && ',' !in LiteralText(item.values[f + 1])
    requires p.RulesFor(item.table) != map[] && !Step(p, st, ItemLine(item)).failed
    requires forall i | 0 <= i <= f :: ColumnNames(item.columns)[i] !in p.RulesFor(item.table)
    ensures exists written ::
              && Step(p, st, ItemLine(item)).out == st.out + [PrintInsert(RowInsert(item).(values := written))]
              && Join(',', LiteralTexts(item.values)[..f + 2]) <= written
  {
    var columns, tokens := ColumnNames(item.columns), Tokenise(RowInsert(item).values);
    var row := MaskedRow(p, QuoteValue, item.table, columns, tokens, st.draws);
    KnownUnlessFailed(p, st, item);
    RowStep(p, st, item, tokens);
    forall i | 0 <= i <= f && i < |tokens| ensures row[i] == tokens[i] {
      assert row[i] == MaskedValue(p, QuoteValue, item.table, columns, tokens, st.draws, i);
    }
    hide Step, Tokenise, Shaped, FirstOpen, MaskedRow, ColumnNames;
    RowBeginsAsItCame(item, f, row);
  }

  lemma KnownUnlessFailed(p: Profile, st: Stream, item: Item)
    requires item.Row? && InsertParts(RowInsert(item)) && p.RulesFor(item.table) != map[]
    requires !Step(p, st, ItemLine(item)).failed
    ensures !st.failed
    ensures ProvidersKnown(p.RulesFor(item.table), ColumnNames(item.columns), |Tokenise(RowInsert(item).values)|)
  {
    PrintedInsertReadsBackIff(RowInsert(item));
    hide ParseInsert, PrintInsert, Tokenise, ColumnNames, MaskedRow, DrawsOfRow, ProvidersKnown, InsertParts, Join,
      LiteralTexts;
  }

  // ------------------------------------------------------ exact noninterference

  function With(item: Item, i: nat, v: Literal): Item
    requires item.Row? && i < |item.values|
  {
    item.(values := item.values[i := v])
  }

  /** A value that may stand at position `i` and is read back there. */
  predicate Fits(item: Item, i: nat, v: Literal)
    requires item.Row? && i < |item.values|
  {
    Shaped(With(item, i, v)) && (i < |item.values| - 1 ==> !EndsInEscapedBackslash(v))
  }

  /** Under no profile does the output tell two values of a ruled column apart. */
  ghost predicate Hides(item: Item)
    requires item.Row?
  {
    forall p: Profile, st: Stream, i: nat, v, w |
      i < |item.values| && i < |ColumnNames(item.columns)| && ColumnNames(item.columns)[i] in p.RulesFor(item.table)
      && Fits(item, i, v) && Fits(item, i, w) ::
      Step(p, st, ItemLine(With(item, i, v))) == Step(p, st, ItemLine(With(item, i, w)))
  }

  /** Noninterference of a row, at every ruled position, for every profile and
      state, holds exactly when no literal before the last ends in an escaped
      backslash. */
  lemma HidesIffPlain(item: Item)
    requires Shaped(item) && item.Row?
    ensures Hides(item) <==> PlainItem(item)
  {
    if PlainItem(item) {
      PlainHides(item);
    } else {
      var i :| 0 <= i < |item.values| - 1 && EndsInEscapedBackslash(item.values[i]);
      var f := HasFirstOpen(item, i);
      DigitShows(item, f);
    }
  }

  lemma PlainHides(item: Item)
    requires Shaped(item) && item.Row? && PlainItem(item)
    ensures Hides(item)
  {
    hide Step, ItemLine, Separable, SameOutsideRules, ColumnNames, Fits;
    forall p: Profile, st: Stream, i: nat, v, w |
      i < |item.values| && i < |ColumnNames(item.columns)| && ColumnNames(item.columns)[i] in p.RulesFor(item.table)
      && Fits(item, i, v) && Fits(item, i, w)
      ensures Step(p, st, ItemLine(With(item, i, v))) == Step(p, st, ItemLine(With(item, i, w)))
    {
      ShapedWidth(item);
      FitsSeparably(item, i, v);
      FitsSeparably(item, i, w);
      SameOutsideOne(p, item, i, v, w);
      StepNoninterference(p, st, With(item, i, v), With(item, i, w));
    }
  }

  lemma ShapedWidth(item: Item)
    requires Shaped(item) && item.Row?
    ensures |ColumnNames(item.columns)| == |item.values|
  {
  }

  lemma FitsSeparably(item: Item, i: nat, v: Literal)
    requires item.Row? && i < |item.values| && PlainItem(item) && Fits(item, i, v)
    ensures Separable(With(item, i, v))
  {
    hide Separable, Shaped;
    PlainIsSeparable(With(item, i, v));
  }

  lemma SameOutsideOne(p: Profile, item: Item, i: nat, v: Literal, w: Literal)
    requires item.Row? && i < |item.values| == |ColumnNames(item.columns)|
    requires ColumnNames(item.columns)[i] in p.RulesFor(item.table)
    ensures SameOutsideRules(p, With(item, i, v), With(item, i, w))
  {
    hide ColumnNames;
  }

  lemma DigitFits(item: Item, i: nat, digit: char)
    requires Shaped(item) && item.Row? && i < |item.values| && '0' <= digit <= '9'
    ensures Fits(item, i, Bare([digit]))
  {
    var v := Bare([digit]);
    var texts, changed := LiteralTexts(item.values), LiteralTexts(With(item, i, v).values);
    assert changed == texts[i := [digit]];
    InJoin(',', texts, '\n');
    InJoin(',', changed, '\n');
    forall l | l in With(item, i, v).values ensures ValidLiteral(l) {
      assert l == v || l in item.values;
    }
    hide ColumnNames, Join;
    assert '\n' !in Join(',', changed) by {
      forall j | 0 <= j < |changed| ensures '\n' !in changed[j] { }
    }
  }

  lemma FitsIsShaped(item: Item, i: nat, v: Literal)
    requires item.Row? && i < |item.values| && Fits(item, i, v)
    ensures Shaped(With(item, i, v)) && InsertParts(RowInsert(With(item, i, v)))
  {
    hide InsertParts;
  }

  /** After an open literal, a digit in the next column reaches the output. */
  lemma DigitShows(item: Item, f: nat)
    requires Shaped(item) && FirstOpen(item, f)
    ensures !Hides(item)
  {
    var names := ColumnNames(item.columns);
    var p := Blanking(item.table, names[f + 1]);
    BlankingIsKnown(item.table, names[f + 1], []);
    DigitFits(item, f + 1, '1');
    DigitFits(item, f + 1, '2');
    DigitStands(p, item, f, '1');
    DigitStands(p, item, f, '2');
    var v, w := Bare("1"), Bare("2");
    hide Step, Shaped, FirstOpen, Fits, ColumnNames, ItemLine, Blanking;
    assert Step(p, FRESH, ItemLine(With(item, f + 1, v))) != Step(p, FRESH, ItemLine(With(item, f + 1, w)));
  }

  /** Where the value after the first open literal begins in the written line. */
  function Place(item: Item, f: nat): nat
    requires item.Row? && f < |item.values|
  {
    |INSERT.head| + |item.table| + |INSERT.mid| + |item.columns| + |INSERT.close|
      + |Join(',', LiteralTexts(item.values[..f + 1]))| + 1
  }

  lemma DigitText(digit: char)
    requires '0' <= digit <= '9'
    ensures ',' !in LiteralText(Bare([digit])) && LiteralText(Bare([digit])) == [digit]
  {
  }

  lemma DigitStands(p: Profile, item: Item, f: nat, digit: char)
    requires Shaped(item) && FirstOpen(item, f) && '0' <= digit <= '9'
    requires p == Blanking(item.table, ColumnNames(item.columns)[f + 1])
    ensures var out := Step(p, FRESH, ItemLine(With(item, f + 1, Bare([digit])))).out;
            |out| == 1 && Place(item, f) < |out[0]| && out[0][Place(item, f)] == digit
  {
    hide Fits, Tokenise, PrintInsert, Join, Place, ColumnNames, ItemLine, LiteralTexts, LiteralText, MaskedRow, InsertParts,
      ProvidersKnown, DrawsOfRow;
    var changed, names := With(item, f + 1, Bare([digit])), ColumnNames(item.columns);
    DigitFits(item, f + 1, digit);
    DigitText(digit);
    FitsIsShaped(item, f + 1, Bare([digit]));
    BlankingIsKnown(item.table, names[f + 1], []);
    RowStep(p, FRESH, changed, Tokenise(RowInsert(changed).values));
    assert forall i | 0 <= i <= f :: names[i] !in p.RulesFor(item.table);
    hide Shaped, Step;
    BackslashLeaksNextColumn(p, FRESH, changed, f);
    var written :| Step(p, FRESH, ItemLine(changed)).out == FRESH.out + [PrintInsert(RowInsert(changed).(values := written))]
                   && Join(',', LiteralTexts(changed.values)[..f + 2]) <= written;
    PlaceOfDigit(item, f, digit, written);
  }

  lemma PlaceOfDigit(item: Item, f: nat, digit: char, written: string)
    requires item.Row? && f + 1 < |item.values|
    requires var changed := With(item, f + 1, Bare([digit]));
             Join(',', LiteralTexts(changed.values)[..f + 2]) <= written
    ensures var line := PrintInsert(Insert(item.table, item.columns, written));
            Place(item, f) < |line| && line[Place(item, f)] == digit
  {
    hide Join;
    var changed := With(item, f + 1, Bare([digit]));
    var before := LiteralTexts(item.values[..f + 1]);
    assert LiteralTexts(changed.values)[..f + 2] == before + [[digit]];
    JoinAppend(',', before, [digit]);
    var head := INSERT.head + (item.table + (INSERT.mid + (item.columns + INSERT.close)));
    var line := PrintInsert(Insert(item.table, item.columns, written));
    assert line == head + (written + (");" + "\n"));
    assert written[|Join(',', before)| + 1] == digit;
  }
}
