/** The INSERT relay over the names that tables and columns really have, as the
    dump tool quotes them. */
module MysqlNames {
  import opened Text
  import opened Identifiers
  import opened Masking
  import LinePatterns
  import opened MysqlTokens
  import opened MysqlRelay
  import opened MysqlDump
  import opened MysqlRows
  import opened Streams

  datatype Table = Table(name: string, columns: seq<string>)

  function QuotedNames(columns: seq<string>): (quoted: seq<string>)
    ensures |quoted| == |columns|
    ensures forall i | 0 <= i < |columns| :: quoted[i] == Quoted('`', columns[i])
  {
    seq(|columns|, i requires 0 <= i < |columns| => Quoted('`', columns[i]))
  }

  function ColumnList(columns: seq<string>): string
  {
    JoinWith(", ", QuotedNames(columns))
  }

  /** The INSERT line of a row, as the dump tool writes it. */
  function TableLine(t: Table, values: string): string
  {
    "INSERT INTO " + Quoted('`', t.name) + " (" + ColumnList(t.columns) + ") VALUES (" + values + ");\n"
  }

  function TableInsert(t: Table, values: string): Insert
  {
    Insert(Replace('`', "``", t.name), ColumnList(t.columns), values)
  }

  lemma TableLineIsPrinted(t: Table, values: string)
    ensures TableLine(t, values) == PrintInsert(TableInsert(t, values))
  {
    hide ColumnList;
    var name, columns := Replace('`', "``", t.name), ColumnList(t.columns);
    var rest := ") VALUES (" + (values + (");" + "\n"));
    assert TableLine(t, values) == "INSERT INTO `" + (name + ("` (" + (columns + rest)));
  }

  /** A real table: columns, all different. */
  predicate IsTable(t: Table)
  {
    Identifier(t.name) && t.columns != [] && Distinct(t.columns) && forall c | c in t.columns :: Identifier(c)
  }

  // --------------------------------------------------- reading the column list

  /** A relay's name holds only characters of the column list, and no comma. */
  lemma NamesTakeFrom(list: string, i: nat, c: char)
    requires i < |ColumnNames(list)| && c in ColumnNames(list)[i]
    ensures c in list && c != ','
  {
    var part := Split(',', list)[i];
    StripCharTakesFrom('`', Strip(part), c);
    StripTakesFrom(part, c);
    PartsTakeFrom(',', list, i, c);
  }

  lemma QuotedPiece(name: string)
    requires Identifier(name)
    ensures var q := Quoted('`', name);
            StripChar('`', Strip(q)) == StripChar('`', Strip(" " + q)) == StripChar('`', q)
  {
    StripOfTight(Quoted('`', name));
  }

  /** Without commas, the relay's names are the quoted names, stripped. */
  lemma NamesOfCommaFree(columns: seq<string>)
    requires columns != [] && forall c | c in columns :: Identifier(c) && ',' !in c
    ensures var names := ColumnNames(ColumnList(columns));
            && |names| == |columns|
            && forall i | 0 <= i < |columns| :: names[i] == StripChar('`', Quoted('`', columns[i]))
  {
    var pieces := Spaced(QuotedNames(columns));
    ListIsJoin(QuotedNames(columns));
    forall i | 0 <= i < |pieces| ensures ',' !in pieces[i] {
      assert columns[i] in columns;
      InQuoted('`', columns[i], ',');
    }
    SplitOfJoin(',', pieces);
    var names := ColumnNames(ColumnList(columns));
    forall i | 0 <= i < |columns| ensures names[i] == StripChar('`', Quoted('`', columns[i])) {
      assert columns[i] in columns;
      QuotedPiece(columns[i]);
      assert names[i] == StripChar('`', Strip(pieces[i]));
    }
  }

  /** The relay reads the real column names exactly when none holds a comma or a
      backtick. Blanks do not matter: they stand inside the backticks. */
  lemma NamesReadIff(columns: seq<string>)
    requires columns != [] && forall c | c in columns :: Identifier(c)
    ensures ColumnNames(ColumnList(columns)) == columns <==> forall c | c in columns :: ',' !in c && '`' !in c
  {
    var names := ColumnNames(ColumnList(columns));
    hide ColumnNames, ColumnList;
    if names == columns {
      forall c | c in columns ensures ',' !in c {
        var i :| 0 <= i < |columns| && columns[i] == c;
        if ',' in c { NamesTakeFrom(ColumnList(columns), i, ','); }
      }
    }
    if forall c | c in columns :: ',' !in c {
      NamesOfCommaFree(columns);
      forall i | 0 <= i < |columns| ensures names[i] == columns[i] <==> '`' !in columns[i] {
        StripOfQuotedIff('`', columns[i]);
      }
      assert forall c | c in columns :: exists i :: 0 <= i < |columns| && columns[i] == c;
    }
  }

  // ------------------------------------------------ which tables are read rightly

  /** No name that the relay would misread, or not recognise. */
  predicate Readable(t: Table)
  {
    '`' !in t.name && forall c | c in t.columns :: ',' !in c && '`' !in c && ')' !in c
  }

  lemma {:induction false} ListHolds(columns: seq<string>, c: char)
    requires c != '`' && c != ',' && c != ' '
    ensures c in ColumnList(columns) <==> exists i :: 0 <= i < |columns| && c in columns[i]
  {
    var quoted := QuotedNames(columns);
    ListIsJoin(quoted);
    InJoin(',', Spaced(quoted), c);
    forall i | 0 <= i < |columns| ensures c in Spaced(quoted)[i] <==> c in columns[i] {
      InQuoted('`', columns[i], c);
    }
  }

  /** A row of literals for a table. */
  predicate RowFits(t: Table, values: seq<Literal>)
  {
    && |values| == |t.columns| && (forall l | l in values :: ValidLiteral(l))
    && '\n' !in Join(',', LiteralTexts(values))
  }

  /** No literal before the last one ends in an escaped backslash. */
  predicate PlainRow(t: Table, values: seq<Literal>)
  {
    RowFits(t, values) && forall i | 0 <= i < |values| - 1 :: !EndsInEscapedBackslash(values[i])
  }

  function RowLine(t: Table, values: seq<Literal>): string
  {
    TableLine(t, Join(',', LiteralTexts(values)))
  }

  /** The line with the values of the columns that the profile names masked. */
  function MaskedRowLine(p: Profile, t: Table, values: seq<Literal>, k: nat): string
  {
    TableLine(t, Join(',', MaskedRow(p, QuoteValue, t.name, t.columns, LiteralTexts(values), k)))
  }

  /** Under every profile, from every live state and for every plain row, the relay
      masks the columns that the profile names. */
  ghost predicate MasksRealColumns(t: Table)
  {
    forall p: Profile, st: Stream, values |
      PlainRow(t, values) && !st.failed && ProvidersKnown(p.RulesFor(t.name), t.columns, |values|) ::
      Step(p, st, RowLine(t, values)).out == st.out + [MaskedRowLine(p, t, values, st.draws)]
  }

  /** The row as the relay sees it. */
  function AsItem(t: Table, values: seq<Literal>): Item
  {
    Row(Replace('`', "``", t.name), ColumnList(t.columns), values)
  }

  lemma ReadableRow(t: Table, values: seq<Literal>)
    requires IsTable(t) && Readable(t) && RowFits(t, values)
    ensures var item := AsItem(t, values);
            && Shaped(item) && (PlainRow(t, values) ==> PlainItem(item)) && ItemLine(item) == RowLine(t, values)
            && item.table == t.name && ColumnNames(item.columns) == t.columns
  {
    TableLineIsPrinted(t, Join(',', LiteralTexts(values)));
    NamesReadIff(t.columns);
    DoublingLengthens('`', t.name);
    ListHolds(t.columns, ')');
    forall i | 0 <= i < |ColumnList(t.columns)| ensures ColumnList(t.columns)[i] != ')' {
      assert ColumnList(t.columns)[i] in ColumnList(t.columns);
    }
    forall i | 0 <= i < |t.name| ensures t.name[i] != '`' { assert t.name[i] in t.name; }
    hide ColumnList, ColumnNames, TableLine, PrintInsert;
  }

  lemma ReadableMasks(p: Profile, st: Stream, t: Table, values: seq<Literal>)
    requires IsTable(t) && Readable(t) && PlainRow(t, values) && !st.failed
    requires ProvidersKnown(p.RulesFor(t.name), t.columns, |values|)
    ensures Step(p, st, RowLine(t, values)).out == st.out + [MaskedRowLine(p, t, values, st.draws)]
  {
    var item := AsItem(t, values);
    ReadableRow(t, values);
    TableLineIsPrinted(t, Join(',', MaskedRow(p, QuoteValue, t.name, t.columns, LiteralTexts(values), st.draws)));
    hide Shaped, PlainItem, Step, ItemLine, MaskedRow, TableLine, PrintInsert, Readable, PlainRow;
    PlainStep(p, st, item);
  }

  // --------------------------------------------------- tables that are misread

  const WORD: Literal := Bare("12345")

  function Words(n: nat): (values: seq<Literal>)
    ensures |values| == n && forall i | 0 <= i < n :: values[i] == WORD
  {
    seq(n, i => WORD)
  }

  lemma WordsArePlain(t: Table)
    requires IsTable(t)
    ensures PlainRow(t, Words(|t.columns|))
    ensures forall i | 0 <= i < |t.columns| :: LiteralTexts(Words(|t.columns|))[i] == "12345"
  {
    InJoin(',', LiteralTexts(Words(|t.columns|)), '\n');
  }

  /** What should be written for a row of words is three characters shorter. */
  lemma BlankedLine(t: Table, j: nat, k: nat)
    requires IsTable(t) && j < |t.columns|
    ensures var p, values := Blanking(t.name, t.columns[j]), Words(|t.columns|);
            && MaskedRow(p, QuoteValue, t.name, t.columns, LiteralTexts(values), k) == LiteralTexts(values)[j := "''"]
            && |MaskedRowLine(p, t, values, k)| + 3 == |RowLine(t, values)|
  {
    var texts := LiteralTexts(Words(|t.columns|));
    WordsArePlain(t);
    BlankedRow(t.name, t.columns, texts, j, k);
    JoinLengthAfterUpdate(',', texts, j, "''");
    hide ColumnList, Join, MaskedRow;
  }

  /** A line is written as it came, or as it is read, with nothing masked. */
  lemma UnmaskedLine(p: Profile, line: string)
    requires var ins := ParseInsert(line);
             ins.Some? && p.RulesFor(ins.value.table) != map[] ==>
               forall i: nat :: !Ruled(p.RulesFor(ins.value.table), ColumnNames(ins.value.columns),
                                       |Tokenise(ins.value.values)|, i)
    ensures var out := Step(p, FRESH, line).out;
            |out| == 1 && |out[0]| + 1 >= |line|
  {
    hide Tokenise, ColumnNames, MaskedRow, PrintInsert, InsertText, ParseInsert, InsertParts, Ruled, Join;
    var ins := ParseInsert(line);
    if ins.Some? && p.RulesFor(ins.value.table) != map[] {
      ParseInsertExact(line, ins.value);
      var tail :| tail in LinePatterns.TAILS && line == InsertText(ins.value, tail);
      TailLength(ins.value, tail);
      NothingRuled(p, ins.value.table, ColumnNames(ins.value.columns), Tokenise(ins.value.values), 0);
      KnownIfUnruled(p.RulesFor(ins.value.table), ColumnNames(ins.value.columns), |Tokenise(ins.value.values)|);
      hide ProvidersKnown, DrawsOfRow;
      assert Join(',', Tokenise(ins.value.values)) == ins.value.values;
      assert ins.value.(values := ins.value.values) == ins.value;
    }
  }

  lemma KnownIfUnruled(rules: Rules, columns: seq<string>, n: nat)
    requires forall i: nat :: !Ruled(rules, columns, n, i)
    ensures ProvidersKnown(rules, columns, n)
  {
  }

  lemma TailLength(ins: Insert, tail: string)
    requires tail in LinePatterns.TAILS
    ensures |PrintInsert(ins)| + 1 >= |InsertText(ins, tail)|
  {
  }

  /** A name with a backtick or a column with a closing parenthesis: the line is not
      recognised, or recognised as one of another table or of other columns. */
  lemma UnrecognisedLine(t: Table, j: nat, line: string)
    requires j < |t.columns| && ('`' in t.name || ')' in t.columns[j])
    ensures var out := Step(Blanking(t.name, t.columns[j]), FRESH, line).out;
            |out| == 1 && |out[0]| + 1 >= |line|
  {
    var p, ins := Blanking(t.name, t.columns[j]), ParseInsert(line);
    if ins.Some? && p.RulesFor(ins.value.table) != map[] {
      ParseInsertExact(line, ins.value);
      assert ins.value.table == t.name;
      assert '`' !in t.name;
      var names := ColumnNames(ins.value.columns);
      forall i | 0 <= i < |names| ensures names[i] != t.columns[j] {
        if ')' in names[i] { NamesTakeFrom(ins.value.columns, i, ')'); }
      }
    }
    hide ColumnNames, ParseInsert, Tokenise;
    UnmaskedLine(p, line);
  }

  lemma UnrecognisedTable(t: Table, j: nat)
    requires IsTable(t) && j < |t.columns| && ('`' in t.name || ')' in t.columns[j])
    ensures !MasksRealColumns(t)
  {
    var p, values := Blanking(t.name, t.columns[j]), Words(|t.columns|);
    WordsArePlain(t);
    BlankingIsKnown(t.name, t.columns[j], []);
    UnrecognisedLine(t, j, RowLine(t, values));
    BlankedLine(t, j, 0);
    hide Step, RowLine, MaskedRowLine, PlainRow, ProvidersKnown;
    var out := Step(p, FRESH, RowLine(t, values)).out;
    assert out == [out[0]];
    WrongForOne(p, t, values, out[0]);
  }

  /** Rows without commas in their values join to the same text only if equal. */
  lemma JoinTellsApart(a: seq<string>, b: seq<string>, i: nat)
    requires |a| == |b| && i < |a| && a[i] != b[i]
    requires forall j | 0 <= j < |a| :: ',' !in a[j] && ',' !in b[j]
    ensures Join(',', a) != Join(',', b)
  {
    SplitOfJoin(',', a);
    SplitOfJoin(',', b);
  }

  lemma BlankedWords(p: Profile, table: string, names: seq<string>, n: nat, k: nat)
    requires forall provider, m :: p.fake(provider, m) == ""
    ensures var row := MaskedRow(p, QuoteValue, table, names, LiteralTexts(Words(n)), k);
            forall i: nat | i < n ::
              row[i] == if Ruled(p.RulesFor(table), names, n, i) then "''" else "12345"
  {
    EmptyQuoted();
    var texts := LiteralTexts(Words(n));
    var row := MaskedRow(p, QuoteValue, table, names, texts, k);
    forall i: nat | i < n ensures row[i] == if Ruled(p.RulesFor(table), names, n, i) then "''" else "12345" {
      assert row[i] == MaskedValue(p, QuoteValue, table, names, texts, k, i);
    }
  }

  /** The row that the relay writes where its name at position `j` is not the
      column's: the value there is as it came. */
  lemma MisreadRow(t: Table, j: nat) returns (row: seq<string>)
    requires IsTable(t) && j < |t.columns| && '`' !in t.name && forall c | c in t.columns :: ')' !in c
    requires var names := ColumnNames(ColumnList(t.columns)); j < |names| ==> names[j] != t.columns[j]
    ensures |row| == |t.columns| && row[j] == "12345" && forall i | 0 <= i < |row| :: ',' !in row[i]
    ensures Step(Blanking(t.name, t.columns[j]), FRESH, RowLine(t, Words(|t.columns|))).out
         == [TableLine(t, Join(',', row))]
  {
    var p, values := Blanking(t.name, t.columns[j]), Words(|t.columns|);
    var item, texts := AsItem(t, values), LiteralTexts(values);
    var names := ColumnNames(item.columns);
    WordsArePlain(t);
    BlankingIsKnown(t.name, t.columns[j], []);
    PartsOfMisread(t, values);
    PlainTokens(t, values);
    BlankedWords(p, t.name, names, |values|, 0);
    row := MaskedRow(p, QuoteValue, t.name, names, texts, 0);
    OnlyWords(p, t, j, names, row);
    hide *;
    RowStep(p, FRESH, item, texts);
    TableLineIsPrinted(t, Join(',', row));
    MisreadOut(p, t, values, row);
  }

  lemma PlainTokens(t: Table, values: seq<Literal>)
    requires IsTable(t) && PlainRow(t, values)
    ensures Tokenise(RowInsert(AsItem(t, values)).values) == LiteralTexts(values)
  {
    hide Tokenise, ColumnList;
    DumpedRowTokenisesIff(values);
  }

  lemma OnlyWords(p: Profile, t: Table, j: nat, names: seq<string>, row: seq<string>)
    requires j < |t.columns| && |row| == |t.columns| && p.RulesFor(t.name) == map[t.columns[j] := "name"]
    requires j < |names| ==> names[j] != t.columns[j]
    requires forall i: nat | i < |row| ::
               row[i] == if Ruled(p.RulesFor(t.name), names, |row|, i) then "''" else "12345"
    ensures row[j] == "12345" && forall i | 0 <= i < |row| :: ',' !in row[i]
  {
  }

  lemma MisreadOut(p: Profile, t: Table, values: seq<Literal>, row: seq<string>)
    requires ItemLine(AsItem(t, values)) == RowLine(t, values)
    requires TableLine(t, Join(',', row)) == PrintInsert(TableInsert(t, Join(',', row)))
    requires Step(p, FRESH, ItemLine(AsItem(t, values))).out
          == FRESH.out + [PrintInsert(RowInsert(AsItem(t, values)).(values := Join(',', row)))]
    ensures Step(p, FRESH, RowLine(t, values)).out == [TableLine(t, Join(',', row))]
  {
    hide Step, ItemLine, RowLine, TableLine, PrintInsert, ColumnList, Join;
  }

  lemma MisreadTable(t: Table, j: nat)
    requires IsTable(t) && j < |t.columns| && '`' !in t.name && forall c | c in t.columns :: ')' !in c
    requires var names := ColumnNames(ColumnList(t.columns)); j < |names| ==> names[j] != t.columns[j]
    ensures !MasksRealColumns(t)
  {
    var p, values := Blanking(t.name, t.columns[j]), Words(|t.columns|);
    WordsArePlain(t);
    BlankingIsKnown(t.name, t.columns[j], []);
    BlankedLine(t, j, 0);
    var row := MisreadRow(t, j);
    var blanked := LiteralTexts(values)[j := "''"];
    assert MaskedRowLine(p, t, values, 0) == TableLine(t, Join(',', blanked));
    hide *;
    JoinTellsApart(row, blanked, j);
    if TableLine(t, Join(',', row)) == TableLine(t, Join(',', blanked)) {
      SameLineSameValues(t, Join(',', row), Join(',', blanked));
    }
    WrongForOne(p, t, values, TableLine(t, Join(',', row)));
  }

  lemma WrongForOne(p: Profile, t: Table, values: seq<Literal>, written: string)
    requires PlainRow(t, values) && ProvidersKnown(p.RulesFor(t.name), t.columns, |values|)
    requires Step(p, FRESH, RowLine(t, values)).out == [written] && written != MaskedRowLine(p, t, values, 0)
    ensures !MasksRealColumns(t)
  {
    hide PlainRow, Step, RowLine, MaskedRowLine, ProvidersKnown;
    assert FRESH.out + [MaskedRowLine(p, t, values, FRESH.draws)] == [MaskedRowLine(p, t, values, 0)];
  }

  lemma SameLineSameValues(t: Table, a: string, b: string)
    requires TableLine(t, a) == TableLine(t, b)
    ensures a == b
  {
    hide ColumnList;
    var head := "INSERT INTO " + Quoted('`', t.name) + " (" + ColumnList(t.columns) + ") VALUES (";
    assert TableLine(t, a) == head + (a + ");\n") && TableLine(t, b) == head + (b + ");\n");
    assert a + ");\n" == TableLine(t, a)[|head|..] == b + ");\n";
    assert a == (a + ");\n")[..|a|] && b == (b + ");\n")[..|b|];
  }

  lemma PartsOfMisread(t: Table, values: seq<Literal>)
    requires IsTable(t) && PlainRow(t, values) && '`' !in t.name && forall c | c in t.columns :: ')' !in c
    ensures var item := AsItem(t, values);
            item.table == t.name && InsertParts(RowInsert(item)) && ItemLine(item) == RowLine(t, values)
  {
    TableLineIsPrinted(t, Join(',', LiteralTexts(values)));
    DoublingLengthens('`', t.name);
    ListHolds(t.columns, ')');
    forall i | 0 <= i < |ColumnList(t.columns)| ensures ColumnList(t.columns)[i] != ')' {
      assert ColumnList(t.columns)[i] in ColumnList(t.columns);
    }
    forall i | 0 <= i < |t.name| ensures t.name[i] != '`' { assert t.name[i] in t.name; }
    hide ColumnList, TableLine, PrintInsert;
  }

  /** Where a comma or a backtick makes the relay read another name. */
  lemma MisreadPosition(columns: seq<string>, i: nat) returns (j: nat)
    requires columns != [] && (forall c | c in columns :: Identifier(c))
    requires i < |columns| && (',' in columns[i] || '`' in columns[i])
    ensures j < |columns|
    ensures var names := ColumnNames(ColumnList(columns)); j < |names| ==> names[j] != columns[j]
  {
    hide ColumnNames, ColumnList;
    if k :| 0 <= k < |columns| && ',' in columns[k] {
      j := k;
      var names := ColumnNames(ColumnList(columns));
      if k < |names| && ',' in names[k] { NamesTakeFrom(ColumnList(columns), k, ','); }
    } else {
      j := i;
      NamesOfCommaFree(columns);
      StripOfQuotedIff('`', columns[i]);
    }
  }

  /** The relay masks the real columns of a table, under every profile, exactly when
      the table's name holds no backtick and no column's holds a comma, a backtick
      or a closing parenthesis. */
  lemma MasksRealColumnsIffReadable(t: Table)
    requires IsTable(t)
    ensures MasksRealColumns(t) <==> Readable(t)
  {
    if Readable(t) {
      hide Step, RowLine, MaskedRowLine, PlainRow, ProvidersKnown;
      forall p: Profile, st: Stream, values |
        PlainRow(t, values) && !st.failed && ProvidersKnown(p.RulesFor(t.name), t.columns, |values|)
        ensures Step(p, st, RowLine(t, values)).out == st.out + [MaskedRowLine(p, t, values, st.draws)]
      {
        ReadableMasks(p, st, t, values);
      }
    } else if '`' in t.name {
      UnrecognisedTable(t, 0);
    } else {
      var c :| c in t.columns && (',' in c || '`' in c || ')' in c);
      var i :| 0 <= i < |t.columns| && t.columns[i] == c;
      if k :| 0 <= k < |t.columns| && ')' in t.columns[k] {
        UnrecognisedTable(t, k);
      } else {
        var j := MisreadPosition(t.columns, i);
        MisreadTable(t, j);
      }
    }
  }

  // --------------------------------------------- noninterference, by real names

  /** A dump by the names its tables really have. */
  datatype Entry = Text(line: string) | Data(table: Table, values: seq<Literal>)

  function EntryItem(e: Entry): Item
  {
    match e
    case Text(line) => Other(line)
    case Data(table, values) => AsItem(table, values)
  }

  predicate Sound(e: Entry)
  {
    e.Data? ==> IsTable(e.table) && Readable(e.table) && PlainRow(e.table, e.values)
  }

  /** The entries differ in values of columns that the profile names only. */
  predicate SameOutsideColumns(p: Profile, a: Entry, b: Entry)
  {
    || a == b
    || (&& a.Data? && b.Data? && a.table == b.table && |a.values| == |b.values|
        && forall i: nat | i < |a.values| && i < |a.table.columns| ::
             a.table.columns[i] in p.RulesFor(a.table.name) || a.values[i] == b.values[i])
  }

  function EntryLines(dump: seq<Entry>): (lines: seq<string>)
    ensures |lines| == |dump|
    ensures forall i | 0 <= i < |dump| ::
              lines[i] == if dump[i].Data? then RowLine(dump[i].table, dump[i].values) else dump[i].line
  {
    seq(|dump|, i requires 0 <= i < |dump| =>
      if dump[i].Data? then RowLine(dump[i].table, dump[i].values) else dump[i].line)
  }

  function Items(dump: seq<Entry>): (items: seq<Item>)
    ensures |items| == |dump| && forall i | 0 <= i < |dump| :: items[i] == EntryItem(dump[i])
  {
    seq(|dump|, i requires 0 <= i < |dump| => EntryItem(dump[i]))
  }

  lemma SoundEntry(e: Entry)
    requires Sound(e)
    ensures Separable(EntryItem(e))
    ensures ItemLine(EntryItem(e)) == if e.Data? then RowLine(e.table, e.values) else e.line
  {
    if e.Data? {
      ReadableRow(e.table, e.values);
      PlainIsSeparable(EntryItem(e));
    }
  }

  lemma SameColumnsSameRules(p: Profile, a: Entry, b: Entry)
    requires Sound(a) && Sound(b) && SameOutsideColumns(p, a, b)
    ensures SameOutsideRules(p, EntryItem(a), EntryItem(b))
  {
    if a.Data? && b.Data? && a != b {
      ReadableRow(a.table, a.values);
      ReadableRow(b.table, b.values);
      hide Shaped, PlainItem, ColumnNames, ItemLine, RowLine, Readable, IsTable, ColumnList;
    }
  }

  /** Source values of the columns that the profile names never reach the output:
      dumps of plain rows of readable tables that differ in such columns only are
      relayed alike, at every prefix of the stream. */
  lemma RealNoninterference(p: Profile, a: seq<Entry>, b: seq<Entry>, n: nat)
    requires |a| == |b| && n <= |a|
    requires forall i | 0 <= i < |a| :: Sound(a[i]) && Sound(b[i]) && SameOutsideColumns(p, a[i], b[i])
    ensures Relay(p, EntryLines(a)[..n]) == Relay(p, EntryLines(b)[..n])
  {
    forall i | 0 <= i < |a|
      ensures Separable(Items(a)[i]) && Separable(Items(b)[i]) && SameOutsideRules(p, Items(a)[i], Items(b)[i])
      ensures EntryLines(a)[i] == Lines(Items(a))[i] && EntryLines(b)[i] == Lines(Items(b))[i]
    {
      SoundEntry(a[i]);
      SoundEntry(b[i]);
      SameColumnsSameRules(p, a[i], b[i]);
    }
    assert EntryLines(a) == Lines(Items(a)) && EntryLines(b) == Lines(Items(b));
    hide Relay, Separable, SameOutsideRules, Sound;
    RelayNoninterference(p, Items(a), Items(b), n);
  }

  // ------------------------------------------------------------ a concrete pair

  const PAIR: Table := Table("t", ["a", "b"])

  /** The first column's value ends in a backslash. */
  function PairRow(digit: char): (values: seq<Literal>)
    ensures |values| == 2
  {
    [Str("", [Escaped('\\')]), Bare([digit])]
  }

  lemma PairIsRead(digit: char)
    requires '0' <= digit <= '9'
    ensures var item := AsItem(PAIR, PairRow(digit));
            && Shaped(item) && FirstOpen(item, 0) && ItemLine(item) == RowLine(PAIR, PairRow(digit))
            && item.table == "t" && ColumnNames(item.columns) == ["a", "b"]
  {
    hide Shaped, ItemLine, RowLine, ColumnNames, ColumnList, Join, UnitsText;
    UnitsHold([Escaped('\\')], '\n');
    assert '\n' !in UnitsText([Escaped('\\')]);
    InJoin(',', LiteralTexts(PairRow(digit)), '\n');
    ReadableRow(PAIR, PairRow(digit));
  }

  /** The row is taken for one value. */
  lemma PairIsOneToken(digit: char)
    requires '0' <= digit <= '9'
    ensures var s := RowInsert(AsItem(PAIR, PairRow(digit))).values; Tokenise(s) == [s]
  {
    hide LiteralText, Shaped, ColumnList, ColumnNames, ItemLine, RowLine, Tokenise, FirstOpen, LiteralTexts;
    var item := AsItem(PAIR, PairRow(digit));
    PairIsRead(digit);
    DigitText(digit);
    FirstOpenTakesNext(item, 0);
    TokensAtFirstOpen(item, 0);
    var tokens, texts := Tokenise(RowInsert(item).values), LiteralTexts(item.values);
    assert texts[0..] == texts && texts[1..] == [texts[1]];
    assert |tokens| == 1;
  }

  lemma ShapedParts(item: Item)
    requires Shaped(item) && item.Row?
    ensures InsertParts(RowInsert(item))
  {
  }

  lemma JoinOfOne(tokens: seq<string>)
    requires |tokens| == 1
    ensures Join(',', tokens) == tokens[0]
  {
  }

  lemma OneLine(p: Profile, line: string)
    ensures Relay(p, [line]) == Step(p, FRESH, line)
  {
    hide Step;
    FoldSnoc(StepOf(p), FRESH, [], line);
    assert [] + [line] == [line];
    assert StepOf(p)(FRESH, line) == Step(p, FRESH, line);
  }

  lemma PairPasses(p: Profile, digit: char)
    requires p.rules == map["t" := map["b" := "name"]] && '0' <= digit <= '9'
    ensures var x := RowLine(PAIR, PairRow(digit)); Relay(p, [x]).out == [x]
  {
    hide Tokenise, ColumnNames, ColumnList, LiteralTexts, PrintInsert, Join, MaskedRow, DrawsOfRow, InsertParts, Shaped,
      RowLine;
    var item := AsItem(PAIR, PairRow(digit));
    PairIsRead(digit);
    PairIsOneToken(digit);
    var tokens := [RowInsert(item).values];
    assert "b" in p.RulesFor("t");
    NothingRuled(p, "t", ["a", "b"], tokens, 0);
    ShapedParts(item);
    RowStep(p, FRESH, item, tokens);
    JoinOfOne(tokens);
    assert RowInsert(item).(values := RowInsert(item).values) == RowInsert(item);
    hide Step;
    OneLine(p, ItemLine(item));
  }

  lemma PairTexts(digit: char)
    ensures Join(',', LiteralTexts(PairRow(digit))) == "'\\\\'," + [digit]
  {
    var texts := LiteralTexts(PairRow(digit));
    var units := [Escaped('\\')];
    assert units[1..] == [];
    assert UnitsText(units) == "\\\\";
    assert LiteralText(Str("", units)) == "'\\\\'";
    assert texts == ["'\\\\'"] + [[digit]];
    hide LiteralTexts;
    assert texts[1..] == [[digit]];
  }

  lemma PairColumns()
    ensures ColumnList(PAIR.columns) == "`a`, `b`"
  {
    DoublingLengthens('`', "a");
    DoublingLengthens('`', "b");
    var quoted := QuotedNames(PAIR.columns);
    hide Replace;
    assert Quoted('`', "a") == "`a`" && Quoted('`', "b") == "`b`";
    assert quoted[0] == Quoted('`', PAIR.columns[0]) && quoted[1] == Quoted('`', PAIR.columns[1]);
    assert quoted == ["`a`"] + ["`b`"];
    assert quoted[1..] == ["`b`"];
  }

  /** The line as a dump holds it. */
  lemma PairLine(digit: char)
    ensures RowLine(PAIR, PairRow(digit)) == "INSERT INTO `t` (`a`, `b`) VALUES ('\\\\'," + [digit] + ");\n"
  {
    hide ColumnList, LiteralTexts, Join, Replace;
    PairTexts(digit);
    PairColumns();
    DoublingLengthens('`', "t");
    var values := "'\\\\'," + [digit];
    assert RowLine(PAIR, PairRow(digit)) == "INSERT INTO `t` (`a`, `b`) VALUES (" + values + ");\n";
  }

  lemma PairIsTable()
    ensures IsTable(PAIR) && Readable(PAIR)
  {
  }

  /** A concrete instance: two lines of one table that differ in the ruled column
      only are both relayed as they came. */
  lemma LeakExample(fake: (string, nat) -> string)
    ensures var p := Profile(map["t" := map["b" := "name"]], map[], false, fake);
            var x := "INSERT INTO `t` (`a`, `b`) VALUES ('\\\\',1);\n";
            var y := "INSERT INTO `t` (`a`, `b`) VALUES ('\\\\',2);\n";
            && IsTable(PAIR) && Readable(PAIR) && RowLine(PAIR, PairRow('1')) == x && RowLine(PAIR, PairRow('2')) == y
            && SameOutsideColumns(p, Data(PAIR, PairRow('1')), Data(PAIR, PairRow('2')))
            && Relay(p, [x]).out == [x] && Relay(p, [y]).out == [y]
  {
    hide Relay, RowLine, IsTable, Readable;
    var p := Profile(map["t" := map["b" := "name"]], map[], false, fake);
    PairIsTable();
    PairLine('1');
    PairLine('2');
    PairPasses(p, '1');
    PairPasses(p, '2');
  }
}
