/** The COPY relay over the names that tables and columns really have, as the dump
    tool quotes them. */
module PostgresNames {
  import opened Text
  import opened Identifiers
  import opened Masking
  import LinePatterns
  import opened Streams
  import opened TabLines
  import opened PostgresRelay
  import opened PostgresDump

  datatype Table = Table(schema: string, name: string, columns: seq<string>)

  predicate SimpleChar(c: char)
  {
    'a' <= c <= 'z' || '0' <= c <= '9' || c == '_'
  }

  /** Written without quotes: lower case letters, digits and underscores, no digit
      first, and none of the key words in `reserved`. */
  predicate Simple(reserved: set<string>, name: string)
  {
    && name != "" && name !in reserved && !('0' <= name[0] <= '9')
    && forall c | c in name :: SimpleChar(c)
  }

  function Ident(reserved: set<string>, name: string): string
  {
    if Simple(reserved, name) then name else Quoted('"', name)
  }

  function Idents(reserved: set<string>, columns: seq<string>): (idents: seq<string>)
    ensures |idents| == |columns|
    ensures forall i | 0 <= i < |columns| :: idents[i] == Ident(reserved, columns[i])
  {
    seq(|columns|, i requires 0 <= i < |columns| => Ident(reserved, columns[i]))
  }

  function QualifiedName(reserved: set<string>, t: Table): string
  {
    Ident(reserved, t.schema) + ['.'] + Ident(reserved, t.name)
  }

  function ColumnList(reserved: set<string>, columns: seq<string>): string
  {
    JoinWith(", ", Idents(reserved, columns))
  }

  /** The COPY header of a table, as the dump tool writes it. */
  function TableHeader(reserved: set<string>, t: Table): string
  {
    "COPY " + QualifiedName(reserved, t) + " (" + ColumnList(reserved, t.columns) + ") FROM stdin;\n"
  }

  lemma TableHeaderIsHeader(reserved: set<string>, t: Table)
    ensures TableHeader(reserved, t) == Header(QualifiedName(reserved, t), ColumnList(reserved, t.columns), "\n")
  {
    hide QualifiedName, ColumnList;
    var name, columns := QualifiedName(reserved, t), ColumnList(reserved, t.columns);
    assert TableHeader(reserved, t) == "COPY " + (name + (" (" + (columns + (") FROM stdin;" + "\n"))));
  }

  /** A real table: columns, all different. */
  predicate IsTable(t: Table)
  {
    && Identifier(t.schema) && Identifier(t.name) && t.columns != [] && (forall c | c in t.columns :: Identifier(c))
    && forall i, j | 0 <= i < j < |t.columns| :: t.columns[i] != t.columns[j]
  }

  // ---------------------------------------------------- reading the column list

  lemma SimpleIsPlain(reserved: set<string>, name: string, c: char)
    requires Simple(reserved, name) && !SimpleChar(c)
    ensures c !in name
  {
  }

  lemma InIdent(reserved: set<string>, name: string, c: char)
    requires c != '"'
    ensures c in Ident(reserved, name) <==> c in name
  {
    InQuoted('"', name, c);
  }

  lemma IdentIsTight(reserved: set<string>, name: string)
    ensures var s := Ident(reserved, name); s != "" && !IsSpace(s[0]) && !IsSpace(s[|s| - 1])
  {
    if Simple(reserved, name) {
      assert name[0] in name && name[|name| - 1] in name;
    }
  }

  lemma IdentIsNameIff(reserved: set<string>, name: string)
    ensures Ident(reserved, name) == name <==> Simple(reserved, name)
  {
    DoublingLengthens('"', name);
  }

  lemma NamesTakeFrom(list: string, i: nat, c: char)
    requires i < |ColumnNames(list)| && c in ColumnNames(list)[i]
    ensures c in list && c != ','
  {
    StripTakesFrom(Split(',', list)[i], c);
    PartsTakeFrom(',', list, i, c);
  }

  /** Without commas, the relay's names are the names as they are written. */
  lemma NamesOfCommaFree(reserved: set<string>, columns: seq<string>)
    requires columns != [] && forall c | c in columns :: ',' !in c
    ensures ColumnNames(ColumnList(reserved, columns)) == Idents(reserved, columns)
  {
    var idents := Idents(reserved, columns);
    var pieces := Spaced(idents);
    ListIsJoin(idents);
    forall i | 0 <= i < |pieces| ensures ',' !in pieces[i] && Strip(pieces[i]) == idents[i] {
      assert columns[i] in columns;
      InIdent(reserved, columns[i], ',');
      IdentIsTight(reserved, columns[i]);
      StripOfTight(idents[i]);
    }
    SplitOfJoin(',', pieces);
  }

  /** The relay reads the real column names exactly when none needs quoting: it
      strips quotes from the table's name only. */
  lemma NamesReadIff(reserved: set<string>, columns: seq<string>)
    requires columns != []
    ensures ColumnNames(ColumnList(reserved, columns)) == columns <==> forall c | c in columns :: Simple(reserved, c)
  {
    if forall c | c in columns :: Simple(reserved, c) {
      forall c | c in columns ensures ',' !in c { SimpleIsPlain(reserved, c, ','); }
      NamesOfCommaFree(reserved, columns);
      forall i | 0 <= i < |columns| ensures Idents(reserved, columns)[i] == columns[i] {
        assert columns[i] in columns;
        IdentIsNameIff(reserved, columns[i]);
      }
    } else {
      var c :| c in columns && !Simple(reserved, c);
      var i :| 0 <= i < |columns| && columns[i] == c;
      var _ := MisreadPosition(reserved, columns, i);
    }
  }

  /** Where a name that needs quoting makes the relay read another one. */
  lemma MisreadPosition(reserved: set<string>, columns: seq<string>, i: nat) returns (j: nat)
    requires i < |columns| && !Simple(reserved, columns[i])
    ensures j < |columns| && !Simple(reserved, columns[j])
    ensures var names := ColumnNames(ColumnList(reserved, columns)); j < |names| ==> names[j] != columns[j]
  {
    hide ColumnNames, ColumnList;
    if k :| 0 <= k < |columns| && ',' in columns[k] {
      j := k;
      var names := ColumnNames(ColumnList(reserved, columns));
      if k < |names| && ',' in names[k] { NamesTakeFrom(ColumnList(reserved, columns), k, ','); }
    } else {
      j := i;
      NamesOfCommaFree(reserved, columns);
      IdentIsNameIff(reserved, columns[i]);
    }
  }

  // --------------------------------------------------------- reading the table

  lemma FirstDot(reserved: set<string>, t: Table)
    requires '.' !in t.schema
    ensures TableOf(QualifiedName(reserved, t)) == StripChar('"', Ident(reserved, t.name))
  {
    var name, front := QualifiedName(reserved, t), Ident(reserved, t.schema);
    InIdent(reserved, t.schema, '.');
    assert name[..|front|] == front && name[|front|] == '.';
    IndexOfUnique('.', name, |front|);
    assert name[|front| + 1..] == Ident(reserved, t.name);
  }

  /** A dot in the schema's name leaves the dot between the names in the table's. */
  lemma DotInSchema(reserved: set<string>, t: Table)
    requires '.' in t.schema && t.name != ""
    ensures TableOf(QualifiedName(reserved, t)) != t.name
  {
    hide Ident, StripChar, IndexOf;
    var name, front := QualifiedName(reserved, t), Ident(reserved, t.schema);
    InIdent(reserved, t.schema, '.');
    var dot := IndexOf('.', name);
    var d :| 0 <= d < |front| && front[d] == '.';
    assert name[d] == '.';
    assert dot < |front|;
    AfterDot(front, Ident(reserved, t.name), dot);
    LongAfterStrip(reserved, front[dot + 1..], t.name);
  }

  lemma AfterDot(front: string, back: string, dot: nat)
    requires dot < |front|
    ensures (front + ['.'] + back)[dot + 1..] == front[dot + 1..] + ['.'] + back
  {
  }

  lemma LongAfterStrip(reserved: set<string>, front: string, name: string)
    requires name != ""
    ensures StripChar('"', front + ['.'] + Ident(reserved, name)) != name
  {
    var rest := front + ['.'] + Ident(reserved, name);
    StrippedEnds('"', rest);
    if name[|name| - 1] != '"' {
      var last := LastOfName(reserved, name);
      hide Ident, StripChar;
      assert rest[|front|] == '.';
      assert rest[|front| + 1 + last] == Ident(reserved, name)[last];
      StripKeepsSpan('"', rest, |front|, |front| + 1 + last);
    }
  }

  /** Where the last character of a name stands in its written form. */
  lemma LastOfName(reserved: set<string>, name: string) returns (last: nat)
    requires name != ""
    ensures |name| - 1 <= last < |Ident(reserved, name)|
    ensures Ident(reserved, name)[last] == name[|name| - 1]
  {
    if Simple(reserved, name) {
      last := |name| - 1;
    } else {
      DoublingKeepsEnds('"', name);
      DoublingLengthens('"', name);
      last := |Replace('"', ['"', '"'], name)|;
    }
  }

  /** The relay reads the real table name exactly when the schema's name has no dot
      and the table's no quote. */
  lemma TableReadIff(reserved: set<string>, t: Table)
    requires t.name != ""
    ensures TableOf(QualifiedName(reserved, t)) == t.name <==> '.' !in t.schema && '"' !in t.name
  {
    if '.' in t.schema {
      DotInSchema(reserved, t);
    } else {
      FirstDot(reserved, t);
      if Simple(reserved, t.name) {
        SimpleIsPlain(reserved, t.name, '"');
        assert t.name[0] in t.name && t.name[|t.name| - 1] in t.name;
      } else {
        StripOfQuotedIff('"', t.name);
      }
    }
  }

  // ------------------------------------------------------- reading the header

  predicate NoBlank(s: string)
  {
    forall c | c in s :: !IsSpace(c)
  }

  /** No name that the relay would misread, or not recognise. */
  predicate Readable(reserved: set<string>, t: Table)
  {
    && NoBlank(t.schema) && '.' !in t.schema
    && NoBlank(t.name) && '"' !in t.name
    && forall c | c in t.columns :: Simple(reserved, c)
  }

  predicate BeginsWith(names: seq<string>, columns: seq<string>)
  {
    columns <= names
  }

  /** The relay takes the header for one of this table, with these columns first. */
  predicate HeaderRead(reserved: set<string>, t: Table)
  {
    var header := ParseCopy(TableHeader(reserved, t));
    && header.Some? && TableOf(header.value.0) == t.name
    && BeginsWith(ColumnNames(header.value.1), t.columns)
  }

  lemma BlankInName(reserved: set<string>, t: Table)
    ensures NoBlank(QualifiedName(reserved, t)) <==> NoBlank(t.schema) && NoBlank(t.name)
  {
    var name := QualifiedName(reserved, t);
    forall c | IsSpace(c) ensures c in name <==> c in t.schema || c in t.name {
      InIdent(reserved, t.schema, c);
      InIdent(reserved, t.name, c);
    }
  }

  lemma ListHolds(reserved: set<string>, columns: seq<string>, c: char)
    requires c != '"' && c != ',' && c != ' '
    ensures c in ColumnList(reserved, columns) <==> exists i :: 0 <= i < |columns| && c in columns[i]
  {
    var idents := Idents(reserved, columns);
    ListIsJoin(idents);
    InJoin(',', Spaced(idents), c);
    forall i | 0 <= i < |columns| ensures c in Spaced(idents)[i] <==> c in columns[i] {
      InIdent(reserved, columns[i], c);
    }
  }

  /** Names without blanks and columns without closing parentheses: the header is
      recognised, with the two lists as they are written. */
  lemma HeaderIsRecognised(reserved: set<string>, t: Table)
    requires IsTable(t) && NoBlank(t.schema) && NoBlank(t.name) && forall c | c in t.columns :: ')' !in c
    ensures var name, list := QualifiedName(reserved, t), ColumnList(reserved, t.columns);
            HeaderParts(name, list, "\n") && ParseCopy(TableHeader(reserved, t)) == Some((name, list))
  {
    var name, list := QualifiedName(reserved, t), ColumnList(reserved, t.columns);
    TableHeaderIsHeader(reserved, t);
    BlankInName(reserved, t);
    ListHolds(reserved, t.columns, ')');
    forall i | 0 <= i < |name| ensures !IsSpace(name[i]) { assert name[i] in name; }
    forall i | 0 <= i < |list| ensures list[i] != ')' { assert list[i] in list; }
    assert name != "" by { assert name[|Ident(reserved, t.schema)|] == '.'; }
    hide QualifiedName, ColumnList, TableHeader, ParseCopy, Header;
    assert "\n" in LinePatterns.TAILS;
    ParseCopyExact(TableHeader(reserved, t), name, list);
  }

  lemma ReadableHeader(reserved: set<string>, t: Table)
    requires IsTable(t) && Readable(reserved, t)
    ensures var name, list := QualifiedName(reserved, t), ColumnList(reserved, t.columns);
            && HeaderParts(name, list, "\n") && ParseCopy(TableHeader(reserved, t)) == Some((name, list))
            && TableOf(name) == t.name && ColumnNames(list) == t.columns
  {
    forall c | c in t.columns ensures ')' !in c { SimpleIsPlain(reserved, c, ')'); }
    HeaderIsRecognised(reserved, t);
    TableReadIff(reserved, t);
    NamesReadIff(reserved, t.columns);
  }

  /** What is in a recognised name or list. */
  lemma RecognisedParts(line: string)
    requires ParseCopy(line).Some?
    ensures NoBlank(ParseCopy(line).value.0) && ')' !in ParseCopy(line).value.1
  {
    var (name, list) := ParseCopy(line).value;
    ParseCopyExact(line, name, list);
  }

  lemma TableTakesFrom(name: string, c: char)
    requires c in TableOf(name)
    ensures c in name
  {
    var dot := IndexOf('.', name);
    StripCharTakesFrom('"', if dot < |name| then name[dot + 1..] else name, c);
  }

  /** A blank right before an opening parenthesis. */
  predicate OpensInside(s: string)
  {
    exists k | 0 <= k < |s| - 1 :: s[k] == ' ' && s[k + 1] == '('
  }

  lemma {:induction false} DoublingOpensNothing(s: string, i: nat)
    requires var r := Replace('"', ['"', '"'], s); i + 1 < |r| && r[i] == ' ' && r[i + 1] == '('
    ensures OpensInside(s)
  {
    var head := if s[0] == '"' then ['"', '"'] else [s[0]];
    var r, tail := Replace('"', ['"', '"'], s), Replace('"', ['"', '"'], s[1..]);
    assert r == head + tail;
    if i >= |head| {
      DoublingOpensNothing(s[1..], i - |head|);
      var k :| 0 <= k < |s[1..]| - 1 && s[1..][k] == ' ' && s[1..][k + 1] == '(';
      assert s[k + 1] == ' ' && s[k + 1 + 1] == '(';
    } else {
      assert s[0] == ' ' && tail[0] == '(';
      DoublingKeepsEnds('"', s[1..]);
      assert s[0] == ' ' && s[0 + 1] == '(';
    }
  }

  /** In a recognised line the name goes up to the first blank, and an opening
      parenthesis comes next. */
  lemma RecognisedNameEnds(line: string)
    requires ParseCopy(line).Some?
    ensures var n := |ParseCopy(line).value.0|;
            && 5 + n + 1 < |line| && line[5 + n] == ' ' && line[5 + n + 1] == '('
            && forall i | 5 <= i < 5 + n :: !IsSpace(line[i])
  {
    var (name, list) := ParseCopy(line).value;
    ParseCopyExact(line, name, list);
    var tail :| HeaderParts(name, list, tail) && line == Header(name, list, tail);
    hide ParseCopy;
    var rest := list + (") FROM stdin;" + tail);
    assert line == "COPY " + (name + (" (" + rest));
    forall i | 5 <= i < 5 + |name| ensures !IsSpace(line[i]) {
      assert line[i] == name[i - 5];
    }
  }

  /** A text with a blank in it at the place of the name: its first blank is the
      one that ends the name. */
  lemma FirstBlankOpens(front: string, line: string, b: nat, n: nat)
    requires "COPY " + front <= line && b < |front| && IsSpace(front[b]) && !IsSpace(front[|front| - 1])
    requires 5 + n + 1 < |line| && line[5 + n] == ' ' && line[5 + n + 1] == '('
    requires forall i | 5 <= i < 5 + n :: !IsSpace(line[i])
    ensures n + 1 < |front| && front[n] == ' ' && front[n + 1] == '('
  {
    forall i | 0 <= i < |front| ensures line[5 + i] == front[i] {
      assert line[5 + i] == ("COPY " + front)[5 + i];
    }
    assert IsSpace(line[5 + b]);
  }

  lemma BlankSchemaIsNotRecognised(reserved: set<string>, t: Table)
    requires IsTable(t) && !NoBlank(t.schema) && !OpensInside(t.schema)
    ensures ParseCopy(TableHeader(reserved, t)).None?
  {
    var line, front := TableHeader(reserved, t), Ident(reserved, t.schema);
    HeaderBegins(reserved, t);
    IdentIsTight(reserved, t.schema);
    hide TableHeader, ParseCopy;
    var c :| c in t.schema && IsSpace(c);
    InIdent(reserved, t.schema, c);
    var b :| 0 <= b < |front| && front[b] == c;
    if ParseCopy(line).Some? {
      var n := |ParseCopy(line).value.0|;
      RecognisedNameEnds(line);
      FirstBlankOpens(front, line, b, n);
      IdentOpensNothing(reserved, t.schema, n);
    }
  }

  lemma IdentOpensNothing(reserved: set<string>, name: string, i: nat)
    requires var s := Ident(reserved, name); i + 1 < |s| && s[i] == ' ' && s[i + 1] == '('
    ensures OpensInside(name)
  {
    if Simple(reserved, name) {
      assert name[i] == ' ' && name[i + 1] == '(';
    } else {
      var r := Replace('"', ['"', '"'], name);
      assert Ident(reserved, name) == ['"'] + (r + ['"']);
      DoublingOpensNothing(name, i - 1);
    }
  }

  lemma HeaderBegins(reserved: set<string>, t: Table)
    ensures "COPY " + Ident(reserved, t.schema) <= TableHeader(reserved, t)
  {
    hide ColumnList, Ident;
    var rest := ['.'] + Ident(reserved, t.name) + " (" + ColumnList(reserved, t.columns) + ") FROM stdin;\n";
    assert TableHeader(reserved, t) == ("COPY " + Ident(reserved, t.schema)) + rest;
  }

  /** The relay reads the header rightly exactly when no column needs quoting, no
      name holds a blank, the schema's no dot and the table's no quote; unless
      the schema's name holds a blank before a parenthesis, inside which the
      pattern may find a column list. */
  lemma HeaderReadIffReadable(reserved: set<string>, t: Table)
    requires IsTable(t) && !OpensInside(t.schema)
    ensures HeaderRead(reserved, t) <==> Readable(reserved, t)
  {
    hide ParseCopy, ColumnNames, TableOf, QualifiedName, ColumnList, TableHeader, Simple, IsTable, OpensInside, NoBlank,
      IsSpace, HeaderRead;
    if Readable(reserved, t) {
      ReadIfReadable(reserved, t);
    } else if !NoBlank(t.schema) {
      BlankSchemaIsNotRead(reserved, t);
    } else if HeaderRead(reserved, t) {
      ReadableIfRead(reserved, t);
    }
  }

  lemma ReadIfReadable(reserved: set<string>, t: Table)
    requires IsTable(t) && Readable(reserved, t)
    ensures HeaderRead(reserved, t)
  {
    hide ParseCopy, ColumnNames, TableOf, QualifiedName, ColumnList, TableHeader, HeaderParts;
    ReadableHeader(reserved, t);
  }

  lemma BlankSchemaIsNotRead(reserved: set<string>, t: Table)
    requires IsTable(t) && !OpensInside(t.schema) && !NoBlank(t.schema)
    ensures !HeaderRead(reserved, t)
  {
    hide ParseCopy, ColumnNames, TableOf, TableHeader, OpensInside, NoBlank;
    BlankSchemaIsNotRecognised(reserved, t);
  }

  lemma ReadableIfRead(reserved: set<string>, t: Table)
    requires IsTable(t) && NoBlank(t.schema) && HeaderRead(reserved, t)
    ensures Readable(reserved, t)
  {
    hide ParseCopy, ColumnNames, TableOf, QualifiedName, ColumnList, TableHeader, Simple, IsSpace, IsTable, HeaderParts;
    ReadHeaderParts(reserved, t);
    HeaderIsRecognised(reserved, t);
    NamedTable(t);
    TableReadIff(reserved, t);
    if c :| c in t.columns && !Simple(reserved, c) {
      var i :| 0 <= i < |t.columns| && t.columns[i] == c;
      var j := MisreadPosition(reserved, t.columns, i);
      SameBeginning(ColumnNames(ColumnList(reserved, t.columns)), t.columns, j);
    }
  }

  lemma NamedTable(t: Table)
    requires IsTable(t)
    ensures t.name != ""
  {
  }

  lemma SameBeginning(names: seq<string>, columns: seq<string>, j: nat)
    requires BeginsWith(names, columns) && j < |columns|
    ensures j < |names| && names[j] == columns[j]
  {
  }

  /** A header that is read has no blank in the table's name and no closing
      parenthesis in a column's. */
  lemma ReadHeaderParts(reserved: set<string>, t: Table)
    requires HeaderRead(reserved, t)
    ensures NoBlank(t.name) && forall c | c in t.columns :: ')' !in c
  {
    hide ParseCopy, ColumnNames, TableOf, TableHeader, IsSpace, BeginsWith;
    var (name, list) := ParseCopy(TableHeader(reserved, t)).value;
    RecognisedParts(TableHeader(reserved, t));
    forall c | c in t.name ensures !IsSpace(c) { TableTakesFrom(name, c); }
    forall c | c in t.columns ensures ')' !in c {
      var k :| 0 <= k < |t.columns| && t.columns[k] == c;
      SameBeginning(ColumnNames(list), t.columns, k);
      if ')' in c { NamesTakeFrom(list, k, ')'); }
    }
  }

  const ODD_SCHEMA := "s (id, z"
  const ODD := Table(ODD_SCHEMA, "s", ["id"])

  lemma OddSchemaIsOdd(reserved: set<string>)
    ensures OpensInside(ODD_SCHEMA) && !NoBlank(ODD_SCHEMA) && !Simple(reserved, ODD_SCHEMA) && '"' !in ODD_SCHEMA
  {
    assert ODD_SCHEMA[1] in ODD_SCHEMA && IsSpace(ODD_SCHEMA[1]) && !SimpleChar(ODD_SCHEMA[1]);
    assert ODD_SCHEMA[1] == ' ' && ODD_SCHEMA[1 + 1] == '(';
  }

  lemma OddIdents(reserved: set<string>)
    requires "s" !in reserved && "id" !in reserved
    ensures Ident(reserved, ODD_SCHEMA) == ['"'] + (ODD_SCHEMA + ['"'])
    ensures Ident(reserved, "s") == "s" && Ident(reserved, "id") == "id"
  {
    OddSchemaIsOdd(reserved);
    hide ODD_SCHEMA;
    DoublingLengthens('"', ODD_SCHEMA);
  }

  lemma OddIsTable()
    ensures IsTable(ODD)
  {
  }

  lemma OddText()
    ensures ['"'] + (ODD_SCHEMA + ['"']) + ['.'] + "s" + " (" + "id" == "\"s" + (" (" + "id, z\".s (id")
  {
  }

  lemma OddList()
    ensures ColumnNames("id, z\".s (id") == ["id", "z\".s (id"]
  {
    var parts := ["id", " z\".s (id"];
    assert parts[1..] == [" z\".s (id"];
    assert "id, z\".s (id" == Join(',', parts);
    SplitOfJoin(',', parts);
    StripOfTight("id");
    StripOfTight("z\".s (id");
    assert " z\".s (id" == " " + "z\".s (id";
  }

  lemma OneColumnHeader(reserved: set<string>, t: Table, c: string, name: string, list: string)
    requires t.columns == [c]
    requires QualifiedName(reserved, t) + " (" + Ident(reserved, c) == name + (" (" + list)
    ensures TableHeader(reserved, t) == Header(name, list, "\n")
  {
    hide QualifiedName, Ident;
    var both, close := name + (" (" + list), ") FROM stdin;" + "\n";
    assert Idents(reserved, [c]) == [Ident(reserved, c)];
    assert TableHeader(reserved, t) == "COPY " + both + ") FROM stdin;\n";
    assert "COPY " + both + ") FROM stdin;\n" == "COPY " + (name + (" (" + (list + close)));
  }

  lemma OddHeader(reserved: set<string>)
    requires "s" !in reserved && "id" !in reserved
    ensures TableHeader(reserved, ODD) == Header("\"s", "id, z\".s (id", "\n")
  {
    OddIdents(reserved);
    OddText();
    hide ODD_SCHEMA, Ident, TableHeader, Header;
    OneColumnHeader(reserved, ODD, "id", "\"s", "id, z\".s (id");
  }

  lemma OddParts()
    ensures HeaderParts("\"s", "id, z\".s (id", "\n") && TableOf("\"s") == "s"
  {
    assert "\n" in LinePatterns.TAILS;
    assert "\"s"[1..] == "s";
  }

  lemma ReadAs(reserved: set<string>, t: Table, name: string, list: string)
    requires HeaderParts(name, list, "\n") && TableHeader(reserved, t) == Header(name, list, "\n")
    requires TableOf(name) == t.name && BeginsWith(ColumnNames(list), t.columns)
    ensures HeaderRead(reserved, t)
  {
    hide ParseCopy, TableHeader, TableOf, ColumnNames, HeaderParts, Header, BeginsWith;
    ParseCopyExact(TableHeader(reserved, t), name, list);
  }

  lemma NotReadable(reserved: set<string>, t: Table)
    requires !NoBlank(t.schema)
    ensures !Readable(reserved, t)
  {
  }

  /** Such a schema: in `COPY "s (id, z".s (id) FROM stdin;` the pattern takes `"s` for
      the name and the parenthesis inside the schema's name for the column list, and
      yet the relay has the right table and the right column. */
  lemma ReadByCoincidence(reserved: set<string>)
    requires "s" !in reserved && "id" !in reserved
    ensures IsTable(ODD) && OpensInside(ODD.schema) && !Readable(reserved, ODD) && HeaderRead(reserved, ODD)
  {
    hide TableHeader, TableOf, ColumnNames, HeaderParts, Header, IsTable, OpensInside, Readable, NoBlank, HeaderRead,
      ODD_SCHEMA, Simple;
    OddIsTable();
    OddSchemaIsOdd(reserved);
    OddHeader(reserved);
    OddList();
    OddParts();
    NotReadable(reserved, ODD);
    ReadAs(reserved, ODD, "\"s", "id, z\".s (id");
  }

  // --------------------------------------------- masking by the real names

  predicate PlainRow(t: Table, row: seq<string>)
  {
    |row| == |t.columns| && DataRow(row) && !TimeoutRow(row)
  }

  /** The lines of a block. */
  function BlockLines(reserved: set<string>, t: Table, rows: seq<seq<string>>): seq<string>
  {
    [TableHeader(reserved, t)] + RowLines(rows) + [END]
  }

  /** Under every profile with known providers, and for all plain rows, the relay
      masks the columns that the profile names. */
  ghost predicate MasksRealColumns(reserved: set<string>, t: Table)
  {
    forall p: Profile, rows |
      (forall row | row in rows :: PlainRow(t, row)) && ProvidersKnown(p.RulesFor(t.name), t.columns, |t.columns|) ::
      Relay(p, BlockLines(reserved, t, rows)).out
      == BlockLines(reserved, t, MaskRows(p, t.name, t.columns, rows, 0))
  }

  lemma {:induction false} SameDrawsBefore(rules: Rules, a: seq<string>, b: seq<string>, n: nat, i: nat)
    requires forall j: nat :: Ruled(rules, a, n, j) <==> Ruled(rules, b, n, j)
    ensures DrawsBefore(rules, a, n, i) == DrawsBefore(rules, b, n, i)
  {
    if i > 0 { SameDrawsBefore(rules, a, b, n, i - 1); }
  }

  lemma {:induction false} NoDrawsAfter(rules: Rules, columns: seq<string>, n: nat, i: nat)
    requires n <= i
    ensures DrawsBefore(rules, columns, n, i) == DrawsBefore(rules, columns, n, n)
  {
    if n < i { NoDrawsAfter(rules, columns, n, i - 1); }
  }

  lemma LongerNamesMaskAlike(p: Profile, table: string, columns: seq<string>, names: seq<string>, row: seq<string>, k: nat)
    requires BeginsWith(names, columns) && |row| == |columns|
    ensures MaskedRow(p, AS_IS, table, names, row, k) == MaskedRow(p, AS_IS, table, columns, row, k)
    ensures DrawsOfRow(p.RulesFor(table), names, |row|) == DrawsOfRow(p.RulesFor(table), columns, |row|)
    ensures ProvidersKnown(p.RulesFor(table), names, |row|) <==> ProvidersKnown(p.RulesFor(table), columns, |row|)
  {
    var rules, n := p.RulesFor(table), |row|;
    assert forall j: nat :: Ruled(rules, names, n, j) <==> Ruled(rules, columns, n, j);
    forall i: nat ensures DrawsBefore(rules, names, n, i) == DrawsBefore(rules, columns, n, i) {
      SameDrawsBefore(rules, names, columns, n, i);
    }
    NoDrawsAfter(rules, names, n, |names|);
    NoDrawsAfter(rules, columns, n, |columns|);
    forall i: nat | i < n && Ruled(rules, names, n, i)
      ensures MaskAt(p, table, names, n, k, i) == MaskAt(p, table, columns, n, k, i)
    {
      assert names[i] == columns[i];
    }
    var a, b := MaskedRow(p, AS_IS, table, names, row, k), MaskedRow(p, AS_IS, table, columns, row, k);
    forall i | 0 <= i < n ensures a[i] == b[i] {
      assert a[i] == MaskedValue(p, AS_IS, table, names, row, k, i);
      assert b[i] == MaskedValue(p, AS_IS, table, columns, row, k, i);
    }
  }

  lemma {:induction false} LongerNamesMaskRowsAlike(p: Profile, table: string, columns: seq<string>, names: seq<string>,
                                                    rows: seq<seq<string>>, k: nat)
    requires BeginsWith(names, columns) && forall row | row in rows :: |row| == |columns|
    ensures MaskRows(p, table, names, rows, k) == MaskRows(p, table, columns, rows, k)
    ensures RowDraws(p, table, names, rows) == RowDraws(p, table, columns, rows)
  {
    hide MaskRows, RowDraws, MaskedRow, DrawsOfRow, ProvidersKnown, BeginsWith;
    if rows == [] {
      NoRows(p, table, columns, rows, k);
      NoRows(p, table, names, rows, k);
    } else {
      var front, last := rows[..|rows| - 1], rows[|rows| - 1];
      assert last in rows;
      LongerNamesMaskRowsAlike(p, table, columns, names, front, k);
      MaskRowsLast(p, table, names, rows, k);
      MaskRowsLast(p, table, columns, rows, k);
      LongerNamesMaskAlike(p, table, columns, names, last, k + RowDraws(p, table, columns, front));
    }
  }

  /** A recognised header with its rows, as an item of a dump. */
  lemma RecognisedBlock(reserved: set<string>, t: Table, rows: seq<seq<string>>) returns (item: Item)
    requires IsTable(t) && HeaderRead(reserved, t) && forall row | row in rows :: PlainRow(t, row)
    ensures item.Copy? && WellFormed(item) && NoTimeoutRows(item) && item.rows == rows
    ensures TableOf(item.name) == t.name && BeginsWith(ColumnNames(item.columns), t.columns)
    ensures Header(item.name, item.columns, item.tail) == TableHeader(reserved, t)
  {
    var line := TableHeader(reserved, t);
    var (name, list) := ParseCopy(line).value;
    ParseCopyExact(line, name, list);
    var tail :| HeaderParts(name, list, tail) && line == Header(name, list, tail);
    item := Copy(name, list, tail, rows);
  }

  lemma ReadTableMasks(p: Profile, reserved: set<string>, t: Table, rows: seq<seq<string>>)
    requires IsTable(t) && HeaderRead(reserved, t) && forall row | row in rows :: PlainRow(t, row)
    requires ProvidersKnown(p.RulesFor(t.name), t.columns, |t.columns|)
    ensures Relay(p, BlockLines(reserved, t, rows)).out
         == BlockLines(reserved, t, MaskRows(p, t.name, t.columns, rows, 0))
  {
    hide WellFormed, NoTimeoutRows, TableHeader, Header, HeaderRead, ColumnNames, TableOf, RowLines, MaskRows, RowDraws,
      Relay, IsTable, DataRow, TimeoutRow, ProvidersKnown, BeginsWith;
    var item := RecognisedBlock(reserved, t, rows);
    var names := ColumnNames(item.columns);
    LongerNamesMaskRowsAlike(p, t.name, t.columns, names, rows, 0);
    forall row | row in rows ensures ProvidersKnown(p.RulesFor(t.name), names, |row|) {
      LongerNamesMaskAlike(p, t.name, t.columns, names, row, 0);
    }
    if p.RulesFor(t.name) == map[] { UnruledRowsStay(p, t.name, t.columns, rows, 0); }
    assert MaskBlock(p, item, 0) == MaskRows(p, t.name, t.columns, rows, 0);
    BlockOut(p, item);
  }

  // ----------------------------------------------------- tables that are misread

  /** Rules one column of one table; every mask is empty. */
  function OneColumn(table: string, column: string): Profile
  {
    Profile(map[table := map[column := "name"]], map[], false, (_, _) => "")
  }

  /** A row of the letter x. */
  function Letters(n: nat): (row: seq<string>)
    ensures |row| == n && forall i | 0 <= i < n :: row[i] == "x"
  {
    seq(n, i => "x")
  }

  lemma LettersArePlain(t: Table)
    requires IsTable(t)
    ensures PlainRow(t, Letters(|t.columns|))
  {
    var row := Letters(|t.columns|);
    var line := RowLine(row);
    assert line[0] == 'x';
    if ParseCopy(line).Some? {
      var (name, list) := ParseCopy(line).value;
      ParseCopyExact(line, name, list);
    }
  }

  lemma OneColumnMasks(t: Table, names: seq<string>, j: nat)
    requires j < |t.columns|
    ensures var p := OneColumn(t.name, t.columns[j]);
            var row := MaskedRow(p, AS_IS, t.name, names, Letters(|t.columns|), 0);
            && (forall table, columns, n :: ProvidersKnown(p.RulesFor(table), columns, n))
            && p.RulesFor(t.name) != map[]
            && (forall i | 0 <= i < |row| :: row[i] == if i < |names| && names[i] == t.columns[j] then "" else "x")
  {
    var p := OneColumn(t.name, t.columns[j]);
    assert t.columns[j] in p.RulesFor(t.name);
    var letters := Letters(|t.columns|);
    var row := MaskedRow(p, AS_IS, t.name, names, letters, 0);
    forall i | 0 <= i < |row| ensures row[i] == if i < |names| && names[i] == t.columns[j] then "" else "x" {
      assert row[i] == MaskedValue(p, AS_IS, t.name, names, letters, 0, i);
    }
  }

  lemma ThreeSteps(p: Profile, a: string, b: string, c: string)
    ensures Relay(p, [a, b, c]) == Step(p, Step(p, Step(p, FRESH, a), b), c)
  {
    hide Step;
    TwoSteps(p, FRESH, a, b);
    FoldSnoc(StepOf(p), FRESH, [a, b], c);
    assert [a, b] + [c] == [a, b, c];
  }

  /** The position whose value goes out as it came. */
  predicate Missed(reserved: set<string>, t: Table, j: nat)
    requires j < |t.columns|
  {
    var header := ParseCopy(TableHeader(reserved, t));
    || header.None? || TableOf(header.value.0) != t.name
    || (var names := ColumnNames(header.value.1); j < |names| ==> names[j] != t.columns[j])
  }

  lemma SomePositionIsMissed(reserved: set<string>, t: Table) returns (j: nat)
    requires IsTable(t) && !HeaderRead(reserved, t)
    ensures j < |t.columns| && Missed(reserved, t, j)
  {
    hide ParseCopy, ColumnNames, TableOf, TableHeader;
    var header := ParseCopy(TableHeader(reserved, t));
    j := 0;
    if header.Some? && TableOf(header.value.0) == t.name {
      var names := ColumnNames(header.value.1);
      j := FirstDifference(t.columns, names);
    }
  }

  lemma FirstDifference(a: seq<string>, b: seq<string>) returns (i: nat)
    requires !(a <= b)
    ensures i < |a| && (i < |b| ==> b[i] != a[i])
  {
    i := 0;
    while i < |a| && i < |b| && a[i] == b[i]
      invariant i <= |a| && i <= |b| && a[..i] == b[..i]
    {
      i := i + 1;
    }
  }

  lemma HeaderIsNoTimeout(reserved: set<string>, t: Table)
    ensures !(TIMEOUT <= TableHeader(reserved, t)) && TableHeader(reserved, t) != END
  {
    hide QualifiedName, ColumnList;
    assert TableHeader(reserved, t)[0] == 'C';
  }

  /** No rules are in force after this header. */
  lemma PassedRow(p: Profile, header: string, line: string)
    requires !(TIMEOUT <= header) && header != END && !(TIMEOUT <= line) && line != END
    requires ParseCopy(line).None? && !p.wholeDb
    requires var parsed := ParseCopy(header); parsed.None? || p.RulesFor(TableOf(parsed.value.0)) == map[]
    ensures Step(p, Step(p, FRESH, header), line).out == [header, line]
  {
    hide ParseCopy, TableOf, ColumnNames, Fields, MaskedRow, ProvidersKnown, DrawsOfRow, RowLine;
  }

  lemma RuledRow(p: Profile, header: string, line: string, table: string, names: seq<string>)
    requires !(TIMEOUT <= header) && !(TIMEOUT <= line) && line != END && ParseCopy(line).None?
    requires var parsed := ParseCopy(header);
             parsed.Some? && TableOf(parsed.value.0) == table && ColumnNames(parsed.value.1) == names
    requires table != "" && p.RulesFor(table) != map[] && ProvidersKnown(p.RulesFor(table), names, |Fields(line)|)
    ensures Step(p, Step(p, FRESH, header), line).out
         == [header, RowLine(MaskedRow(p, AS_IS, table, names, Fields(line), 0))]
  {
    hide ParseCopy, TableOf, ColumnNames, Fields, MaskedRow, ProvidersKnown, DrawsOfRow, RowLine;
  }

  /** What the relay writes for a row of letters under a missed position. */
  lemma MissedRow(reserved: set<string>, t: Table, j: nat) returns (row: seq<string>)
    requires IsTable(t) && j < |t.columns| && Missed(reserved, t, j)
    ensures |row| == |t.columns| && row[j] == "x" && forall f | f in row :: '\t' !in f && '\n' !in f
    ensures var p, header := OneColumn(t.name, t.columns[j]), TableHeader(reserved, t);
            Step(p, Step(p, FRESH, header), RowLine(Letters(|t.columns|))).out == [header, RowLine(row)]
  {
    hide Step, ParseCopy, TableHeader, ColumnNames, TableOf, RowLine, Fields, MaskedRow, IsTable, OneColumn,
      ProvidersKnown;
    var p, header, letters := OneColumn(t.name, t.columns[j]), TableHeader(reserved, t), Letters(|t.columns|);
    var parsed := ParseCopy(header);
    LettersLine(t);
    HeaderIsNoTimeout(reserved, t);
    OneRule(t, j);
    if parsed.Some? && TableOf(parsed.value.0) == t.name {
      var names := ColumnNames(parsed.value.1);
      NamedTable(t);
      OneColumnMasks(t, names, j);
      row := MaskedRow(p, AS_IS, t.name, names, letters, 0);
      RuledRow(p, header, RowLine(letters), t.name, names);
    } else {
      row := letters;
      PassedRow(p, header, RowLine(letters));
    }
    forall f | f in row ensures '\t' !in f && '\n' !in f {
      var i :| 0 <= i < |row| && row[i] == f;
    }
  }

  lemma OneRule(t: Table, j: nat)
    requires j < |t.columns|
    ensures var p := OneColumn(t.name, t.columns[j]);
            && (forall table | table != t.name :: p.RulesFor(table) == map[])
            && p.RulesFor(t.name) != map[] && !p.wholeDb
  {
    assert t.columns[j] in OneColumn(t.name, t.columns[j]).RulesFor(t.name);
  }

  lemma LettersLine(t: Table)
    requires IsTable(t)
    ensures var line := RowLine(Letters(|t.columns|));
            && ParseCopy(line).None? && line != END && !(TIMEOUT <= line) && Fields(line) == Letters(|t.columns|)
  {
    hide Fields, ParseCopy;
    LettersArePlain(t);
    FieldsOfRowLine(Letters(|t.columns|));
  }

  lemma NotRead(reserved: set<string>, t: Table, j: nat)
    requires IsTable(t) && j < |t.columns| && Missed(reserved, t, j)
    ensures !MasksRealColumns(reserved, t)
  {
    hide Step, RowLine, MaskedRow, TableHeader, PlainRow, MaskRows, ProvidersKnown, OneColumn, BlockLines, Missed, IsTable,
      Relay, Fields;
    var p, letters := OneColumn(t.name, t.columns[j]), Letters(|t.columns|);
    LettersArePlain(t);
    OneColumnMasks(t, t.columns, j);
    var row := MissedRow(reserved, t, j);
    var masked := MaskedRow(p, AS_IS, t.name, t.columns, letters, 0);
    forall f | f in masked ensures '\t' !in f && '\n' !in f {
      var i :| 0 <= i < |masked| && masked[i] == f;
    }
    FieldsOfRowLine(row);
    FieldsOfRowLine(masked);
    OneMaskedRow(p, t, letters);
    SecondLineDiffers(p, reserved, t, letters, row, masked);
    assert forall r | r in [letters] :: PlainRow(t, r);
  }

  lemma SecondLineDiffers(p: Profile, reserved: set<string>, t: Table, row: seq<string>, written: seq<string>, masked: seq<string>)
    requires var header := TableHeader(reserved, t);
             Step(p, Step(p, FRESH, header), RowLine(row)).out == [header, RowLine(written)]
    requires RowLine(written) != RowLine(masked)
    ensures Relay(p, BlockLines(reserved, t, [row])).out != BlockLines(reserved, t, [masked])
  {
    hide Step, RowLine, TableHeader, BlockLines, Relay;
    var header := TableHeader(reserved, t);
    OneRowBlock(reserved, t, row);
    OneRowBlock(reserved, t, masked);
    ThreeSteps(p, header, RowLine(row), END);
    EndWrites(p, Step(p, Step(p, FRESH, header), RowLine(row)));
    assert Relay(p, BlockLines(reserved, t, [row])).out[1] == RowLine(written);
  }

  lemma OneRowBlock(reserved: set<string>, t: Table, row: seq<string>)
    ensures BlockLines(reserved, t, [row]) == [TableHeader(reserved, t), RowLine(row), END]
  {
    hide TableHeader, RowLine;
    assert [row][..0] == [];
    assert RowLines([row]) == [RowLine(row)];
  }

  lemma OneMaskedRow(p: Profile, t: Table, row: seq<string>)
    ensures MaskRows(p, t.name, t.columns, [row], 0) == [MaskedRow(p, AS_IS, t.name, t.columns, row, 0)]
  {
    hide MaskedRow;
    assert [row][..0] == [];
  }

  lemma EndWrites(p: Profile, st: Stream)
    ensures st.out <= Step(p, st, END).out
  {
    hide ParseCopy, Fields, MaskLine;
  }

  /** The relay masks the real columns of a table, under every profile, exactly when
      it reads its header rightly. */
  lemma MasksRealColumnsIffHeaderRead(reserved: set<string>, t: Table)
    requires IsTable(t)
    ensures MasksRealColumns(reserved, t) <==> HeaderRead(reserved, t)
  {
    hide HeaderRead, PlainRow, ProvidersKnown, Relay, BlockLines, MaskRows, Missed;
    if HeaderRead(reserved, t) {
      forall p: Profile, rows |
        (forall row | row in rows :: PlainRow(t, row)) && ProvidersKnown(p.RulesFor(t.name), t.columns, |t.columns|)
        ensures Relay(p, BlockLines(reserved, t, rows)).out
             == BlockLines(reserved, t, MaskRows(p, t.name, t.columns, rows, 0))
      {
        ReadTableMasks(p, reserved, t, rows);
      }
    } else {
      var j := SomePositionIsMissed(reserved, t);
      NotRead(reserved, t, j);
    }
  }

  /** By the names: the relay masks the real columns of a table exactly when it is
      readable. */
  lemma MasksRealColumnsIffReadable(reserved: set<string>, t: Table)
    requires IsTable(t) && !OpensInside(t.schema)
    ensures MasksRealColumns(reserved, t) <==> Readable(reserved, t)
  {
    hide MasksRealColumns, HeaderRead, Readable, OpensInside, IsTable;
    MasksRealColumnsIffHeaderRead(reserved, t);
    HeaderReadIffReadable(reserved, t);
  }

  // ------------------------------------------------------------ a failing header

  /** The columns that need quoting pass unmasked: if the profile names only such
      columns of a table, every row of it goes out as it came. */
  lemma QuotedColumnsPass(p: Profile, reserved: set<string>, t: Table, rows: seq<seq<string>>)
    requires IsTable(t) && NoBlank(t.schema) && '.' !in t.schema && NoBlank(t.name) && '"' !in t.name
    requires forall c | c in t.columns :: ',' !in c && ')' !in c
    requires forall row | row in rows :: PlainRow(t, row)
    requires forall i | 0 <= i < |t.columns| :: Ident(reserved, t.columns[i]) !in p.RulesFor(t.name)
    ensures Relay(p, BlockLines(reserved, t, rows)).out == BlockLines(reserved, t, rows)
  {
    hide ParseCopy, TableHeader, Header, ColumnNames, TableOf, RowLines, MaskRows, QualifiedName, ColumnList, DataRow,
      TimeoutRow, NoBlank, Ident, HeaderParts, IsTable, Relay;
    var item := Copy(QualifiedName(reserved, t), ColumnList(reserved, t.columns), "\n", rows);
    NamedTable(t);
    SomeColumns(t);
    HeaderIsRecognised(reserved, t);
    TableHeaderIsHeader(reserved, t);
    TableReadIff(reserved, t);
    NamesOfCommaFree(reserved, t.columns);
    UnruledRowsStay(p, t.name, Idents(reserved, t.columns), rows, 0);
    assert MaskBlock(p, item, 0) == rows;
    assert item.(rows := rows) == item;
    BlockOut(p, item);
  }

  lemma SomeColumns(t: Table)
    requires IsTable(t)
    ensures t.columns != []
  {
  }

  /** A rule for the only column that needs quoting masks nothing. */
  lemma QuotedColumnPasses(p: Profile, reserved: set<string>, t: Table, j: nat, rows: seq<seq<string>>)
    requires IsTable(t) && Simple(reserved, t.schema) && Simple(reserved, t.name)
    requires j < |t.columns| && !Simple(reserved, t.columns[j]) && ',' !in t.columns[j] && ')' !in t.columns[j]
    requires forall i | 0 <= i < |t.columns| && i != j :: Simple(reserved, t.columns[i])
    requires forall c | c in p.RulesFor(t.name) :: c == t.columns[j]
    requires forall row | row in rows :: PlainRow(t, row)
    ensures Relay(p, BlockLines(reserved, t, rows)).out == BlockLines(reserved, t, rows)
  {
    forall i | 0 <= i < |t.columns| ensures Ident(reserved, t.columns[i]) != t.columns[j] {
      IdentIsNameIff(reserved, t.columns[j]);
    }
    forall c | c in t.columns ensures ',' !in c && ')' !in c {
      var i :| 0 <= i < |t.columns| && t.columns[i] == c;
      if i != j {
        SimpleIsPlain(reserved, c, ',');
        SimpleIsPlain(reserved, c, ')');
      }
    }
    SimpleIsPlain(reserved, t.schema, '.');
    SimpleIsPlain(reserved, t.name, '"');
    forall c | IsSpace(c) ensures c !in t.schema && c !in t.name {
      SimpleIsPlain(reserved, t.schema, c);
      SimpleIsPlain(reserved, t.name, c);
    }
    hide Relay, BlockLines, PlainRow, Simple, Ident, IsSpace;
    QuotedColumnsPass(p, reserved, t, rows);
  }

  const USERS := Table("public", "users", ["id", "userName"])

  lemma UsersNames(reserved: set<string>)
    requires "public" !in reserved && "users" !in reserved && "id" !in reserved
    ensures Simple(reserved, "public") && Simple(reserved, "users") && Simple(reserved, "id")
    ensures !Simple(reserved, "userName") && ',' !in "userName" && ')' !in "userName" && '"' !in "userName"
  {
    assert "userName"[4] in "userName" && !SimpleChar("userName"[4]);
  }

  lemma UsersIsTable()
    ensures IsTable(USERS)
  {
  }

  lemma HeaderOfTwo(reserved: set<string>, schema: string, name: string, a: string, b: string)
    requires Simple(reserved, schema) && Simple(reserved, name) && Simple(reserved, a)
    requires !Simple(reserved, b) && '"' !in b
    ensures TableHeader(reserved, Table(schema, name, [a, b]))
         == "COPY " + (schema + ['.'] + name) + " (" + (a + ", " + (['"'] + (b + ['"']))) + ") FROM stdin;\n"
  {
    DoublingLengthens('"', b);
    var idents := Idents(reserved, [a, b]);
    assert idents == [a, ['"'] + (b + ['"'])];
    var quoted := ['"'] + (b + ['"']);
    assert idents[1..] == [quoted];
    assert JoinWith(", ", [quoted]) == quoted;
    assert ColumnList(reserved, [a, b]) == a + ", " + quoted;
  }

  /** The header as it stands in a dump: `COPY public.users (id, "userName") FROM stdin;`. */
  lemma UsersHeader(reserved: set<string>)
    requires "public" !in reserved && "users" !in reserved && "id" !in reserved
    ensures TableHeader(reserved, USERS)
         == "COPY " + ("public" + ['.'] + "users") + " (" + ("id" + ", " + (['"'] + ("userName" + ['"']))) + ") FROM stdin;\n"
  {
    UsersNames(reserved);
    hide Simple, TableHeader;
    HeaderOfTwo(reserved, "public", "users", "id", "userName");
  }

  /** A rule for `userName` masks nothing: every row of such a block goes out as it
      came, so that blocks that differ in that column are told apart. */
  lemma UserNamePasses(reserved: set<string>, fake: (string, nat) -> string, rows: seq<seq<string>>)
    requires "public" !in reserved && "users" !in reserved && "id" !in reserved
    requires forall row | row in rows :: PlainRow(USERS, row)
    ensures var p := Profile(map["users" := map["userName" := "name"]], map[], false, fake);
            Relay(p, BlockLines(reserved, USERS, rows)).out == BlockLines(reserved, USERS, rows)
  {
    var p := Profile(map["users" := map["userName" := "name"]], map[], false, fake);
    UsersIsTable();
    UsersNames(reserved);
    hide BlockLines, Relay, PlainRow, Simple, IsTable;
    QuotedColumnPasses(p, reserved, USERS, 1, rows);
  }

  // --------------------------------------------- noninterference, by real names

  /** A dump by the names its tables really have. */
  datatype Entry = Text(line: string) | Block(table: Table, rows: seq<seq<string>>)

  function EntryItem(reserved: set<string>, e: Entry): Item
  {
    match e
    case Text(line) => Stmt(line)
    case Block(t, rows) => Copy(QualifiedName(reserved, t), ColumnList(reserved, t.columns), "\n", rows)
  }

  function EntryLines(reserved: set<string>, e: Entry): seq<string>
  {
    match e
    case Text(line) => [line]
    case Block(t, rows) => BlockLines(reserved, t, rows)
  }

  function DumpLines(reserved: set<string>, dump: seq<Entry>): seq<string>
  {
    if dump == [] then []
    else DumpLines(reserved, dump[..|dump| - 1]) + EntryLines(reserved, dump[|dump| - 1])
  }

  predicate Sound(reserved: set<string>, e: Entry)
  {
    match e
    case Text(line) => ParseCopy(line).None?
    case Block(t, rows) => IsTable(t) && Readable(reserved, t) && forall row | row in rows :: PlainRow(t, row)
  }

  /** The entries differ in fields of columns that the profile names only. */
  predicate SameOutsideColumns(p: Profile, a: Entry, b: Entry)
  {
    || a == b
    || (&& a.Block? && b.Block? && a.table == b.table && |a.rows| == |b.rows|
        && forall i | 0 <= i < |a.rows| ::
             && |a.rows[i]| == |b.rows[i]|
             && forall j: nat | j < |a.rows[i]| && j < |a.table.columns| ::
                  a.table.columns[j] in p.RulesFor(a.table.name) || a.rows[i][j] == b.rows[i][j])
  }

  function Items(reserved: set<string>, dump: seq<Entry>): (items: seq<Item>)
    ensures |items| == |dump| && forall i | 0 <= i < |dump| :: items[i] == EntryItem(reserved, dump[i])
  {
    seq(|dump|, i requires 0 <= i < |dump| => EntryItem(reserved, dump[i]))
  }

  lemma SoundEntry(reserved: set<string>, e: Entry)
    requires Sound(reserved, e)
    ensures Relayable(EntryItem(reserved, e)) && ItemLines(EntryItem(reserved, e)) == EntryLines(reserved, e)
    ensures e.Block? ==>
              TableOf(QualifiedName(reserved, e.table)) == e.table.name
              && ColumnNames(ColumnList(reserved, e.table.columns)) == e.table.columns
  {
    hide QualifiedName, ColumnList, ColumnNames, TableOf, TableHeader, Header, Readable, DataRow;
    if e.Block? {
      ReadableHeader(reserved, e.table);
      TableHeaderIsHeader(reserved, e.table);
    }
  }

  lemma {:induction false} DumpLinesAreLines(reserved: set<string>, dump: seq<Entry>)
    requires forall e | e in dump :: Sound(reserved, e)
    ensures DumpLines(reserved, dump) == Lines(Items(reserved, dump))
  {
    hide Sound, EntryLines, EntryItem, ItemLines;
    if dump != [] {
      var front, last := dump[..|dump| - 1], dump[|dump| - 1];
      assert last in dump;
      DumpLinesAreLines(reserved, front);
      SoundEntry(reserved, last);
      assert Items(reserved, dump)[..|dump| - 1] == Items(reserved, front);
    }
  }

  lemma SameColumnsSameRules(p: Profile, reserved: set<string>, a: Entry, b: Entry)
    requires Sound(reserved, a) && Sound(reserved, b) && SameOutsideColumns(p, a, b)
    ensures SameOutsideRules(p, EntryItem(reserved, a), EntryItem(reserved, b))
  {
    hide QualifiedName, ColumnList, ColumnNames, TableOf, Relayable, ItemLines, EntryLines, Readable, PlainRow, IsTable,
      ParseCopy, SameRows;
    SoundEntry(reserved, a);
    if a.Block? && b.Block? {
      forall i | 0 <= i < |a.rows| ensures |a.rows[i]| == |a.table.columns| {
        RowWidth(a.table, a.rows[i]);
      }
      if a == b {
        SameRowsItself(p, a.table.name, a.table.columns, a.rows);
      } else {
        SameRowsOutside(p, a, b);
      }
    }
  }

  lemma RowWidth(t: Table, row: seq<string>)
    requires PlainRow(t, row)
    ensures |row| == |t.columns|
  {
  }

  lemma SameRowsItself(p: Profile, table: string, columns: seq<string>, rows: seq<seq<string>>)
    ensures SameRows(p, table, columns, rows, rows)
  {
  }

  lemma SameRowsOutside(p: Profile, a: Entry, b: Entry)
    requires a != b && SameOutsideColumns(p, a, b) && a.Block?
    requires forall i | 0 <= i < |a.rows| :: |a.rows[i]| == |a.table.columns|
    ensures SameRows(p, a.table.name, a.table.columns, a.rows, b.rows)
  {
  }

  /** Source fields of the columns that the profile names never reach the output:
      dumps of plain rows of readable tables that differ in such columns only are
      relayed alike, at every prefix of the stream. */
  lemma RealNoninterference(p: Profile, reserved: set<string>, a: seq<Entry>, b: seq<Entry>, n: nat)
    requires |a| == |b| && n <= |DumpLines(reserved, a)|
    requires forall i | 0 <= i < |a| ::
               Sound(reserved, a[i]) && Sound(reserved, b[i]) && SameOutsideColumns(p, a[i], b[i])
    ensures |DumpLines(reserved, a)| == |DumpLines(reserved, b)|
    ensures Relay(p, DumpLines(reserved, a)[..n]) == Relay(p, DumpLines(reserved, b)[..n])
  {
    hide Relay, Sound, SameOutsideColumns, EntryItem, Lines, Relayable, SameOutsideRules, DumpLines;
    DumpLinesAreLines(reserved, a);
    DumpLinesAreLines(reserved, b);
    forall i | 0 <= i < |a| ensures AlikeItems(p, Items(reserved, a)[i], Items(reserved, b)[i]) {
      SoundEntry(reserved, a[i]);
      SoundEntry(reserved, b[i]);
      SameColumnsSameRules(p, reserved, a[i], b[i]);
    }
    RelayNoninterference(p, Items(reserved, a), Items(reserved, b), n);
  }
}
