/** The CREATE TABLE printer of the SQL Server handler, and a bracket-aware
    reader that is its inverse. */
module MssqlDdl {
  import opened Text
  import opened MssqlTypes

  // -------------------------------------------------------------- identifiers

  /** `_quote_identifier`. */
  function Quote(name: string): string
  {
    "[" + Replace(']', "]]", name) + "]"
  }

  function Push(c: char, r: Option<(string, string)>): Option<(string, string)>
  {
    if r.None? then None else Some(([c] + r.value.0, r.value.1))
  }

  /** The name up to its closing bracket, and what follows. */
  function ReadName(s: string): (r: Option<(string, string)>)
    ensures r.Some? ==> |r.value.1| < |s|
  {
    if s == "" then None
    else if s[0] != ']' then Push(s[0], ReadName(s[1..]))
    else if |s| > 1 && s[1] == ']' then Push(']', ReadName(s[2..]))
    else Some(("", s[1..]))
  }

  function ReadIdentifier(s: string): (r: Option<(string, string)>)
    ensures r.Some? ==> |r.value.1| < |s|
  {
    if s != "" && s[0] == '[' then ReadName(s[1..]) else None
  }

  lemma {:induction false} ReadNameExact(s: string, name: string, rest: string)
    ensures ReadName(s) == Some((name, rest)) <==>
            s == Replace(']', "]]", name) + ("]" + rest) && (rest == "" || rest[0] != ']')
    decreases |s|
  {
    hide Push, ReadName, Replace;
    if name == "" {
      ReadNoName(s, rest);
    } else {
      PushExact(name, rest);
      DoubledFirst(name, rest);
      if name[0] == ']' {
        if |s| > 1 { ReadNameExact(s[2..], name[1..], rest); }
        ReadBracketFirst(s, name, rest);
      } else {
        if s != "" { ReadNameExact(s[1..], name[1..], rest); }
        ReadOtherFirst(s, name, rest);
      }
    }
  }

  lemma ReadNoName(s: string, rest: string)
    ensures Replace(']', "]]", "") == ""
    ensures ReadName(s) == Some(("", rest)) <==> s == "" + ("]" + rest) && (rest == "" || rest[0] != ']')
  {
    assert "" + ("]" + rest) == "]" + rest;
    if s != "" { assert s == [s[0]] + s[1..]; }
  }

  /** The written form of a name, by its first character. */
  lemma DoubledFirst(name: string, rest: string)
    requires name != ""
    ensures var tail := Replace(']', "]]", name[1..]) + ("]" + rest);
            Replace(']', "]]", name) + ("]" + rest) == (if name[0] == ']' then "]]" else [name[0]]) + tail
  {
    Associative(if name[0] == ']' then "]]" else [name[0]], Replace(']', "]]", name[1..]), "]" + rest);
  }

  lemma ReadBracketFirst(s: string, name: string, rest: string)
    requires name != "" && name[0] == ']'
    requires forall c, r :: Push(c, r) == Some((name, rest)) <==> c == name[0] && r == Some((name[1..], rest))
    ensures ReadName(s) == Some((name, rest)) <==> |s| > 1 && s[..2] == "]]" && ReadName(s[2..]) == Some((name[1..], rest))
    ensures forall tail :: s == "]]" + tail <==> |s| > 1 && s[..2] == "]]" && s[2..] == tail
  {
    hide Push;
    forall tail ensures s == "]]" + tail <==> |s| > 1 && s[..2] == "]]" && s[2..] == tail { CutAt(s, "]]", tail); }
    if |s| > 1 { assert s[..2] == [s[0], s[1]]; }
  }

  lemma ReadOtherFirst(s: string, name: string, rest: string)
    requires name != "" && name[0] != ']'
    requires forall c, r :: Push(c, r) == Some((name, rest)) <==> c == name[0] && r == Some((name[1..], rest))
    ensures ReadName(s) == Some((name, rest)) <==> s != "" && s[0] == name[0] && ReadName(s[1..]) == Some((name[1..], rest))
    ensures forall tail :: s == [name[0]] + tail <==> s != "" && s[0] == name[0] && s[1..] == tail
  {
    hide Push;
    forall tail ensures s == [name[0]] + tail <==> s != "" && s[0] == name[0] && s[1..] == tail {
      CutAt(s, [name[0]], tail);
      if s != "" { assert s[..1] == [s[0]]; }
    }
  }

  lemma CutAt(s: string, head: string, tail: string)
    ensures s == head + tail <==> |s| >= |head| && s[..|head|] == head && s[|head|..] == tail
  {
    if |s| >= |head| { assert s == s[..|head|] + s[|head|..]; }
  }

  lemma PushExact(name: string, rest: string)
    requires name != ""
    ensures forall c, r :: Push(c, r) == Some((name, rest)) <==> c == name[0] && r == Some((name[1..], rest))
  {
    assert name == [name[0]] + name[1..];
  }

  /** Quoted identifiers are self-delimiting, whatever characters the name holds:
      the reader accepts exactly a quoted name, and stops where it ends. */
  lemma ReadIdentifierExact(s: string, name: string, rest: string)
    ensures ReadIdentifier(s) == Some((name, rest)) <==>
            s == Quote(name) + rest && (rest == "" || rest[0] != ']')
  {
    var body := Replace(']', "]]", name) + ("]" + rest);
    assert Quote(name) + rest == "[" + body;
    if s != "" {
      ReadNameExact(s[1..], name, rest);
      assert s == [s[0]] + s[1..];
      assert ("[" + body)[1..] == body;
    }
  }

  // ------------------------------------------------------------------ columns

  datatype Schema = Schema(columns: seq<Column>, primaryKey: seq<string>)

  const SEPARATOR := ",\n    "
  const CLOSE := "\n);\n"
  const KEY_OPEN := "PRIMARY KEY ("
  const DROP := "DROP TABLE IF EXISTS "
  const CREATE := ";\nCREATE TABLE "
  const BODY_OPEN := " (\n    "

  function Nullability(nullable: bool): string
  {
    if nullable then " NULL" else " NOT NULL"
  }

  function ColumnLine(c: Column): string
  {
    Quote(c.name) + " " + ColumnTypeSql(c) + Nullability(c.nullable)
  }

  function Quoted(names: seq<string>): (quoted: seq<string>)
  {
    seq(|names|, i requires 0 <= i < |names| => Quote(names[i]))
  }

  /** The lines between the parentheses of a CREATE statement. */
  function DefinitionLines(schema: Schema): seq<string>
  {
    seq(|schema.columns|, i requires 0 <= i < |schema.columns| => ColumnLine(schema.columns[i]))
      + if schema.primaryKey == [] then [] else [KEY_OPEN + JoinWith(", ", Quoted(schema.primaryKey)) + ")"]
  }

  function CreateTableSql(table: string, schema: Schema): string
  {
    DROP + Quote(table) + CREATE + Quote(table) + BODY_OPEN + JoinWith(SEPARATOR, DefinitionLines(schema)) + CLOSE
  }

  /** `_build_create_table_sql`. */
  method BuildCreateTableSql(table: string, schema: Schema) returns (sql: string)
    ensures sql == CreateTableSql(table, schema)
  {
    hide SEPARATOR, CLOSE, KEY_OPEN, DROP, CREATE, BODY_OPEN, Quote, ColumnTypeSql, ColumnLine, JoinWith, Quoted;
    var quotedTable := Quote(table);
    var columnLines: seq<string> := [];
    for i := 0 to |schema.columns|
      invariant columnLines == seq(i, j requires 0 <= j < i => ColumnLine(schema.columns[j]))
    {
      var col := schema.columns[i];
      var nullability := if col.nullable then "NULL" else "NOT NULL";
      LineOfColumn(col, nullability);
      columnLines := columnLines + [Quote(col.name) + " " + ColumnTypeSql(col) + " " + nullability];
    }
    if schema.primaryKey != [] {
      var keyColumns := JoinWith(", ", Quoted(schema.primaryKey));
      columnLines := columnLines + [KEY_OPEN + keyColumns + ")"];
    }
    assert columnLines == DefinitionLines(schema);
    var columnsSql := JoinWith(SEPARATOR, columnLines);
    sql := DROP + quotedTable + CREATE + quotedTable + BODY_OPEN + columnsSql + CLOSE;
  }

  lemma LineOfColumn(c: Column, nullability: string)
    requires nullability == if c.nullable then "NULL" else "NOT NULL"
    ensures Quote(c.name) + " " + ColumnTypeSql(c) + " " + nullability == ColumnLine(c)
  {
    hide Quote, ColumnTypeSql;
    assert " " + nullability == Nullability(c.nullable);
    Associative(Quote(c.name) + " " + ColumnTypeSql(c), " ", nullability);
  }

  datatype Table = Table(name: string, schema: Schema)

  function Script(tables: seq<Table>): string
  {
    if tables == [] then "" else CreateTableSql(tables[0].name, tables[0].schema) + Script(tables[1..])
  }

  /** The statements are written to the script file one table after another. */
  method WriteScript(tables: seq<Table>) returns (file: string)
    ensures file == Script(tables)
  {
    hide CreateTableSql;
    file := "";
    assert tables[0..] == tables && "" + Script(tables) == Script(tables);
    for i := 0 to |tables|
      invariant file + Script(tables[i..]) == Script(tables)
    {
      var statement := BuildCreateTableSql(tables[i].name, tables[i].schema);
      assert tables[i..][1..] == tables[i + 1..];
      Associative(file, statement, Script(tables[i + 1..]));
      file := file + statement;
    }
    assert file + "" == file;
  }

  // -------------------------------------------------------- what a script declares

  datatype ColumnDecl = ColumnDecl(name: string, sqlType: SqlType, nullable: bool)

  /** What the database is told about a table. */
  datatype Decl = Decl(name: string, columns: seq<ColumnDecl>, key: seq<string>)

  function Declared(t: Table): Decl
  {
    var columns := t.schema.columns;
    Decl(t.name,
         seq(|columns|, i requires 0 <= i < |columns| =>
           ColumnDecl(columns[i].name, DeclaredType(columns[i]), columns[i].nullable)),
         t.schema.primaryKey)
  }

  function DeclaredAll(tables: seq<Table>): (decls: seq<Decl>)
    ensures |decls| == |tables|
  {
    seq(|tables|, i requires 0 <= i < |tables| => Declared(tables[i]))
  }

  /** The type names of SQL Server hold neither a blank nor a parenthesis. */
  predicate PlainType(name: string)
  {
    ' ' !in name && '(' !in name
  }

  predicate PlainDecl(d: Decl)
  {
    forall c | c in d.columns :: PlainType(c.sqlType.name)
  }

  // ------------------------------------- the same text, printed before a continuation

  function PrintColumn(c: ColumnDecl, rest: string): string
  {
    Quote(c.name) + (" " + (TypeText(c.sqlType) + (Nullability(c.nullable) + rest)))
  }

  function PrintKey(key: seq<string>, rest: string): string
    requires key != []
  {
    Quote(key[0]) + if |key| == 1 then ")" + rest else ", " + PrintKey(key[1..], rest)
  }

  function PrintBody(columns: seq<ColumnDecl>, key: seq<string>, rest: string): string
  {
    if columns == [] then
      if key == [] then CLOSE + rest else KEY_OPEN + PrintKey(key, CLOSE + rest)
    else
      PrintColumn(columns[0],
        if |columns| == 1 && key == [] then CLOSE + rest
        else SEPARATOR + PrintBody(columns[1..], key, rest))
  }

  function PrintDecl(d: Decl, rest: string): string
  {
    DROP + (Quote(d.name) + (CREATE + (Quote(d.name) + (BODY_OPEN + PrintBody(d.columns, d.key, rest)))))
  }

  function PrintAll(decls: seq<Decl>): string
  {
    if decls == [] then "" else PrintDecl(decls[0], PrintAll(decls[1..]))
  }

  // --------------------------------------------------------------- the reader

  function ReadColumn(s: string): (r: Option<(ColumnDecl, string)>)
    ensures r.Some? ==> |r.value.1| < |s|
  {
    var name := ReadIdentifier(s);
    if name.None? then None else
    var typed := After(" ", name.value.1);
    if typed.None? then None else
    var n := IndexOf(' ', typed.value);
    var (sqlType, tail) := (ReadType(typed.value[..n]), typed.value[n..]);
    if sqlType.None? then None
    else if After(" NOT NULL", tail).Some? then
      Some((ColumnDecl(name.value.0, sqlType.value, false), After(" NOT NULL", tail).value))
    else if After(" NULL", tail).Some? then
      Some((ColumnDecl(name.value.0, sqlType.value, true), After(" NULL", tail).value))
    else None
  }

  function ReadKey(s: string): (r: Option<(seq<string>, string)>)
    ensures r.Some? ==> |r.value.1| < |s|
    decreases |s|
  {
    var name := ReadIdentifier(s);
    if name.None? then None
    else if After(")", name.value.1).Some? then Some(([name.value.0], After(")", name.value.1).value))
    else if After(", ", name.value.1).Some? then
      var more := ReadKey(After(", ", name.value.1).value);
      if more.None? then None else Some(([name.value.0] + more.value.0, more.value.1))
    else None
  }

  function ReadBody(s: string): (r: Option<(seq<ColumnDecl>, seq<string>, string)>)
    ensures r.Some? ==> |r.value.2| < |s|
    decreases |s|
  {
    if After(KEY_OPEN, s).Some? then
      var key := ReadKey(After(KEY_OPEN, s).value);
      if key.None? || After(CLOSE, key.value.1).None? then None
      else Some(([], key.value.0, After(CLOSE, key.value.1).value))
    else
      var column := ReadColumn(s);
      if column.None? then None
      else if After(CLOSE, column.value.1).Some? then
        Some(([column.value.0], [], After(CLOSE, column.value.1).value))
      else if After(SEPARATOR, column.value.1).Some? then
        var more := ReadBody(After(SEPARATOR, column.value.1).value);
        if more.None? then None
        else Some(([column.value.0] + more.value.0, more.value.1, more.value.2))
      else None
  }

  function ReadDecl(s: string): (r: Option<(Decl, string)>)
    ensures r.Some? ==> |r.value.1| < |s|
  {
    var a := After(DROP, s);
    if a.None? then None else
    var dropped := ReadIdentifier(a.value);
    if dropped.None? then None else
    var b := After(CREATE, dropped.value.1);
    if b.None? then None else
    var created := ReadIdentifier(b.value);
    if created.None? || created.value.0 != dropped.value.0 then None else
    var c := After(BODY_OPEN, created.value.1);
    if c.None? then None
    else if After(CLOSE, c.value).Some? then Some((Decl(created.value.0, [], []), After(CLOSE, c.value).value))
    else
      var body := ReadBody(c.value);
      if body.None? then None else Some((Decl(created.value.0, body.value.0, body.value.1), body.value.2))
  }

  /** The whole script: statement after statement up to the end of the text. */
  function Read(s: string): Option<seq<Decl>>
    decreases |s|
  {
    if s == "" then Some([])
    else
      var first := ReadDecl(s);
      if first.None? then None else
      var more := Read(first.value.1);
      if more.None? then None else Some([first.value.0] + more.value)
  }

  // ---------------------------------------------------------- reader after printer

  lemma ReadIdentifierOf(name: string, rest: string)
    requires rest != "" && rest[0] != ']'
    ensures ReadIdentifier(Quote(name) + rest) == Some((name, rest))
  {
    ReadIdentifierExact(Quote(name) + rest, name, rest);
  }

  lemma AfterOf(prefix: string, rest: string)
    ensures After(prefix, prefix + rest) == Some(rest)
  {
    AfterExact(prefix, prefix + rest, rest);
  }

  lemma ReadColumnOfPrint(c: ColumnDecl, rest: string)
    requires PlainType(c.sqlType.name)
    ensures ReadColumn(PrintColumn(c, rest)) == Some((c, rest))
  {
    hide ReadIdentifier, Quote, IndexOf, ReadType, TypeText;
    var typeSql, tail := TypeText(c.sqlType), Nullability(c.nullable) + rest;
    var typed := typeSql + tail;
    TypeBlank(c.sqlType);
    ReadTypeExact(typeSql, c.sqlType);
    ReadIdentifierOf(c.name, " " + typed);
    AfterOf(" ", typed);
    IndexOfUnique(' ', typed, |typeSql|);
    assert typed[..|typeSql|] == typeSql && typed[|typeSql|..] == tail;
    AfterOf(Nullability(c.nullable), rest);
    if c.nullable { assert tail[2] == 'U'; }
  }

  lemma {:induction false} ReadKeyOfPrint(key: seq<string>, rest: string)
    requires key != []
    ensures ReadKey(PrintKey(key, rest)) == Some((key, rest))
  {
    if |key| == 1 {
      ReadIdentifierOf(key[0], ")" + rest);
      AfterOf(")", rest);
      assert key == [key[0]];
    } else {
      var more := PrintKey(key[1..], rest);
      ReadIdentifierOf(key[0], ", " + more);
      AfterOf(", ", more);
      assert (", " + more)[0] == ',';
      ReadKeyOfPrint(key[1..], rest);
      assert key == [key[0]] + key[1..];
    }
  }

  /** Different first characters tell the separators apart. */
  lemma NotAfter(prefix: string, s: string)
    requires prefix != "" && s != "" && prefix[0] != s[0]
    ensures After(prefix, s).None?
  {
  }

  lemma NotKeyOpen(c: ColumnDecl, rest: string)
    ensures PrintColumn(c, rest) != "" && PrintColumn(c, rest)[0] == '['
    ensures After(KEY_OPEN, PrintColumn(c, rest)).None?
  {
    NotAfter(KEY_OPEN, PrintColumn(c, rest));
  }

  lemma ReadBodyOfKey(key: seq<string>, rest: string)
    requires key != []
    ensures ReadBody(KEY_OPEN + PrintKey(key, CLOSE + rest)) == Some(([], key, rest))
  {
    AfterOf(KEY_OPEN, PrintKey(key, CLOSE + rest));
    ReadKeyOfPrint(key, CLOSE + rest);
    AfterOf(CLOSE, rest);
  }

  lemma ReadBodyOfLast(c: ColumnDecl, rest: string)
    requires PlainType(c.sqlType.name)
    ensures ReadBody(PrintColumn(c, CLOSE + rest)) == Some(([c], [], rest))
  {
    NotKeyOpen(c, CLOSE + rest);
    ReadColumnOfPrint(c, CLOSE + rest);
    AfterOf(CLOSE, rest);
  }

  lemma ReadBodyOfMore(c: ColumnDecl, more: string)
    requires PlainType(c.sqlType.name) && ReadBody(more).Some?
    ensures var (columns, key, rest) := ReadBody(more).value;
            ReadBody(PrintColumn(c, SEPARATOR + more)) == Some(([c] + columns, key, rest))
  {
    NotKeyOpen(c, SEPARATOR + more);
    ReadColumnOfPrint(c, SEPARATOR + more);
    AfterOf(SEPARATOR, more);
    NotAfter(CLOSE, SEPARATOR + more);
  }

  lemma {:induction false} ReadBodyOfPrint(columns: seq<ColumnDecl>, key: seq<string>, rest: string)
    requires columns != [] || key != []
    requires forall c | c in columns :: PlainType(c.sqlType.name)
    ensures ReadBody(PrintBody(columns, key, rest)) == Some((columns, key, rest))
  {
    if columns == [] {
      ReadBodyOfKey(key, rest);
    } else if |columns| == 1 && key == [] {
      ReadBodyOfLast(columns[0], rest);
      assert columns == [columns[0]];
    } else {
      ReadBodyOfPrint(columns[1..], key, rest);
      ReadBodyOfMore(columns[0], PrintBody(columns[1..], key, rest));
      assert columns == [columns[0]] + columns[1..];
    }
  }

  /** What the reader has of a statement when it reaches the opening parenthesis. */
  lemma ReadDeclHead(name: string, body: string)
    ensures var s := DROP + (Quote(name) + (CREATE + (Quote(name) + (BODY_OPEN + body))));
            ReadDecl(s) ==
            if After(CLOSE, body).Some? then Some((Decl(name, [], []), After(CLOSE, body).value))
            else if ReadBody(body).None? then None
            else Some((Decl(name, ReadBody(body).value.0, ReadBody(body).value.1), ReadBody(body).value.2))
  {
    var b := BODY_OPEN + body;
    var c := CREATE + (Quote(name) + b);
    AfterOf(DROP, Quote(name) + c);
    ReadIdentifierOf(name, c);
    AfterOf(CREATE, Quote(name) + b);
    ReadIdentifierOf(name, b);
    AfterOf(BODY_OPEN, body);
  }

  lemma BodyIsNotClosed(columns: seq<ColumnDecl>, key: seq<string>, rest: string)
    requires columns != [] || key != []
    ensures After(CLOSE, PrintBody(columns, key, rest)).None?
  {
    if columns != [] {
      NotAfter(CLOSE, PrintBody(columns, key, rest));
    } else {
      NotAfter(CLOSE, KEY_OPEN + PrintKey(key, CLOSE + rest));
    }
  }

  lemma ReadDeclOfPrint(d: Decl, rest: string)
    requires PlainDecl(d)
    ensures ReadDecl(PrintDecl(d, rest)) == Some((d, rest))
  {
    ReadDeclHead(d.name, PrintBody(d.columns, d.key, rest));
    if d.columns == [] && d.key == [] {
      AfterOf(CLOSE, rest);
    } else {
      BodyIsNotClosed(d.columns, d.key, rest);
      ReadBodyOfPrint(d.columns, d.key, rest);
    }
  }

  lemma {:induction false} ReadOfPrint(decls: seq<Decl>)
    requires forall d | d in decls :: PlainDecl(d)
    ensures Read(PrintAll(decls)) == Some(decls)
  {
    hide ReadDecl, PrintDecl, PlainDecl;
    if decls != [] {
      ReadDeclOfPrint(decls[0], PrintAll(decls[1..]));
      ReadOfPrint(decls[1..]);
      assert decls == [decls[0]] + decls[1..];
      assert PrintAll(decls) == PrintDecl(decls[0], PrintAll(decls[1..]));
    }
  }

  // ---------------------------------------------------------- printer after reader

  lemma ReadColumnSound(s: string)
    requires ReadColumn(s).Some?
    ensures var (c, rest) := ReadColumn(s).value; s == PrintColumn(c, rest) && PlainType(c.sqlType.name)
  {
    hide ReadIdentifier, Quote, IndexOf, After, ReadType, TypeText;
    var name := ReadIdentifier(s).value;
    ReadIdentifierExact(s, name.0, name.1);
    var typed := After(" ", name.1).value;
    AfterExact(" ", name.1, typed);
    var (c, rest) := ReadColumn(s).value;
    var n := IndexOf(' ', typed);
    AfterExact(Nullability(c.nullable), typed[n..], rest);
    ReadTypeExact(typed[..n], c.sqlType);
    TypeBlank(c.sqlType);
    assert typed == typed[..n] + typed[n..];
  }

  lemma {:induction false} ReadKeySound(s: string)
    requires ReadKey(s).Some?
    ensures var (key, rest) := ReadKey(s).value; key != [] && s == PrintKey(key, rest)
    decreases |s|
  {
    var (key, rest) := ReadKey(s).value;
    var (name, after) := ReadIdentifier(s).value;
    ReadIdentifierExact(s, name, after);
    if After(")", after).Some? {
      AfterExact(")", after, rest);
    } else {
      var more := After(", ", after).value;
      AfterExact(", ", after, more);
      ReadKeySound(more);
      assert key[1..] == ReadKey(more).value.0;
    }
  }

  lemma {:induction false} ReadBodySound(s: string)
    requires ReadBody(s).Some?
    ensures var (columns, key, rest) := ReadBody(s).value;
            && (columns != [] || key != []) && s == PrintBody(columns, key, rest)
            && forall c | c in columns :: PlainType(c.sqlType.name)
    decreases |s|
  {
    var (columns, key, rest) := ReadBody(s).value;
    if After(KEY_OPEN, s).Some? {
      var k := After(KEY_OPEN, s).value;
      AfterExact(KEY_OPEN, s, k);
      ReadKeySound(k);
      AfterExact(CLOSE, ReadKey(k).value.1, rest);
    } else {
      ReadColumnSound(s);
      var (c, after) := ReadColumn(s).value;
      if After(CLOSE, after).Some? {
        AfterExact(CLOSE, after, rest);
      } else {
        var more := After(SEPARATOR, after).value;
        AfterExact(SEPARATOR, after, more);
        ReadBodySound(more);
        assert columns[1..] == ReadBody(more).value.0;
      }
    }
  }

  lemma ReadDeclSound(s: string)
    requires ReadDecl(s).Some?
    ensures var (d, rest) := ReadDecl(s).value; s == PrintDecl(d, rest) && PlainDecl(d)
  {
    var (d, rest) := ReadDecl(s).value;
    var a := After(DROP, s).value;
    var b := ReadIdentifier(a).value.1;
    var c := After(CREATE, b).value;
    var e := ReadIdentifier(c).value.1;
    var body := After(BODY_OPEN, e).value;
    AfterExact(DROP, s, a);
    ReadIdentifierExact(a, d.name, b);
    AfterExact(CREATE, b, c);
    ReadIdentifierExact(c, d.name, e);
    AfterExact(BODY_OPEN, e, body);
    if After(CLOSE, body).Some? { AfterExact(CLOSE, body, rest); } else { ReadBodySound(body); }
  }

  lemma {:induction false} ReadSound(s: string)
    requires Read(s).Some?
    ensures s == PrintAll(Read(s).value) && forall d | d in Read(s).value :: PlainDecl(d)
    decreases |s|
  {
    if s != "" {
      ReadDeclSound(s);
      var rest := ReadDecl(s).value.1;
      ReadSound(rest);
      assert Read(s).value[1..] == Read(rest).value;
    }
  }

  /** Reader and printer are inverse to each other: a text is read as `decls` if
      and only if it is their printed form and no rendered type holds a blank. */
  lemma ReadExact(s: string, decls: seq<Decl>)
    ensures Read(s) == Some(decls) <==> s == PrintAll(decls) && forall d | d in decls :: PlainDecl(d)
  {
    if Read(s) == Some(decls) { ReadSound(s); }
    if s == PrintAll(decls) && forall d | d in decls :: PlainDecl(d) { ReadOfPrint(decls); }
  }

  // ------------------------------------------------------- the script of the source

  lemma {:induction false} KeyText(key: seq<string>, rest: string)
    requires key != []
    ensures JoinWith(", ", Quoted(key)) + (")" + rest) == PrintKey(key, rest)
  {
    if |key| > 1 {
      KeyText(key[1..], rest);
      assert Quoted(key)[1..] == Quoted(key[1..]);
      Regroup(Quote(key[0]), ", ", JoinWith(", ", Quoted(key[1..])), ")" + rest);
    }
  }

  lemma Regroup(a: string, b: string, c: string, d: string)
    ensures (a + b + c) + d == a + (b + (c + d))
  {
  }

  lemma ColumnText(c: Column, rest: string)
    ensures ColumnLine(c) + rest == PrintColumn(ColumnDecl(c.name, DeclaredType(c), c.nullable), rest)
  {
    DeclaredTypeSays(c);
    Regroup4(Quote(c.name), " ", ColumnTypeSql(c), Nullability(c.nullable), rest);
  }

  lemma Regroup4(a: string, b: string, c: string, d: string, e: string)
    ensures a + b + c + d + e == a + (b + (c + (d + e)))
  {
    Regroup(a, b, c, d);
    Regroup(a, b, c + d, e);
    Regroup(b, c, d, e);
  }

  lemma {:induction false} BodyText(schema: Schema, rest: string)
    ensures var d := Declared(Table("", schema));
            JoinWith(SEPARATOR, DefinitionLines(schema)) + (CLOSE + rest) == PrintBody(d.columns, d.key, rest)
    decreases |schema.columns|
  {
    hide SEPARATOR, CLOSE, KEY_OPEN, ColumnLine, PrintColumn;
    var lines, d := DefinitionLines(schema), Declared(Table("", schema));
    if schema.columns == [] {
      if schema.primaryKey != [] {
        KeyText(schema.primaryKey, CLOSE + rest);
        Regroup(KEY_OPEN, JoinWith(", ", Quoted(schema.primaryKey)), ")", CLOSE + rest);
        assert |lines| == 1;
      }
    } else {
      var tail := Schema(schema.columns[1..], schema.primaryKey);
      FirstColumnFirst(schema);
      BodyText(tail, rest);
      hide Declared, DefinitionLines;
      if |lines| == 1 {
        ColumnText(schema.columns[0], CLOSE + rest);
      } else {
        Regroup(lines[0], SEPARATOR, JoinWith(SEPARATOR, lines[1..]), CLOSE + rest);
        ColumnText(schema.columns[0], SEPARATOR + PrintBody(d.columns[1..], d.key, rest));
      }
    }
  }

  lemma FirstColumnFirst(schema: Schema)
    requires schema.columns != []
    ensures var c, tail := schema.columns[0], Schema(schema.columns[1..], schema.primaryKey);
            var lines, d, rest := DefinitionLines(schema), Declared(Table("", schema)), Declared(Table("", tail));
            && lines != [] && lines[0] == ColumnLine(c) && lines[1..] == DefinitionLines(tail)
            && (|lines| == 1 <==> |schema.columns| == 1 && schema.primaryKey == [])
            && |d.columns| == |schema.columns| && d.key == rest.key == schema.primaryKey
            && d.columns[0] == ColumnDecl(c.name, DeclaredType(c), c.nullable) && d.columns[1..] == rest.columns
  {
    hide ColumnLine, ColumnTypeSql, DeclaredType;
  }

  lemma StatementText(t: Table, rest: string)
    ensures CreateTableSql(t.name, t.schema) + rest == PrintDecl(Declared(t), rest)
  {
    var body, d := JoinWith(SEPARATOR, DefinitionLines(t.schema)), Declared(t);
    BodyText(t.schema, rest);
    Regroup7(DROP, Quote(t.name), CREATE, BODY_OPEN, body, CLOSE, rest);
    assert d.columns == Declared(Table("", t.schema)).columns && d.key == t.schema.primaryKey;
  }

  lemma Regroup7(a: string, q: string, b: string, c: string, d: string, e: string, r: string)
    ensures a + q + b + q + c + d + e + r == a + (q + (b + (q + (c + (d + (e + r))))))
  {
    Regroup4(c, d, e, r, "");
    Regroup4(a, q, b, q, c + d + e + r);
    assert c + d + e + r == c + (d + (e + r));
    assert a + q + b + q + c + d + e + r == a + q + b + q + (c + d + e + r);
  }

  lemma {:induction false} ScriptIsPrinted(tables: seq<Table>)
    ensures Script(tables) == PrintAll(DeclaredAll(tables))
  {
    if tables != [] {
      ScriptIsPrinted(tables[1..]);
      assert DeclaredAll(tables)[1..] == DeclaredAll(tables[1..]);
      StatementText(tables[0], Script(tables[1..]));
    }
  }

  /** `d` is the table as the catalogue has it: its name and key, and its columns in
      order, each with its name, type, length or precision and scale, and whether it
      takes NULL. */
  predicate IsDeclared(t: Table, d: Decl)
  {
    && d.name == t.name && d.key == t.schema.primaryKey && |d.columns| == |t.schema.columns|
    && forall i | 0 <= i < |d.columns| ::
         var column := t.schema.columns[i];
         && d.columns[i].name == column.name && d.columns[i].nullable == column.nullable
         && Says(d.columns[i].sqlType, column)
  }

  predicate PlainTypes(t: Table)
  {
    forall c | c in t.schema.columns :: PlainType(c.dataType)
  }

  lemma DeclaredIff(t: Table, d: Decl)
    ensures IsDeclared(t, d) <==> d == Declared(t)
  {
    hide Says, DeclaredType;
    forall i | 0 <= i < |t.schema.columns| { DeclaredTypeSays(t.schema.columns[i]); }
    if IsDeclared(t, d) {
      assert d.columns == Declared(t).columns;
    }
  }

  lemma DeclaredPlain(t: Table)
    ensures PlainDecl(Declared(t)) <==> PlainTypes(t)
  {
    hide PlainType;
    var columns, d := t.schema.columns, Declared(t);
    assert forall i | 0 <= i < |columns| :: d.columns[i].sqlType.name == columns[i].dataType;
    if PlainDecl(d) {
      forall c | c in columns ensures PlainType(c.dataType) {
        var i :| 0 <= i < |columns| && columns[i] == c;
        assert d.columns[i] in d.columns;
      }
    }
  }

  /** What the reader makes of a script are the tables as the catalogue has them. */
  ghost predicate ReadsBack(tables: seq<Table>)
  {
    var decls := Read(Script(tables));
    && decls.Some? && |decls.value| == |tables|
    && forall i | 0 <= i < |tables| :: IsDeclared(tables[i], decls.value[i])
  }

  /** The script is uniquely readable: for any table and column names, the reader
      recovers every table with its columns in order, their types with length or
      precision and scale, nullability and primary key, if and only if no data type
      name holds a blank or an opening parenthesis (none of SQL Server's does). */
  lemma ScriptReadsBackIff(tables: seq<Table>)
    ensures ReadsBack(tables) <==> forall t | t in tables :: PlainTypes(t)
  {
    hide Script, Read, IsDeclared, Declared, PlainDecl, PlainTypes;
    var decls := DeclaredAll(tables);
    ScriptIsPrinted(tables);
    ReadExact(Script(tables), decls);
    forall i | 0 <= i < |tables| ensures PlainDecl(decls[i]) <==> PlainTypes(tables[i]) { DeclaredPlain(tables[i]); }
    forall i, d | 0 <= i < |tables| ensures IsDeclared(tables[i], d) <==> d == decls[i] { DeclaredIff(tables[i], d); }
    if ReadsBack(tables) { assert Read(Script(tables)).value == decls; }
    if forall d | d in decls :: PlainDecl(d) {
      forall t | t in tables ensures PlainTypes(t) {
        var i :| 0 <= i < |tables| && tables[i] == t;
        assert decls[i] in decls;
      }
    }
  }

  /** One declaration is right for both tables. */
  ghost predicate DeclaredAlike(t: Table, u: Table)
  {
    exists d :: IsDeclared(t, d) && IsDeclared(u, d)
  }

  /** Scripts are equal only if they declare the same tables. */
  lemma ScriptDeterminesDeclarations(a: seq<Table>, b: seq<Table>)
    requires (forall t | t in a :: PlainTypes(t)) && (forall t | t in b :: PlainTypes(t))
    requires Script(a) == Script(b)
    ensures |a| == |b| && forall i | 0 <= i < |a| :: DeclaredAlike(a[i], b[i])
  {
    hide Script, IsDeclared, PlainTypes, ReadsBack;
    ScriptReadsBackIff(a);
    ScriptReadsBackIff(b);
    SameReading(a, b);
  }

  lemma SameReading(a: seq<Table>, b: seq<Table>)
    requires ReadsBack(a) && ReadsBack(b) && Script(a) == Script(b)
    ensures |a| == |b| && forall i | 0 <= i < |a| :: DeclaredAlike(a[i], b[i])
  {
    hide Script, Read, IsDeclared;
    var decls := Read(Script(a)).value;
    forall i | 0 <= i < |a| ensures DeclaredAlike(a[i], b[i]) {
      assert IsDeclared(a[i], decls[i]) && IsDeclared(b[i], decls[i]);
    }
  }

  // ------------------------------------------------------------ a concrete script

  const PRICES: Schema := Schema([Column("a", "decimal", None, Some(10), Some(2), false)], ["a"])

  lemma PriceType()
    ensures ColumnTypeSql(PRICES.columns[0]) == "decimal(10,2)"
  {
    assert Digits(10) == Digits(1) + "0" && Digits(1) == "1" && Digits(2) == "2";
  }

  lemma PlainQuote(c: char)
    requires c != ']'
    ensures Quote([c]) == ['[', c, ']']
  {
    assert Replace(']', "]]", [c]) == [c] by { assert [c][1..] == ""; }
  }

  lemma PriceLines()
    ensures DefinitionLines(PRICES) == ["[a] decimal(10,2) NOT NULL", "PRIMARY KEY ([a])"]
  {
    PriceType();
    PlainQuote('a');
    hide ColumnTypeSql, Replace, Quote;
    assert ColumnLine(PRICES.columns[0]) == "[a] decimal(10,2) NOT NULL";
    hide ColumnLine;
    PriceKey();
  }

  lemma PriceKey()
    ensures KEY_OPEN + JoinWith(", ", Quoted(["a"])) + ")" == "PRIMARY KEY ([a])"
  {
    PlainQuote('a');
    hide Quote;
    assert Quoted(["a"]) == ["[a]"];
  }

  /** The statements for one table, as they are run. */
  lemma PriceScript()
    ensures CreateTableSql("t", PRICES)
         == "DROP TABLE IF EXISTS [t];\nCREATE TABLE [t] (\n    "
            + "[a] decimal(10,2) NOT NULL,\n    PRIMARY KEY ([a])" + "\n);\n"
  {
    hide DefinitionLines, Quote, JoinWith;
    PriceLines();
    PlainQuote('t');
    TwoLines(SEPARATOR, "[a] decimal(10,2) NOT NULL", "PRIMARY KEY ([a])");
    assert Quote("t") == "[t]";
    assert DROP + "[t]" + CREATE + "[t]" + BODY_OPEN == "DROP TABLE IF EXISTS [t];\nCREATE TABLE [t] (\n    ";
    assert "[a] decimal(10,2) NOT NULL" + SEPARATOR + "PRIMARY KEY ([a])"
        == "[a] decimal(10,2) NOT NULL,\n    PRIMARY KEY ([a])";
  }

  lemma TwoLines(sep: string, a: string, b: string)
    ensures JoinWith(sep, [a, b]) == a + sep + b
  {
    var lines := [a, b];
    assert lines[1..] == [b] && JoinWith(sep, [b]) == b;
    assert JoinWith(sep, lines) == lines[0] + sep + JoinWith(sep, lines[1..]);
  }
}
