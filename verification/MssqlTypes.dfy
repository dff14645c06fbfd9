/** The type of a column as the SQL Server handler writes it, and a reader for it. */
module MssqlTypes {
  import opened Text

  datatype Column = Column(name: string, dataType: string, maxLength: Option<int>,
                           precision: Option<int>, scale: Option<int>, nullable: bool)

  const TYPES_WITH_LENGTH := {"varchar", "nvarchar", "char", "nchar", "varbinary", "binary"}
  const TYPES_WITH_PRECISION := {"decimal", "numeric"}

  /** How an f-string writes an integer or None. */
  function Shown(n: Option<int>): string
  {
    if n.None? then "None" else Decimal(n.value)
  }

  /** `_column_type_sql`: a length of zero counts as no length, -1 as `max`. */
  function ColumnTypeSql(c: Column): string
  {
    if c.dataType in TYPES_WITH_LENGTH && c.maxLength.Some? && c.maxLength.value != 0 then
      c.dataType + "(" + (if c.maxLength.value == -1 then "max" else Decimal(c.maxLength.value)) + ")"
    else if c.dataType in TYPES_WITH_PRECISION && c.precision.Some? then
      c.dataType + "(" + Decimal(c.precision.value) + "," + Shown(c.scale) + ")"
    else c.dataType
  }

  // ------------------------------------------------------------ what a type says

  datatype Size = Unsized | Max | Length(length: int) | Exact(precision: int, scale: Option<int>)

  datatype SqlType = SqlType(name: string, size: Size)

  function SizeText(size: Size): string
  {
    match size
    case Unsized => ""
    case Max => "(max)"
    case Length(n) => "(" + Decimal(n) + ")"
    case Exact(precision, scale) => "(" + Decimal(precision) + "," + Shown(scale) + ")"
  }

  function TypeText(t: SqlType): string
  {
    t.name + SizeText(t.size)
  }

  function ReadShown(s: string): Option<Option<int>>
  {
    if s == "None" then Some(None) else if ReadInt(s).None? then None else Some(ReadInt(s))
  }

  /** What stands between the parentheses. */
  function ReadArguments(s: string): Option<Size>
  {
    var n := IndexOf(',', s);
    if s == "max" then Some(Max)
    else if n == |s| then if ReadInt(s).None? then None else Some(Length(ReadInt(s).value))
    else if ReadInt(s[..n]).None? || ReadShown(s[n + 1..]).None? then None
    else Some(Exact(ReadInt(s[..n]).value, ReadShown(s[n + 1..]).value))
  }

  /** The name up to the first parenthesis, and the size in the parentheses. */
  function ReadType(s: string): Option<SqlType>
  {
    var n := IndexOf('(', s);
    if n == |s| then Some(SqlType(s, Unsized))
    else if s[|s| - 1] != ')' || |s| < n + 2 || ReadArguments(s[n + 1..|s| - 1]).None? then None
    else Some(SqlType(s[..n], ReadArguments(s[n + 1..|s| - 1]).value))
  }

  lemma DecimalCharacters(n: int, c: char)
    requires c in Decimal(n)
    ensures c == '-' || '0' <= c <= '9'
  {
  }

  lemma ReadShownExact(s: string, n: Option<int>)
    ensures ReadShown(s) == Some(n) <==> s == Shown(n)
  {
    if n.Some? { ReadIntExact(s, n.value); }
    if ReadInt(s).Some? { ReadIntExact(s, ReadInt(s).value); }
    if s == "None" && n.Some? && s == Decimal(n.value) { DecimalCharacters(n.value, s[0]); }
  }

  function Arguments(size: Size): string
    requires !size.Unsized?
  {
    match size
    case Max => "max"
    case Length(n) => Decimal(n)
    case Exact(precision, scale) => Decimal(precision) + "," + Shown(scale)
  }

  lemma ReadArgumentsExact(s: string, size: Size)
    requires !size.Unsized?
    ensures ReadArguments(s) == Some(size) <==> s == Arguments(size)
  {
    hide ReadArguments, Arguments;
    match size
    case Max => ReadMaxExact(s);
    case Length(length) => ReadLengthExact(s, length);
    case Exact(precision, scale) => ReadPairExact(s, precision, scale);
  }

  lemma ReadMaxExact(s: string)
    ensures ReadArguments(s) == Some(Max) <==> s == Arguments(Max)
  {
    hide ReadInt, ReadShown, IndexOf;
  }

  lemma ReadLengthExact(s: string, length: int)
    ensures ReadArguments(s) == Some(Length(length)) <==> s == Arguments(Length(length))
  {
    hide ReadInt, ReadShown, Decimal, IndexOf;
    var n := IndexOf(',', s);
    ReadIntExact(s, length);
    if s == Decimal(length) {
      if n < |s| { DecimalCharacters(length, s[n]); }
      if s == "max" { DecimalCharacters(length, s[0]); }
    }
  }

  lemma ReadPairExact(s: string, precision: int, scale: Option<int>)
    ensures ReadArguments(s) == Some(Exact(precision, scale)) <==> s == Arguments(Exact(precision, scale))
  {
    hide ReadInt, ReadShown, Decimal, Shown, IndexOf;
    var n := IndexOf(',', s);
    if n < |s| {
      ReadIntExact(s[..n], precision);
      ReadShownExact(s[n + 1..], scale);
      assert s == s[..n] + "," + s[n + 1..];
    }
    if s == Arguments(Exact(precision, scale)) { FirstComma(s, Decimal(precision), Shown(scale), precision); }
  }

  lemma FirstComma(s: string, a: string, b: string, n: int)
    requires s == a + "," + b && a == Decimal(n)
    ensures IndexOf(',', s) == |a| && s[..|a|] == a && s[|a| + 1..] == b && s != "max"
  {
    if ',' in a { DecimalCharacters(n, ','); }
    IndexOfUnique(',', s, |a|);
    assert s[|a|] == ',';
  }

  /** A text is read as a type exactly when it is that type's text; a name with an
      opening parenthesis is never read. */
  lemma ReadTypeExact(s: string, t: SqlType)
    ensures ReadType(s) == Some(t) <==> s == TypeText(t) && '(' !in t.name
  {
    hide ReadType, TypeText;
    if t.size.Unsized? { ReadUnsizedExact(s, t); } else { ReadSizedExact(s, t); }
  }

  lemma ReadUnsizedExact(s: string, t: SqlType)
    requires t.size.Unsized?
    ensures ReadType(s) == Some(t) <==> s == TypeText(t) && '(' !in t.name
  {
    hide ReadArguments;
    var n := IndexOf('(', s);
    assert TypeText(t) == t.name;
    if n < |s| && s == t.name { assert s[n] in t.name; }
    if n < |s| && ReadType(s).Some? { ArgumentsAreSized(s[n + 1..|s| - 1]); }
  }

  lemma ArgumentsAreSized(s: string)
    ensures ReadArguments(s).Some? ==> !ReadArguments(s).value.Unsized?
  {
  }

  lemma ReadSizedExact(s: string, t: SqlType)
    requires !t.size.Unsized?
    ensures ReadType(s) == Some(t) <==> s == TypeText(t) && '(' !in t.name
  {
    hide ReadArguments, Arguments, SizeText, IndexOf;
    var n, inner := IndexOf('(', s), Arguments(t.size);
    SizeIsArguments(t.size);
    assert TypeText(t) == t.name + (['('] + inner + [')']);
    if n + 2 <= |s| {
      ReadArgumentsExact(s[n + 1..|s| - 1], t.size);
      assert s == s[..n] + (['('] + s[n + 1..|s| - 1] + [s[|s| - 1]]);
    }
    if s == TypeText(t) && '(' !in t.name {
      IndexOfUnique('(', s, |t.name|);
      assert s[..n] == t.name && s[n + 1..|s| - 1] == inner;
    }
  }

  lemma SizeIsArguments(size: Size)
    requires !size.Unsized?
    ensures SizeText(size) == ['('] + Arguments(size) + [')']
  {
  }

  // ------------------------------------------------- what the handler makes of it

  /** The type that is declared for a column. */
  function DeclaredType(c: Column): SqlType
  {
    SqlType(c.dataType,
      if c.dataType in TYPES_WITH_LENGTH && c.maxLength.Some? && c.maxLength.value != 0 then
        if c.maxLength.value == -1 then Max else Length(c.maxLength.value)
      else if c.dataType in TYPES_WITH_PRECISION && c.precision.Some? then Exact(c.precision.value, c.scale)
      else Unsized)
  }

  /** `t` says what the catalogue says of the column: its type's name; for a type with
      lengths `max` for -1, no length for none or zero, and otherwise the length;
      for a type with precision both numbers, in that order, if there is one. */
  predicate Says(t: SqlType, c: Column)
  {
    && t.name == c.dataType
    && (t.size == Max <==> c.dataType in TYPES_WITH_LENGTH && c.maxLength == Some(-1))
    && (t.size.Length? <==> c.dataType in TYPES_WITH_LENGTH && c.maxLength.Some? && c.maxLength.value !in {0, -1})
    && (t.size.Length? ==> Some(t.size.length) == c.maxLength)
    && (t.size.Exact? <==> c.dataType in TYPES_WITH_PRECISION && c.precision.Some?)
    && (t.size.Exact? ==> Some(t.size.precision) == c.precision && t.size.scale == c.scale)
  }

  lemma DeclaredTypeSays(c: Column)
    ensures ColumnTypeSql(c) == TypeText(DeclaredType(c))
    ensures forall t :: Says(t, c) <==> t == DeclaredType(c)
  {
    hide *;
    DeclaredTypeText(c);
    forall t ensures Says(t, c) <==> t == DeclaredType(c) { SaysDeclared(t, c); }
  }

  lemma DeclaredTypeText(c: Column)
    ensures ColumnTypeSql(c) == TypeText(DeclaredType(c))
  {
    hide TYPES_WITH_LENGTH, TYPES_WITH_PRECISION, Decimal, Shown;
    if DeclaredType(c).size.Exact? {
      var a, b := Decimal(c.precision.value), Shown(c.scale);
      assert c.dataType + "(" + a + "," + b + ")" == c.dataType + ("(" + a + "," + b + ")");
    } else if DeclaredType(c).size.Length? {
      var a := Decimal(c.maxLength.value);
      assert c.dataType + "(" + a + ")" == c.dataType + ("(" + a + ")");
    }
  }

  lemma SaysDeclared(t: SqlType, c: Column)
    ensures Says(t, c) <==> t == DeclaredType(c)
  {
    NoTypeHasBoth(c.dataType);
    hide TYPES_WITH_LENGTH, TYPES_WITH_PRECISION;
  }

  lemma NoTypeHasBoth(name: string)
    ensures !(name in TYPES_WITH_LENGTH && name in TYPES_WITH_PRECISION)
  {
  }

  lemma TypeBlank(t: SqlType)
    ensures ' ' in TypeText(t) <==> ' ' in t.name
  {
    match t.size {
      case Unsized =>
      case Max =>
      case Length(n) => if ' ' in Decimal(n) { DecimalCharacters(n, ' '); }
      case Exact(p, s) =>
        if ' ' in Decimal(p) { DecimalCharacters(p, ' '); }
        if s.Some? && ' ' in Decimal(s.value) { DecimalCharacters(s.value, ' '); }
    }
  }
}
