/** The value tokenizer and the literal escaper of the MySQL relay. */
module MysqlTokens {
  import opened Text

  // ---------------------------------------------------------------- scanning

  /** The tokenizer's view of a position: inside quotes, and directly after a
      backslash (the only context it looks back at). */
  datatype Scan = Scan(quoted: bool, afterBackslash: bool)

  const START := Scan(false, false)

  function Next(st: Scan, c: char): Scan
  {
    Scan(if c == '\'' && !st.afterBackslash then !st.quoted else st.quoted, c == '\\')
  }

  function Run(st: Scan, t: string): Scan
    decreases t
  {
    if t == "" then st else Run(Next(st, t[0]), t[1..])
  }

  /** Scanning `t` from `st` meets no comma outside quotes. */
  predicate NoCut(st: Scan, t: string)
    decreases t
  {
    t == "" || (!(t[0] == ',' && !st.quoted) && NoCut(Next(st, t[0]), t[1..]))
  }

  /** A token that ends outside quotes, so that a comma after it cuts. */
  predicate Closed(t: string)
  {
    NoCut(START, t) && !Run(START, t).quoted
  }

  lemma {:induction false} RunOfConcat(st: Scan, a: string, b: string)
    ensures Run(st, a + b) == Run(Run(st, a), b)
    ensures NoCut(st, a + b) <==> NoCut(st, a) && NoCut(Run(st, a), b)
    decreases a
  {
    if a == "" {
      assert a + b == b;
    } else {
      assert (a + b)[1..] == a[1..] + b;
      RunOfConcat(Next(st, a[0]), a[1..], b);
    }
  }

  // ------------------------------------------------------------ tokenisation

  /** What it means for `tokens` to be the values of `s`: they join to `s`, no
      token holds a cut, and every token but the last is closed. */
  ghost predicate Tokens(s: string, tokens: seq<string>)
  {
    && |tokens| > 0
    && Join(',', tokens) == s
    && (forall i | 0 <= i < |tokens| :: NoCut(START, tokens[i]))
    && (forall i | 0 <= i < |tokens| - 1 :: Closed(tokens[i]))
  }

  lemma ClosedThenCommaCuts(t: string, rest: string)
    requires Closed(t)
    ensures !NoCut(START, t + [','] + rest)
  {
    RunOfConcat(START, t, [','] + rest);
    assert t + [','] + rest == t + ([','] + rest);
  }

  lemma TokensTail(s: string, tokens: seq<string>)
    requires Tokens(s, tokens) && |tokens| > 1
    ensures Tokens(Join(',', tokens[1..]), tokens[1..])
  {
    assert forall i | 0 <= i < |tokens[1..]| :: tokens[1..][i] == tokens[i + 1];
  }

  /** Two closed tokens at the start of one text are the same token. */
  lemma FirstTokenUnique(a: string, x: string, b: string, y: string)
    requires Closed(a) && Closed(b)
    requires a + [','] + x == b + [','] + y
    ensures a == b && x == y
  {
    var s := a + [','] + x;
    if |a| < |b| {
      assert b == s[..|b|] == a + [','] + x[..|b| - |a| - 1];
      ClosedThenCommaCuts(a, x[..|b| - |a| - 1]);
      assert false;
    }
    if |b| < |a| {
      assert a == s[..|a|] == b + [','] + y[..|a| - |b| - 1];
      ClosedThenCommaCuts(b, y[..|a| - |b| - 1]);
      assert false;
    }
    assert a == s[..|a|] == b;
    assert x == s[|a| + 1..] == y;
  }

  /** A text has one tokenisation only. */
  lemma {:induction false} TokensUnique(s: string, a: seq<string>, b: seq<string>)
    requires Tokens(s, a) && Tokens(s, b)
    ensures a == b
    decreases |a|
  {
    if |a| == 1 && |b| > 1 {
      ClosedThenCommaCuts(b[0], Join(',', b[1..]));
      assert false;
    } else if |a| > 1 && |b| == 1 {
      ClosedThenCommaCuts(a[0], Join(',', a[1..]));
      assert false;
    } else if |a| > 1 && |b| > 1 {
      FirstTokenUnique(a[0], Join(',', a[1..]), b[0], Join(',', b[1..]));
      TokensTail(s, a);
      TokensTail(s, b);
      TokensUnique(Join(',', a[1..]), a[1..], b[1..]);
      assert a == [a[0]] + a[1..] && b == [b[0]] + b[1..];
    }
  }

  /** The tokenisation of a text that begins inside a token: `current` is what
      has been read of it. */
  function TokensFrom(current: string, s: string): (tokens: seq<string>)
    requires NoCut(START, current)
    ensures Tokens(current + s, tokens)
    decreases |s|
  {
    if s == "" then
      assert current + s == current;
      [current]
    else if s[0] == ',' && !Run(START, current).quoted then
      var rest := TokensFrom("", s[1..]);
      TokensPrepend(current, s, rest);
      [current] + rest
    else
      NoCutOneMore(current, s[0]);
      assert current + s == (current + [s[0]]) + s[1..];
      TokensFrom(current + [s[0]], s[1..])
  }

  lemma NoCutOneMore(current: string, c: char)
    requires NoCut(START, current) && !(c == ',' && !Run(START, current).quoted)
    ensures NoCut(START, current + [c])
  {
    RunOfConcat(START, current, [c]);
    NoCutOfOne(Run(START, current), c);
  }

  lemma NoCutOfOne(st: Scan, c: char)
    requires !(c == ',' && !st.quoted)
    ensures NoCut(st, [c])
  {
  }

  /** A closed token before the tokens of what follows its comma. */
  lemma TokensPrepend(current: string, s: string, rest: seq<string>)
    requires s != "" && s[0] == ',' && Closed(current) && Tokens("" + s[1..], rest)
    ensures Tokens(current + s, [current] + rest)
  {
    hide NoCut, Closed;
    var all := [current] + rest;
    assert "" + s[1..] == s[1..];
    assert all[1..] == rest && current + s == current + [','] + s[1..];
    ClosedHasNoCut(current);
    forall i | 0 <= i < |all| ensures NoCut(START, all[i]) && (i < |all| - 1 ==> Closed(all[i])) {
      if i > 0 { assert all[i] == rest[i - 1]; }
    }
  }

  lemma ClosedHasNoCut(t: string)
    requires Closed(t)
    ensures NoCut(START, t)
  {
  }

  function Tokenise(s: string): (tokens: seq<string>)
    ensures Tokens(s, tokens)
  {
    assert "" + s == s;
    TokensFrom("", s)
  }

  lemma NothingRead(s: string)
    ensures NoCut(START, "") && Run(START, "") == START && Join(',', [] + [""]) == s[..0]
  {
    assert [] + [""] == [""];
  }

  /** What reading one more character does to the token and to the text read. */
  lemma OneMoreCharacter(values: seq<string>, current: string, c: char)
    requires NoCut(START, current)
    ensures Run(START, current + [c]) == Next(Run(START, current), c)
    ensures !(c == ',' && !Run(START, current).quoted) ==> NoCut(START, current + [c])
    ensures !Run(START, current).quoted ==> Closed(current)
    ensures Join(',', values + [current + [c]]) == Join(',', values + [current]) + [c]
    ensures Join(',', values + [current] + [""]) == Join(',', values + [current]) + [',']
    ensures NoCut(START, "") && Run(START, "") == START
  {
    RunOfConcat(START, current, [c]);
    RunOfOne(Run(START, current), c);
    if !(c == ',' && !Run(START, current).quoted) { NoCutOneMore(current, c); }
    hide Run, NoCut;
    JoinAppend(',', values + [current], "");
    JoinOneMore(values, current, c);
  }

  lemma RunOfOne(st: Scan, c: char)
    ensures Run(st, [c]) == Next(st, c) && Run(st, "") == st && NoCut(st, "")
  {
    assert [c][1..] == "";
  }

  lemma JoinOneMore(values: seq<string>, current: string, c: char)
    ensures Join(',', values + [current + [c]]) == Join(',', values + [current]) + [c]
  {
    if values == [] {
      assert values + [current] == [current] && values + [current + [c]] == [current + [c]];
    } else {
      JoinAppend(',', values, current);
      JoinAppend(',', values, current + [c]);
    }
  }

  lemma AllRead(s: string, values: seq<string>, current: string)
    requires (forall j | 0 <= j < |values| :: Closed(values[j])) && NoCut(START, current)
    requires Join(',', values + [current]) == s
    ensures Tokens(s, values + [current])
  {
    var all := values + [current];
    forall i | 0 <= i < |all| ensures NoCut(START, all[i]) && (i < |all| - 1 ==> Closed(all[i])) {
      if i < |values| { ClosedHasNoCut(values[i]); }
    }
  }

  /** `_split_values`: one pass over the text with a look-back of one character. */
  method SplitValues(s: string) returns (values: seq<string>)
    ensures Tokens(s, values)
    ensures values == Tokenise(s)
  {
    hide NoCut, Closed, Join, Tokens, Tokenise, Run;
    values := [];
    var current := "";
    var inQuotes := false;
    var i := 0;
    NothingRead(s);
    while i < |s|
      invariant 0 <= i <= |s|
      invariant forall j | 0 <= j < |values| :: Closed(values[j])
      invariant NoCut(START, current)
      invariant Run(START, current) == Scan(inQuotes, i > 0 && s[i - 1] == '\\')
      invariant Join(',', values + [current]) == s[..i]
    {
      var c := s[i];
      assert s[..i + 1] == s[..i] + [c];
      OneMoreCharacter(values, current, c);
      if c == '\'' && (i == 0 || s[i - 1] != '\\') {
        inQuotes := !inQuotes;
        current := current + [c];
      } else if c == ',' && !inQuotes {
        values := values + [current];
        current := "";
      } else {
        current := current + [c];
      }
      i := i + 1;
    }
    assert s[..i] == s;
    AllRead(s, values, current);
    values := values + [current];
    TokensUnique(s, values, Tokenise(s));
  }

  // ---------------------------------------------------------------- literals

  predicate EndsInBackslash(v: string)
  {
    v != "" && v[|v| - 1] == '\\'
  }

  /** `_quote_mysql_value`: backslashes are doubled first, quotes escaped second. */
  function QuoteValue(v: string): string
  {
    "'" + Replace('\'', "\\'", Replace('\\', "\\\\", v)) + "'"
  }

  /** One element of the text between the quotes of a literal. */
  datatype Unit = Plain(c: char) | Escaped(c: char)

  function UnitText(u: Unit): string
  {
    if u.Escaped? then ['\\', u.c] else [u.c]
  }

  function UnitsText(units: seq<Unit>): string
  {
    if units == [] then "" else UnitText(units[0]) + UnitsText(units[1..])
  }

  /** The value escaped one character at a time. */
  function Escape(v: string): (units: seq<Unit>)
    ensures |units| == |v|
    ensures forall i | 0 <= i < |v| ::
              units[i] == if v[i] == '\\' || v[i] == '\'' then Escaped(v[i]) else Plain(v[i])
  {
    seq(|v|, i requires 0 <= i < |v| => if v[i] == '\\' || v[i] == '\'' then Escaped(v[i]) else Plain(v[i]))
  }

  /** A value of a dumped row: a bare word (number, NULL, hexadecimal), or a
      string literal, which an introducer such as `_binary` may precede. */
  datatype Literal = Bare(text: string) | Str(intro: string, units: seq<Unit>)

  function LiteralText(l: Literal): string
  {
    match l
    case Bare(text) => text
    case Str(intro, units) => intro + ("'" + (UnitsText(units) + "'"))
  }

  /** Quotes and backslashes stand in escapes only; an introducer has neither,
      nor a comma. */
  predicate ValidLiteral(l: Literal)
  {
    match l
    case Bare(text) => ',' !in text && '\'' !in text
    case Str(intro, units) =>
      && ',' !in intro && '\'' !in intro && '\\' !in intro
      && UnitsEscaped(units)
  }

  predicate UnitsEscaped(units: seq<Unit>)
  {
    forall u | u in units :: u.Plain? ==> u.c != '\'' && u.c != '\\'
  }

  /** The literal is a string whose last element is an escaped backslash. */
  predicate EndsInEscapedBackslash(l: Literal)
  {
    l.Str? && l.units != [] && l.units[|l.units| - 1] == Escaped('\\')
  }

  lemma {:induction false} ReplaceOfConcat(c: char, r: string, a: string, b: string)
    ensures Replace(c, r, a + b) == Replace(c, r, a) + Replace(c, r, b)
  {
    if a == "" {
      assert a + b == b;
    } else {
      assert (a + b)[1..] == a[1..] + b;
      ReplaceOfConcat(c, r, a[1..], b);
    }
  }

  lemma ReplacesOfChar(c: char)
    ensures Replace('\'', "\\'", Replace('\\', "\\\\", [c])) == UnitText(Escape([c])[0])
  {
    var head := if c == '\\' then "\\\\" else [c];
    assert [c][1..] == "";
    assert Replace('\\', "\\\\", "") == "";
    assert Replace('\\', "\\\\", [c]) == head;
    assert Replace('\'', "\\'", "") == "";
    if c == '\\' {
      assert head[1..] == "\\" && "\\"[1..] == "";
      assert Replace('\'', "\\'", "\\") == "\\";
    }
  }

  lemma {:induction false} ReplacesAreUnits(v: string)
    ensures Replace('\'', "\\'", Replace('\\', "\\\\", v)) == UnitsText(Escape(v))
  {
    if v != "" {
      assert v == [v[0]] + v[1..];
      ReplaceOfConcat('\\', "\\\\", [v[0]], v[1..]);
      ReplaceOfConcat('\'', "\\'", Replace('\\', "\\\\", [v[0]]), Replace('\\', "\\\\", v[1..]));
      ReplacesOfChar(v[0]);
      ReplacesAreUnits(v[1..]);
      assert Escape(v)[1..] == Escape(v[1..]);
    }
  }

  /** Two replaces in a row are one character-wise escape: the second does not
      touch what the first wrote. */
  lemma TwoReplacesAreOneEscape(v: string)
    ensures QuoteValue(v) == LiteralText(Str("", Escape(v)))
  {
    ReplacesAreUnits(v);
    var quoted := "'" + (UnitsText(Escape(v)) + "'");
    assert "" + quoted == quoted;
  }

  /** What the server reads after a backslash in a string literal. */
  function Unescaped(c: char): char
  {
    match c
    case 'n' => '\n'
    case 't' => '\t'
    case 'r' => '\r'
    case '0' => '\0'
    case 'b' => '\U{8}'
    case 'Z' => '\U{1A}'
    case _ => c
  }

  function Push(c: char, rest: Option<string>): Option<string>
  {
    if rest.None? then None else Some([c] + rest.value)
  }

  /** The server's reading of the text after an opening quote: the value, if the
      closing quote is the last character. */
  function DecodeBody(t: string): Option<string>
  {
    if t == "" then None
    else if t == "'" then Some("")
    else if t[0] == '\\' then
      if |t| > 1 then Push(Unescaped(t[1]), DecodeBody(t[2..])) else None
    else if t[0] == '\'' then
      if t[1] == '\'' then Push('\'', DecodeBody(t[2..])) else None
    else Push(t[0], DecodeBody(t[1..]))
  }

  function Decode(literal: string): Option<string>
  {
    if literal != "" && literal[0] == '\'' then DecodeBody(literal[1..]) else None
  }

  lemma {:induction false} DecodeOfEscape(v: string)
    ensures DecodeBody(UnitsText(Escape(v)) + "'") == Some(v)
  {
    if v == "" {
      assert UnitsText(Escape(v)) + "'" == "'";
    } else {
      DecodeOfEscape(v[1..]);
      assert Escape(v)[1..] == Escape(v[1..]);
      assert [v[0]] + v[1..] == v;
      Associative(UnitText(Escape(v)[0]), UnitsText(Escape(v[1..])), "'");
      DecodeOfUnit(v[0], UnitsText(Escape(v[1..])) + "'");
    }
  }

  /** What one escaped character adds to the reading. */
  lemma DecodeOfUnit(c: char, rest: string)
    requires rest != ""
    ensures DecodeBody(UnitText(Escape([c])[0]) + rest) == Push(c, DecodeBody(rest))
  {
    var text := UnitText(Escape([c])[0]);
    if c == '\\' || c == '\'' {
      assert (text + rest)[2..] == rest;
    } else {
      assert (text + rest)[1..] == rest;
    }
  }

  /** Escaping loses nothing: the server reads back every value, including ones
      full of quotes and backslashes. */
  lemma QuoteIsLossless(v: string)
    ensures Decode(QuoteValue(v)) == Some(v)
  {
    TwoReplacesAreOneEscape(v);
    DecodeOfEscape(v);
    assert QuoteValue(v)[1..] == UnitsText(Escape(v)) + "'";
  }

  lemma ScanOfUnit(u: Unit, afterBackslash: bool)
    requires u.Plain? ==> u.c != '\'' && u.c != '\\'
    ensures var st := Scan(true, afterBackslash);
            NoCut(st, UnitText(u)) && Run(st, UnitText(u)) == Scan(true, u == Escaped('\\'))
  {
    assert [u.c][1..] == "";
    if u.Escaped? {
      assert UnitText(u)[1..] == [u.c];
      assert Run(Scan(true, true), [u.c]) == Next(Scan(true, true), u.c);
    }
  }

  /** Scanning the inside of a literal stays inside quotes, and ends after a
      backslash exactly when the last element is an escaped one. */
  lemma {:induction false} ScanOfUnits(units: seq<Unit>, afterBackslash: bool)
    requires UnitsEscaped(units)
    ensures var st := Scan(true, afterBackslash);
            && NoCut(st, UnitsText(units))
            && Run(st, UnitsText(units)) ==
               Scan(true, if units == [] then afterBackslash else units[|units| - 1] == Escaped('\\'))
  {
    if units != [] {
      RunOfConcat(Scan(true, afterBackslash), UnitText(units[0]), UnitsText(units[1..]));
      ScanOfUnit(units[0], afterBackslash);
      ScanOfUnits(units[1..], units[0] == Escaped('\\'));
    }
  }

  lemma {:induction false} ScanOfBare(text: string, afterBackslash: bool)
    requires ValidLiteral(Bare(text))
    ensures NoCut(Scan(false, afterBackslash), text) && !Run(Scan(false, afterBackslash), text).quoted
    ensures '\\' !in text && !afterBackslash ==> Run(Scan(false, afterBackslash), text) == START
  {
    if text != "" { ScanOfBare(text[1..], text[0] == '\\'); }
  }

  /** A quoted text scanned from outside quotes. */
  lemma ScanOfQuoted(units: seq<Unit>)
    requires UnitsEscaped(units)
    ensures var t := "'" + (UnitsText(units) + "'");
            && NoCut(START, t)
            && (Run(START, t).quoted <==> units != [] && units[|units| - 1] == Escaped('\\'))
  {
    var t := UnitsText(units);
    RunOfConcat(START, "'", t + "'");
    RunOfConcat(Scan(true, false), t, "'");
    ScanOfUnits(units, false);
    assert "'"[1..] == "";
    assert Run(START, "'") == Scan(true, false);
    var st := Run(Scan(true, false), t);
    assert Run(st, "'") == Next(st, '\'');
  }

  /** A literal never holds a cut, and is closed exactly when it does not end in
      an escaped backslash: otherwise the tokenizer takes its closing quote for
      an escaped one. */
  lemma LiteralIsClosedIff(l: Literal)
    requires ValidLiteral(l)
    ensures NoCut(START, LiteralText(l))
    ensures Closed(LiteralText(l)) <==> !EndsInEscapedBackslash(l)
  {
    if l.Bare? {
      ScanOfBare(l.text, false);
    } else {
      ScanOfBare(l.intro, false);
      ScanOfQuoted(l.units);
      RunOfConcat(START, l.intro, "'" + (UnitsText(l.units) + "'"));
    }
  }

  lemma QuotedIsClosedIff(v: string)
    ensures NoCut(START, QuoteValue(v))
    ensures Closed(QuoteValue(v)) <==> !EndsInBackslash(v)
  {
    TwoReplacesAreOneEscape(v);
    LiteralIsClosedIff(Str("", Escape(v)));
  }

  /** A row of literals. */
  function LiteralTexts(row: seq<Literal>): (texts: seq<string>)
    ensures |texts| == |row|
  {
    seq(|row|, i requires 0 <= i < |row| => LiteralText(row[i]))
  }

  /** A dumped row is read literal by literal if and only if no literal before
      the last position ends in an escaped backslash. */
  lemma DumpedRowTokenisesIff(row: seq<Literal>)
    requires row != [] && forall l | l in row :: ValidLiteral(l)
    ensures Tokenise(Join(',', LiteralTexts(row))) == LiteralTexts(row) <==>
            forall i | 0 <= i < |row| - 1 :: !EndsInEscapedBackslash(row[i])
  {
    var texts := LiteralTexts(row);
    forall i | 0 <= i < |row|
      ensures NoCut(START, texts[i]) && (Closed(texts[i]) <==> !EndsInEscapedBackslash(row[i]))
    {
      LiteralIsClosedIff(row[i]);
    }
    if forall i | 0 <= i < |row| - 1 :: !EndsInEscapedBackslash(row[i]) {
      assert Tokens(Join(',', texts), texts);
      TokensUnique(Join(',', texts), texts, Tokenise(Join(',', texts)));
    }
  }

  lemma {:induction false} UnitsHold(units: seq<Unit>, c: char)
    requires c != '\\'
    ensures c in UnitsText(units) <==> exists u :: u in units && u.c == c
  {
    if units != [] {
      UnitsHold(units[1..], c);
      assert units == [units[0]] + units[1..];
    }
  }

  /** Escaping adds quotes and backslashes only. */
  lemma QuotingKeepsOthers(v: string, c: char)
    requires c != '\\' && c != '\''
    ensures c in QuoteValue(v) <==> c in v
  {
    TwoReplacesAreOneEscape(v);
    UnitsHold(Escape(v), c);
    forall i | 0 <= i < |v| && v[i] == c
      ensures Escape(v)[i] in Escape(v) && Escape(v)[i].c == c
    {
    }
  }

  // ------------------------------------------------- replacing some of the values

  /** The values of a row after some of them were replaced by quoted raw values. */
  function Replaced(tokens: seq<string>, raw: map<nat, string>): (row: seq<string>)
    ensures |row| == |tokens|
  {
    seq(|tokens|, i requires 0 <= i < |tokens| => if i in raw then QuoteValue(raw[i]) else tokens[i])
  }

  /** The tokenizer is the inverse of joining, also after replacements: the
      replaced row is read back value by value if and only if no replaced value
      before the last position ends in a backslash. */
  lemma ReplacedRowReadsBackIff(s: string, raw: map<nat, string>)
    ensures var row := Replaced(Tokenise(s), raw);
            Tokenise(Join(',', row)) == row <==>
            forall i: nat | i in raw && i < |row| - 1 :: !EndsInBackslash(raw[i])
  {
    var tokens := Tokenise(s);
    var row := Replaced(tokens, raw);
    forall i: nat | i < |row|
      ensures NoCut(START, row[i])
      ensures i < |row| - 1 ==> (Closed(row[i]) <==> !(i in raw && EndsInBackslash(raw[i])))
    {
      if i in raw { QuotedIsClosedIff(raw[i]); }
    }
    if forall i: nat | i in raw && i < |row| - 1 :: !EndsInBackslash(raw[i]) {
      assert Tokens(Join(',', row), row);
      TokensUnique(Join(',', row), row, Tokenise(Join(',', row)));
    }
  }
}
