/** COPY text format as the server reads it back, and what that makes of masks that
    are written as they are drawn. */
module CopyFormat {
  import opened Text
  import opened Masking
  import opened TabLines

  datatype Cell = Null | Value(text: string)

  /** What ends a field or is refused in one, unless a backslash stands before it. */
  predicate Terminator(c: char)
  {
    c == '\t' || c == '\n' || c == '\r'
  }

  predicate Octal(c: char)
  {
    '0' <= c <= '7'
  }

  predicate Hex(c: char)
  {
    '0' <= c <= '9' || 'a' <= c <= 'f' || 'A' <= c <= 'F'
  }

  function Digit(c: char): (d: nat)
    ensures d < 16
  {
    if '0' <= c <= '9' then (c - '0') as int
    else if 'a' <= c <= 'f' then (c - 'a') as int + 10
    else if 'A' <= c <= 'F' then (c - 'A') as int + 10
    else 0
  }

  /** How long the escape at the start of `s` is: up to three octal digits, or an x
      and up to two hexadecimal ones, or one character. */
  function EscapeSize(s: string): (n: nat)
    requires |s| > 1
    ensures 2 <= n <= |s|
    ensures forall i | 2 <= i < n :: Hex(s[i])
  {
    if Octal(s[1]) then
      if |s| > 2 && Octal(s[2]) then if |s| > 3 && Octal(s[3]) then 4 else 3 else 2
    else if s[1] == 'x' && |s| > 2 && Hex(s[2]) then
      if |s| > 3 && Hex(s[3]) then 4 else 3
    else 2
  }

  function NumberOf(digits: string, base: nat): nat
  {
    if digits == "" then 0 else NumberOf(digits[..|digits| - 1], base) * base + Digit(digits[|digits| - 1])
  }

  /** The character that it stands for. */
  function Escaped(s: string): char
    requires |s| > 1
  {
    if Octal(s[1]) then (NumberOf(s[1..EscapeSize(s)], 8) % 256) as char
    else if s[1] == 'x' && |s| > 2 && Hex(s[2]) then (NumberOf(s[2..EscapeSize(s)], 16) % 256) as char
    else
      match s[1]
      case 'b' => '\U{8}'
      case 'f' => '\U{C}'
      case 'n' => '\n'
      case 'r' => '\r'
      case 't' => '\t'
      case 'v' => '\U{B}'
      case c => c
  }

  /** Three octal digits stand for the character of that number. */
  lemma OctalEscape(a: char, b: char, c: char)
    requires '0' <= a <= '7' && '0' <= b <= '7' && '0' <= c <= '7'
    ensures var s, n := ['\\', a, b, c], 64 * (a as int - 48) + 8 * (b as int - 48) + (c as int - 48);
            EscapeSize(s) == 4 && Escaped(s) == (n % 256) as char
  {
    hide NumberOf;
    NoDigits(8);
    NumberSnoc("", a, 8);
    NumberSnoc("" + [a], b, 8);
    NumberSnoc("" + [a] + [b], c, 8);
    assert ['\\', a, b, c][1..4] == "" + [a] + [b] + [c];
  }

  predicate IsHexDigit(c: char, n: nat)
  {
    n < 16 && (c == "0123456789ABCDEF"[n] || c == "0123456789abcdef"[n])
  }

  lemma HexWorth(c: char, n: nat)
    requires IsHexDigit(c, n)
    ensures Hex(c) && Digit(c) == n
  {
  }

  lemma HexSize(a: char, b: char)
    requires Hex(a) && Hex(b)
    ensures EscapeSize(['\\', 'x', a, b]) == 4
  {
    hide Hex;
  }

  /** And so do two hexadecimal ones after an x. */
  lemma HexEscape(a: char, b: char, m: nat, n: nat)
    requires IsHexDigit(a, m) && IsHexDigit(b, n)
    ensures var s := ['\\', 'x', a, b]; EscapeSize(s) == 4 && m < 16 && n < 16 && Escaped(s) == (16 * m + n) as char
  {
    HexWorth(a, m);
    HexWorth(b, n);
    HexSize(a, b);
    hide NumberOf, Digit, IsHexDigit, Hex, EscapeSize;
    NoDigits(16);
    NumberSnoc("", a, 16);
    NumberSnoc("" + [a], b, 16);
    assert ['\\', 'x', a, b][2..4] == "" + [a] + [b];
  }

  lemma NoDigits(base: nat)
    ensures NumberOf("", base) == 0
  {
  }

  lemma NumberSnoc(digits: string, c: char, base: nat)
    ensures NumberOf(digits + [c], base) == NumberOf(digits, base) * base + Digit(c)
  {
    assert (digits + [c])[..|digits|] == digits;
  }

  /** A raw field without its escapes. */
  function Unescape(s: string): string
  {
    if s == "" then ""
    else if s[0] != '\\' then [s[0]] + Unescape(s[1..])
    else if |s| == 1 then ""
    else [Escaped(s)] + Unescape(s[EscapeSize(s)..])
  }

  function CellOf(raw: string): (cell: Cell)
    ensures cell == Null <==> raw == "\\N"
    ensures cell != Null ==> cell == Value(Unescape(raw))
  {
    if raw == "\\N" then Null else Value(Unescape(raw))
  }

  /** Where the first field of a text ends. */
  function RawEnd(s: string): (n: nat)
    ensures n <= |s|
    ensures n < |s| ==> Terminator(s[n])
  {
    if s == "" || Terminator(s[0]) then 0
    else if s[0] == '\\' && |s| > 1 then 2 + RawEnd(s[2..])
    else 1 + RawEnd(s[1..])
  }

  /** The one row that a text is, or nothing: if it does not end with its row, the row
      does not end, or a bare carriage return stands in it. */
  function ReadCopyRow(s: string): Option<seq<Cell>>
    decreases |s|
  {
    var n := RawEnd(s);
    if n == |s| then None
    else if s[n] == '\n' then if n == |s| - 1 then Some([CellOf(s[..n])]) else None
    else if s[n] == '\r' then None
    else
      var more := ReadCopyRow(s[n + 1..]);
      if more.None? then None else Some([CellOf(s[..n])] + more.value)
  }

  // ------------------------------------------------------------------- one field

  /** A raw field that ends where the next terminator stands. */
  predicate Whole(f: string)
  {
    f == "" || (!Terminator(f[0]) && if f[0] == '\\' then |f| > 1 && Whole(f[2..]) else Whole(f[1..]))
  }

  /** A value that reads as itself. */
  predicate Plain(f: string)
  {
    '\t' !in f && '\n' !in f && '\r' !in f && '\\' !in f
  }

  lemma {:induction false} WholeEnds(f: string, rest: string)
    requires Whole(f) && rest != "" && Terminator(rest[0])
    ensures RawEnd(f + rest) == |f|
    decreases |f|
  {
    if f == "" {
      assert f + rest == rest;
    } else if f[0] == '\\' {
      assert (f + rest)[2..] == f[2..] + rest;
      WholeEnds(f[2..], rest);
    } else {
      assert (f + rest)[1..] == f[1..] + rest;
      WholeEnds(f[1..], rest);
    }
  }

  lemma {:induction false} PlainIsItself(f: string)
    requires Plain(f)
    ensures Whole(f) && Unescape(f) == f && CellOf(f) == Value(f)
  {
    if f != "" {
      assert f == [f[0]] + f[1..];
      assert f[0] in f && forall c | c in f[1..] :: c in f;
      PlainIsItself(f[1..]);
    }
  }

  lemma {:induction false} UnescapeShortens(f: string)
    ensures |Unescape(f)| <= |f|
    ensures '\\' in f ==> |Unescape(f)| < |f|
  {
    if f != "" {
      assert f == [f[0]] + f[1..];
      if f[0] != '\\' {
        UnescapeShortens(f[1..]);
      } else if |f| > 1 {
        UnescapeShortens(f[EscapeSize(f)..]);
      }
    }
  }

  /** Digits of an escape are no field ends. */
  lemma {:induction false} RawEndPasses(s: string, n: nat)
    requires n <= |s| && forall i | 0 <= i < n :: Hex(s[i])
    ensures RawEnd(s) == n + RawEnd(s[n..])
  {
    if n == 0 {
      assert s[0..] == s;
    } else {
      RawEndPasses(s[1..], n - 1);
      assert s[1..][n - 1..] == s[n..];
    }
  }

  lemma EscapeSizeStays(a: string, g: string)
    requires |a| > 1 && a <= g && (|g| > |a| ==> Terminator(g[|a|]))
    ensures EscapeSize(g) == EscapeSize(a) && Escaped(g) == Escaped(a)
  {
    var n := EscapeSize(a);
    assert forall i | 0 <= i < |a| :: g[i] == a[i];
    assert g[1..n] == a[1..n] && g[2..n] == a[2..n];
  }

  lemma EscapePasses(s: string)
    requires |s| > 1 && s[0] == '\\'
    ensures var n := EscapeSize(s); RawEnd(s) == n + RawEnd(s[n..])
  {
    var n := EscapeSize(s);
    RawEndPasses(s[2..], n - 2);
    assert s[2..][n - 2..] == s[n..];
  }

  /** Some position of `read`, below `n`, holds a terminator. */
  predicate TerminatorBelow(read: string, n: nat)
  {
    exists i | 0 <= i < n && i < |read| :: Terminator(read[i])
  }

  /** A text without terminators, and what comes after it: the field is either just
      that text, or goes on past a terminator that its last backslash hides, which
      then stands in the value earlier than the text is long. */
  predicate FieldShape(a: string, tail: string)
  {
    var s, n := a + tail, RawEnd(a + tail);
    n == |a| || (n > |a| && '\\' in a && TerminatorBelow(Unescape(s[..n]), |a|))
  }

  lemma {:induction false} FieldUpTo(a: string, tail: string)
    requires (forall c | c in a :: !Terminator(c)) && tail != "" && Terminator(tail[0])
    ensures FieldShape(a, tail)
    decreases |a|
  {
    hide FieldShape;
    if a == "" {
      NoText(tail);
    } else if a[0] != '\\' {
      assert forall c | c in a[1..] :: c in a;
      FieldUpTo(a[1..], tail);
      assert a[0] in a;
      OrdinaryFirst(a, tail);
    } else if |a| == 1 {
      BackslashOnly(a, tail);
    } else {
      assert forall c | c in a[EscapeSize(a)..] :: c in a;
      FieldUpTo(a[EscapeSize(a)..], tail);
      EscapeFirst(a, tail);
    }
  }

  lemma NoText(tail: string)
    requires tail != "" && Terminator(tail[0])
    ensures FieldShape("", tail)
  {
    assert "" + tail == tail;
  }

  lemma OrdinaryFirst(a: string, tail: string)
    requires a != "" && a[0] != '\\' && !Terminator(a[0]) && FieldShape(a[1..], tail)
    ensures FieldShape(a, tail)
  {
    var s, n := a + tail, RawEnd(a + tail);
    assert s[1..] == a[1..] + tail;
    if n > |a| {
      assert s[..n][1..] == s[1..][..n - 1];
      assert Unescape(s[..n]) == [s[0]] + Unescape(s[1..][..n - 1]);
      hide Unescape;
      TerminatorLater([s[0]], Unescape(s[1..][..n - 1]), |a| - 1);
      assert '\\' in a by { assert a == [a[0]] + a[1..]; }
    }
  }

  lemma BackslashOnly(a: string, tail: string)
    requires a == ['\\'] && tail != "" && Terminator(tail[0])
    ensures FieldShape(a, tail)
  {
    var s, n := a + tail, RawEnd(a + tail);
    assert s[0] == '\\' && s[1] == tail[0];
    var g := s[..n];
    assert Escaped(g) == tail[0];
    assert Unescape(g)[0] == tail[0];
  }

  lemma EscapeFirst(a: string, tail: string)
    requires |a| > 1 && a[0] == '\\' && tail != "" && Terminator(tail[0]) && FieldShape(a[EscapeSize(a)..], tail)
    ensures FieldShape(a, tail)
  {
    hide RawEnd, EscapeSize, Escaped;
    var s, n, e := a + tail, RawEnd(a + tail), EscapeSize(a);
    EscapeSizeStays(a, s);
    EscapePasses(s);
    assert s[e..] == a[e..] + tail;
    assert a[0] in a;
    if n > |a| {
      var g, after := s[..n], s[e..][..n - e];
      assert a <= g && g[|a|] == tail[0];
      EscapeSizeStays(a, g);
      assert g[e..] == after;
      assert Unescape(g) == [Escaped(g)] + Unescape(after);
      hide Unescape;
      TerminatorLater([Escaped(g)], Unescape(after), |a| - e);
      TerminatorBelowMore(Unescape(g), |a| - e + 1, |a|);
    }
  }

  lemma TerminatorBelowMore(read: string, n: nat, m: nat)
    requires TerminatorBelow(read, n) && n <= m
    ensures TerminatorBelow(read, m)
  {
  }

  lemma TerminatorLater(head: string, read: string, n: nat)
    requires |head| == 1 && TerminatorBelow(read, n)
    ensures TerminatorBelow(head + read, n + 1)
  {
    var i :| 0 <= i < n && i < |read| && Terminator(read[i]);
    assert (head + read)[i + 1] == read[i];
  }

  lemma {:induction false} FirstTerminator(v: string) returns (n: nat)
    ensures n <= |v| && (forall c | c in v[..n] :: !Terminator(c)) && (n < |v| ==> Terminator(v[n]))
  {
    n := 0;
    while n < |v| && !Terminator(v[n])
      invariant n <= |v| && forall c | c in v[..n] :: !Terminator(c)
    {
      assert v[..n + 1] == v[..n] + [v[n]];
      n := n + 1;
    }
  }

  /** A value that is written raw is read back as itself if and only if it holds no
      tab, newline, carriage return or backslash. */
  lemma RawValueReadsBackIff(v: string, rest: string)
    requires rest != "" && Terminator(rest[0])
    ensures CellOf((v + rest)[..RawEnd(v + rest)]) == Value(v) <==> Plain(v)
    ensures Plain(v) ==> RawEnd(v + rest) == |v|
  {
    hide *;
    if Plain(v) { PlainReadsBack(v, rest); } else { OthersMisread(v, rest); }
  }

  lemma PlainReadsBack(v: string, rest: string)
    requires Plain(v) && rest != "" && Terminator(rest[0])
    ensures RawEnd(v + rest) == |v| && CellOf((v + rest)[..|v|]) == Value(v)
  {
    hide Unescape, RawEnd, Whole, CellOf, Plain;
    PlainIsItself(v);
    WholeEnds(v, rest);
    assert (v + rest)[..|v|] == v;
  }

  lemma OthersMisread(v: string, rest: string)
    requires !Plain(v) && rest != "" && Terminator(rest[0])
    ensures CellOf((v + rest)[..RawEnd(v + rest)]) != Value(v)
  {
    hide Unescape, RawEnd, CellOf, FieldShape, Plain, Terminator;
    var t := FirstTerminator(v);
    var a, tail := v[..t], v[t..] + rest;
    assert v + rest == a + tail;
    assert tail[0] == if t < |v| then v[t] else rest[0];
    FieldUpTo(a, tail);
    NotTheValue(v, a, tail);
  }

  lemma NotTheValue(v: string, a: string, tail: string)
    requires !Plain(v) && a <= v && FieldShape(a, tail)
    requires (forall c | c in a :: !Terminator(c)) && (a == v || |a| < |v|)
    ensures CellOf((a + tail)[..RawEnd(a + tail)]) != Value(v)
  {
    hide Unescape, RawEnd;
    var s, n := a + tail, RawEnd(a + tail);
    UnescapeShortens(a);
    if n == |a| {
      assert s[..n] == a;
    } else {
      var read := Unescape(s[..n]);
      var i :| 0 <= i < |a| && i < |read| && Terminator(read[i]);
      assert v[i] == a[i] && a[i] in a;
    }
  }

  // --------------------------------------------------------------------- one row

  /** What a row should be read as: its masks themselves, its other fields decoded. */
  function Expected(fields: seq<string>, isMask: seq<bool>): (cells: seq<Cell>)
    requires |fields| == |isMask|
    ensures |cells| == |fields|
    ensures forall i | 0 <= i < |fields| :: cells[i] == if isMask[i] then Value(fields[i]) else CellOf(fields[i])
  {
    seq(|fields|, i requires 0 <= i < |fields| => if isMask[i] then Value(fields[i]) else CellOf(fields[i]))
  }

  /** A line is read as the row it was written from if and only if no mask in it holds
      a tab, a newline, a carriage return or a backslash. */
  lemma {:induction false} LineReadsBackIff(fields: seq<string>, isMask: seq<bool>)
    requires |fields| == |isMask| > 0
    requires forall i | 0 <= i < |fields| && !isMask[i] :: Whole(fields[i])
    ensures ReadCopyRow(RowLine(fields)) == Some(Expected(fields, isMask)) <==>
            forall i | 0 <= i < |fields| && isMask[i] :: Plain(fields[i])
    decreases |fields|
  {
    hide Unescape, RawEnd, Whole, CellOf, Plain, RowLine, ReadCopyRow;
    var first, tail := fields[0], fields[1..];
    var s, cells := RowLine(fields), Expected(fields, isMask);
    var rest := if tail == [] then "\n" else ['\t'] + RowLine(tail);
    LineOfFirst(fields);
    var n := RawEnd(s);
    if isMask[0] { RawValueReadsBackIff(first, rest); } else { WholeEnds(first, rest); }
    assert cells == [cells[0]] + cells[1..];
    FirstCellRead(s);
    if n == |first| {
      assert s[n..] == rest;
      if tail == [] {
        LastCellRead(s);
        var read := [CellOf(s[..n])];
        assert read == cells <==> read[0] == cells[0];
      } else {
        MoreCellsRead(s, RowLine(tail));
        assert cells[1..] == Expected(tail, isMask[1..]);
        LineReadsBackIff(tail, isMask[1..]);
        assert forall i | 1 <= i < |fields| :: fields[i] == tail[i - 1] && isMask[i] == isMask[1..][i - 1];
      }
    }
  }

  lemma LastCellRead(s: string)
    requires s[RawEnd(s)..] == "\n"
    ensures ReadCopyRow(s) == Some([CellOf(s[..RawEnd(s)])])
  {
    hide RawEnd, CellOf;
    assert s[RawEnd(s)] == s[RawEnd(s)..][0];
  }

  lemma MoreCellsRead(s: string, more: string)
    requires s[RawEnd(s)..] == ['\t'] + more
    ensures ReadCopyRow(s)
         == if ReadCopyRow(more) == None then None else Some([CellOf(s[..RawEnd(s)])] + ReadCopyRow(more).value)
  {
    hide RawEnd, CellOf;
    var n := RawEnd(s);
    assert s[n] == s[n..][0] && s[n + 1..] == s[n..][1..] == more;
  }

  lemma FirstCellRead(s: string)
    ensures var r := ReadCopyRow(s); r.Some? ==> |r.value| > 0 && r.value[0] == CellOf(s[..RawEnd(s)])
  {
  }

  lemma LineOfFirst(fields: seq<string>)
    requires fields != []
    ensures RowLine(fields) == fields[0] + if |fields| == 1 then "\n" else ['\t'] + RowLine(fields[1..])
  {
  }

  /** Which positions of a row are masked. */
  function RuledPositions(rules: Rules, columns: seq<string>, n: nat): (ruled: seq<bool>)
    ensures |ruled| == n && forall i: nat | i < n :: ruled[i] <==> Ruled(rules, columns, n, i)
  {
    seq(n, i requires 0 <= i => Ruled(rules, columns, n, i))
  }

  /** A masked data row is read back with its masks in the ruled columns, and all other
      columns as they were, if and only if no mask holds a tab, a newline,
      a carriage return or a backslash: masks are written without the escapes of the format. */
  lemma MaskedRowReadsBackIff(p: Profile, table: string, columns: seq<string>, row: seq<string>, k: nat)
    requires row != []
    requires forall i: nat | i < |row| && !Ruled(p.RulesFor(table), columns, |row|, i) :: Whole(row[i])
    ensures var masked := MaskedRow(p, AS_IS, table, columns, row, k);
            var ruled := RuledPositions(p.RulesFor(table), columns, |row|);
            && (forall i | 0 <= i < |row| && !ruled[i] :: Expected(masked, ruled)[i] == CellOf(row[i]))
            && (ReadCopyRow(RowLine(masked)) == Some(Expected(masked, ruled)) <==>
                forall i | 0 <= i < |row| && ruled[i] :: Plain(masked[i]))
  {
    hide Whole, Plain, CellOf;
    var masked := MaskedRow(p, AS_IS, table, columns, row, k);
    var ruled := RuledPositions(p.RulesFor(table), columns, |row|);
    forall i: nat | i < |row| && !ruled[i] ensures masked[i] == row[i] && Whole(masked[i]) {
      assert masked[i] == MaskedValue(p, AS_IS, table, columns, row, k, i);
    }
    LineReadsBackIff(masked, ruled);
  }

  // ---------------------------------------------------------- the escapes as promised

  /** A value with the escapes that the format has for it. */
  function CopyEscape(v: string): string
  {
    if v == "" then ""
    else
      (match v[0]
       case '\\' => "\\\\"
       case '\t' => "\\t"
       case '\n' => "\\n"
       case '\r' => "\\r"
       case c => [c]) + CopyEscape(v[1..])
  }

  /** Fields of a dump are whole, and with these escapes every mask would be read
      back, whatever it holds. */
  lemma {:induction false} EscapedReadsBack(v: string)
    ensures Whole(CopyEscape(v)) && Unescape(CopyEscape(v)) == v && CellOf(CopyEscape(v)) == Value(v)
  {
    hide Whole, Unescape, CopyEscape;
    if v == "" {
      NothingEscaped();
    } else {
      EscapedReadsBack(v[1..]);
      FirstEscaped(v);
      assert v == [v[0]] + v[1..];
    }
  }

  lemma NothingEscaped()
    ensures Whole(CopyEscape("")) && Unescape(CopyEscape("")) == "" && CopyEscape("") != "\\N"
  {
  }

  lemma FirstEscaped(v: string)
    requires v != "" && Whole(CopyEscape(v[1..]))
    ensures Whole(CopyEscape(v)) && CopyEscape(v) != "\\N"
    ensures Unescape(CopyEscape(v)) == [v[0]] + Unescape(CopyEscape(v[1..]))
  {
    hide Whole, Unescape;
    var rest := CopyEscape(v[1..]);
    match v[0]
    case '\\' => LetterRead('\\', '\\', rest);
    case '\t' => LetterRead('t', '\t', rest);
    case '\n' => LetterRead('n', '\n', rest);
    case '\r' => LetterRead('r', '\r', rest);
    case c => OrdinaryRead(c, rest);
  }

  lemma LetterRead(letter: char, c: char, rest: string)
    requires Whole(rest) && (letter, c) in {('\\', '\\'), ('t', '\t'), ('n', '\n'), ('r', '\r')}
    ensures var text := ['\\', letter] + rest;
            Whole(text) && text != "\\N" && Unescape(text) == [c] + Unescape(rest)
  {
    var text := ['\\', letter] + rest;
    assert text[2..] == rest && text[0] == '\\' && text[1] == letter;
    assert EscapeSize(text) == 2 && Escaped(text) == c;
    hide EscapeSize, Escaped;
  }

  lemma OrdinaryRead(c: char, rest: string)
    requires Whole(rest) && c != '\\' && !Terminator(c)
    ensures var text := [c] + rest;
            Whole(text) && text != "\\N" && Unescape(text) == [c] + Unescape(rest)
  {
    assert ([c] + rest)[1..] == rest;
  }
}
