/** The Python string operations the services are written with, and the facts
    about them that the printers and readers below rest on. */
module Text {

  datatype Option<+T> = None | Some(value: T)

  /** `sep.join(parts)` for a one-character separator. */
  function Join(sep: char, parts: seq<string>): string
  {
    if |parts| == 0 then ""
    else if |parts| == 1 then parts[0]
    else parts[0] + [sep] + Join(sep, parts[1..])
  }

  /** `sep.join(items)`. */
  function JoinWith(sep: string, items: seq<string>): string
  {
    if items == [] then "" else if |items| == 1 then items[0]
    else items[0] + sep + JoinWith(sep, items[1..])
  }

  /** `s.split(sep)` for a one-character separator: never empty. */
  function Split(sep: char, s: string): (parts: seq<string>)
    ensures |parts| > 0
  {
    if s == "" then [""]
    else
      var rest := Split(sep, s[1..]);
      if s[0] == sep then [""] + rest else [[s[0]] + rest[0]] + rest[1..]
  }

  /** Position of the first occurrence of `c`, or the length if there is none. */
  function IndexOf(c: char, s: string): (n: nat)
    ensures n <= |s|
    ensures forall i | 0 <= i < n :: s[i] != c
    ensures n < |s| ==> s[n] == c
  {
    if s == "" || s[0] == c then 0
    else
      var n := IndexOf(c, s[1..]);
      n + 1
  }

  /** The rest of `s` after `prefix`, if `s` starts with it. */
  function After(prefix: string, s: string): Option<string>
  {
    if prefix <= s then Some(s[|prefix|..]) else None
  }

  /** `s.replace(c, by)` for a one-character pattern. */
  function Replace(c: char, replacement: string, s: string): string
  {
    if s == "" then "" else (if s[0] == c then replacement else [s[0]]) + Replace(c, replacement, s[1..])
  }

  /** `s.rstrip('\n')`. */
  function RstripNewlines(s: string): (r: string)
    ensures r <= s
    ensures r != "" ==> r[|r| - 1] != '\n'
    ensures forall i | |r| <= i < |s| :: s[i] == '\n'
  {
    if s != "" && s[|s| - 1] == '\n' then RstripNewlines(s[..|s| - 1]) else s
  }

  /** The characters `str.strip()`, `str.split()` and the pattern class for
      white space treat as blank. */
  predicate IsSpace(c: char)
  {
    || '\t' <= c <= '\r' || '\U{1C}' <= c <= ' '
    || c == '\U{85}' || c == '\U{A0}' || c == '\U{1680}'
    || '\U{2000}' <= c <= '\U{200A}' || c == '\U{2028}' || c == '\U{2029}'
    || c == '\U{202F}' || c == '\U{205F}' || c == '\U{3000}'
  }

  /** `s.strip()`. */
  function Strip(s: string): string
  {
    if s == "" then ""
    else if IsSpace(s[0]) then Strip(s[1..])
    else if IsSpace(s[|s| - 1]) then Strip(s[..|s| - 1])
    else s
  }

  /** `s.strip(c)` for a single character. */
  function StripChar(c: char, s: string): string
  {
    if s == "" then ""
    else if s[0] == c then StripChar(c, s[1..])
    else if s[|s| - 1] == c then StripChar(c, s[..|s| - 1])
    else s
  }

  /** Stripping leaves the text between the first and the last character that is not
      blank, from position `n` on. */
  lemma {:induction false} StripIsMiddle(s: string) returns (n: nat)
    ensures var r := Strip(s);
            && n + |r| <= |s| && r == s[n..n + |r|]
            && (forall i | 0 <= i < |s| && !(n <= i < n + |r|) :: IsSpace(s[i]))
            && (r != "" ==> !IsSpace(r[0]) && !IsSpace(r[|r| - 1]))
    decreases |s|
  {
    hide IsSpace;
    n := 0;
    if s != "" {
      if IsSpace(s[0]) {
        var m := StripIsMiddle(s[1..]);
        n := m + 1;
        assert forall i | 1 <= i < |s| :: s[i] == s[1..][i - 1];
      } else if IsSpace(s[|s| - 1]) {
        n := StripIsMiddle(s[..|s| - 1]);
      }
    }
  }

  /** The same for a single character. */
  lemma {:induction false} StripCharIsMiddle(c: char, s: string) returns (n: nat)
    ensures var r := StripChar(c, s);
            && n + |r| <= |s| && r == s[n..n + |r|]
            && (forall i | 0 <= i < |s| && !(n <= i < n + |r|) :: s[i] == c)
            && (r != "" ==> r[0] != c && r[|r| - 1] != c)
    decreases |s|
  {
    n := 0;
    if s != "" {
      if s[0] == c {
        var m := StripCharIsMiddle(c, s[1..]);
        n := m + 1;
        assert forall i | 1 <= i < |s| :: s[i] == s[1..][i - 1];
      } else if s[|s| - 1] == c {
        n := StripCharIsMiddle(c, s[..|s| - 1]);
      }
    }
  }

  /** `str(n)` for a natural number. */
  function Digits(n: nat): (s: string)
    ensures s != ""
    ensures forall i | 0 <= i < |s| :: '0' <= s[i] <= '9'
    decreases n
  {
    var d := ['0' + (n % 10) as char];
    if n < 10 then d else Digits(n / 10) + d
  }

  /** `str(n)` for an integer. */
  function Decimal(n: int): string
  {
    if n < 0 then "-" + Digits(-n) else Digits(n)
  }

  /** The number that a decimal numeral stands for. */
  function NumeralValue(s: string): int
  {
    if s == "" then 0 else NumeralValue(s[..|s| - 1]) * 10 + (s[|s| - 1] as int - '0' as int)
  }

  lemma {:induction false} DigitsRead(n: nat)
    ensures NumeralValue(Digits(n)) == n
    decreases n
  {
    var s := Digits(n);
    assert s[|s| - 1] == '0' + (n % 10) as char;
    if n >= 10 {
      assert s[..|s| - 1] == Digits(n / 10);
      DigitsRead(n / 10);
    } else {
      assert s[..0] == "";
    }
  }

  lemma DigitsInjective(a: nat, b: nat)
    requires Digits(a) == Digits(b)
    ensures a == b
  {
    DigitsRead(a);
    DigitsRead(b);
  }

  /** The integer that a text shows the way `str(n)` does. */
  function ReadInt(s: string): Option<int>
  {
    var n := if s != "" && s[0] == '-' then -NumeralValue(s[1..]) else NumeralValue(s);
    if Decimal(n) == s then Some(n) else None
  }

  lemma ReadIntExact(s: string, n: int)
    ensures ReadInt(s) == Some(n) <==> s == Decimal(n)
  {
    if s == Decimal(n) {
      if n < 0 {
        assert s[1..] == Digits(-n);
        DigitsRead(-n);
      } else {
        DigitsRead(n);
      }
    }
  }

  /** Joining what was split gives the string back. */
  lemma {:induction false} JoinOfSplit(sep: char, s: string)
    ensures Join(sep, Split(sep, s)) == s
  {
    if s != "" {
      var rest := Split(sep, s[1..]);
      JoinOfSplit(sep, s[1..]);
      var parts := Split(sep, s);
      if s[0] == sep {
        assert parts[1..] == rest;
      } else if |rest| > 1 {
        assert parts[1..] == rest[1..];
      }
    }
  }

  lemma {:induction false} SplitWithoutSeparator(sep: char, s: string)
    requires sep !in s
    ensures Split(sep, s) == [s]
  {
    if s != "" {
      SplitWithoutSeparator(sep, s[1..]);
      assert [s[0]] + s[1..] == s;
    }
  }

  /** The split of a concatenation at a separator is the concatenation of the splits. */
  lemma {:induction false} SplitOfConcat(sep: char, a: string, b: string)
    ensures Split(sep, a + [sep] + b) == Split(sep, a) + Split(sep, b)
  {
    if a == "" {
      assert (a + [sep] + b)[1..] == b;
    } else {
      assert (a + [sep] + b)[1..] == a[1..] + [sep] + b;
      SplitOfConcat(sep, a[1..], b);
    }
  }

  /** Splitting what was joined gives the parts back, if none holds the separator. */
  lemma {:induction false} SplitOfJoin(sep: char, parts: seq<string>)
    requires |parts| > 0
    requires forall i | 0 <= i < |parts| :: sep !in parts[i]
    ensures Split(sep, Join(sep, parts)) == parts
  {
    SplitWithoutSeparator(sep, parts[0]);
    if |parts| > 1 {
      SplitOfConcat(sep, parts[0], Join(sep, parts[1..]));
      SplitOfJoin(sep, parts[1..]);
    }
  }

  /** Every part of a split is free of the separator. */
  lemma {:induction false} PartsAreFree(sep: char, s: string)
    ensures forall i | 0 <= i < |Split(sep, s)| :: sep !in Split(sep, s)[i]
  {
    if s != "" {
      PartsAreFree(sep, s[1..]);
    }
  }

  /** A character is in the joined text exactly when it is the separator
      between two parts or in one of the parts. */
  lemma {:induction false} InJoin(sep: char, parts: seq<string>, c: char)
    ensures c in Join(sep, parts) <==>
            (c == sep && |parts| > 1) || exists i :: 0 <= i < |parts| && c in parts[i]
  {
    if |parts| > 1 {
      InJoin(sep, parts[1..], c);
      assert forall i | 0 <= i < |parts[1..]| :: parts[1..][i] == parts[i + 1];
      assert forall i | 1 <= i < |parts| :: parts[i] == parts[1..][i - 1];
    }
  }

  lemma {:induction false} JoinAppend(sep: char, parts: seq<string>, last: string)
    requires |parts| > 0
    ensures Join(sep, parts + [last]) == Join(sep, parts) + [sep] + last
  {
    if |parts| == 1 {
      assert (parts + [last])[1..] == [last];
    } else {
      assert (parts + [last])[1..] == parts[1..] + [last];
      JoinAppend(sep, parts[1..], last);
    }
  }

  lemma IndexOfUnique(c: char, s: string, n: nat)
    requires n < |s| && s[n] == c && c !in s[..n]
    ensures IndexOf(c, s) == n
  {
    assert forall i | 0 <= i < n :: s[i] in s[..n];
  }

  lemma AfterExact(prefix: string, s: string, rest: string)
    ensures After(prefix, s) == Some(rest) <==> s == prefix + rest
  {
    if After(prefix, s) == Some(rest) { assert s == s[..|prefix|] + s[|prefix|..]; }
    if s == prefix + rest { assert s[|prefix|..] == rest; }
  }

  lemma Associative<T>(a: seq<T>, b: seq<T>, c: seq<T>)
    ensures (a + b) + c == a + (b + c)
  {
  }

  lemma {:induction false} JoinLengthAfterUpdate(sep: char, parts: seq<string>, i: nat, text: string)
    requires i < |parts|
    ensures |Join(sep, parts[i := text])| + |parts[i]| == |Join(sep, parts)| + |text|
  {
    hide Join;
    var changed := parts[i := text];
    JoinLength(sep, parts);
    JoinLength(sep, changed);
    if i > 0 {
      JoinLengthAfterUpdate(sep, parts[1..], i - 1, text);
      assert changed[1..] == parts[1..][i - 1 := text];
    } else {
      assert changed[1..] == parts[1..];
    }
  }

  lemma JoinLength(sep: char, parts: seq<string>)
    requires parts != []
    ensures |Join(sep, parts)| == |parts[0]| + if |parts| == 1 then 0 else 1 + |Join(sep, parts[1..])|
  {
  }

  lemma {:induction false} JoinConcat(sep: char, a: seq<string>, b: seq<string>)
    requires a != [] && b != []
    ensures Join(sep, a + b) == Join(sep, a) + [sep] + Join(sep, b)
  {
    assert (a + b)[1..] == a[1..] + b;
    if |a| > 1 {
      JoinConcat(sep, a[1..], b);
      assert a[0] + [sep] + (Join(sep, a[1..]) + [sep] + Join(sep, b)) == a[0] + [sep] + Join(sep, a[1..]) + [sep] + Join(sep, b);
    } else {
      assert a + b == [a[0]] + b;
    }
  }

  /** A part that is itself in two pieces, with `mid` between them. */
  lemma {:induction false} JoinWithin(sep: char, before: seq<string>, x: string, mid: string, y: string, after: seq<string>)
    ensures Join(sep, before + [x + mid + y] + after) == Join(sep, before + [x]) + mid + Join(sep, [y] + after)
  {
    if before == [] {
      assert [] + [x + mid + y] + after == [x + mid + y] + after && [] + [x] == [x];
      if after != [] {
        JoinConcat(sep, [x + mid + y], after);
        JoinConcat(sep, [y], after);
        assert (x + mid + y) + [sep] + Join(sep, after) == x + mid + (y + [sep] + Join(sep, after));
      } else {
        assert [x + mid + y] + after == [x + mid + y] && [y] + after == [y];
      }
    } else {
      var first, rest := before[0], before[1..];
      JoinWithin(sep, rest, x, mid, y, after);
      assert (before + [x + mid + y] + after)[1..] == rest + [x + mid + y] + after;
      assert (before + [x])[1..] == rest + [x];
      assert first + [sep] + (Join(sep, rest + [x]) + mid + Join(sep, [y] + after))
          == first + [sep] + Join(sep, rest + [x]) + mid + Join(sep, [y] + after);
    }
  }

  /** A part that holds the separator is two parts. */
  lemma MergedParts(sep: char, before: seq<string>, x: string, y: string, after: seq<string>)
    ensures Join(sep, before + [x + [sep] + y] + after) == Join(sep, before + [x, y] + after)
  {
    JoinWithin(sep, before, x, [sep], y, after);
    JoinConcat(sep, before + [x], [y] + after);
    assert (before + [x]) + ([y] + after) == before + [x, y] + after;
  }

  /** A joined list splits into at least its parts, and into more if one of them holds
      the separator. */
  lemma {:induction false} SplitCountsParts(sep: char, parts: seq<string>)
    requires parts != []
    ensures |Split(sep, Join(sep, parts))| >= |parts|
    ensures |Split(sep, Join(sep, parts))| == |parts| ==> forall i | 0 <= i < |parts| :: sep !in parts[i]
  {
    SplitOfOne(sep, parts[0]);
    if |parts| > 1 {
      SplitCountsParts(sep, parts[1..]);
      SplitOfConcat(sep, parts[0], Join(sep, parts[1..]));
      assert forall i | 1 <= i < |parts| :: parts[i] == parts[1..][i - 1];
    }
  }

  lemma {:induction false} SplitOfOne(sep: char, s: string)
    ensures |Split(sep, s)| == 1 <==> sep !in s
  {
    if s != "" {
      SplitOfOne(sep, s[1..]);
      assert s == [s[0]] + s[1..];
    }
  }
}
