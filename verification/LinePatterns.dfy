/** The shape shared by the two line patterns of the dump relays:
    keyword, table name, keyword, column list, keyword, rest of the line. */
module LinePatterns {
  import opened Text

  /** A name runs up to the first character that `stop` accepts, a column list
      up to the first `)`; the keywords after them begin with such a character. */
  datatype Pattern = Pattern(head: string, stop: char -> bool, mid: string, close: string)
  {
    predicate Valid() {
      mid != "" && stop(mid[0]) && close != "" && close[0] == ')'
    }
  }

  datatype Parts = Parts(name: string, columns: string, rest: string)

  /** The line with these parts. */
  function Print(p: Pattern, parts: Parts): string
  {
    p.head + (parts.name + (p.mid + (parts.columns + (p.close + parts.rest))))
  }

  predicate WellFormed(p: Pattern, parts: Parts)
  {
    && parts.name != "" && (forall i | 0 <= i < |parts.name| :: !p.stop(parts.name[i]))
    && (forall i | 0 <= i < |parts.columns| :: !CLOSING(parts.columns[i]))
  }

  function FirstStop(stop: char -> bool, s: string): (n: nat)
    ensures n <= |s|
    ensures forall i | 0 <= i < n :: !stop(s[i])
    ensures n < |s| ==> stop(s[n])
  {
    if s == "" || stop(s[0]) then 0 else FirstStop(stop, s[1..]) + 1
  }

  /** The text up to the first stop, and what follows `key` there. */
  function UpTo(stop: char -> bool, key: string, s: string): Option<(string, string)>
  {
    var n := FirstStop(stop, s);
    var rest := After(key, s[n..]);
    if rest.None? then None else Some((s[..n], rest.value))
  }

  const CLOSING: char -> bool := (c: char) => c == ')'

  /** The anchored match of the pattern up to and including its last keyword. */
  function Parse(p: Pattern, line: string): Option<Parts>
  {
    var a := After(p.head, line);
    if a.None? then None else
    var name := UpTo(p.stop, p.mid, a.value);
    if name.None? || name.value.0 == "" then None else
    var columns := UpTo(CLOSING, p.close, name.value.1);
    if columns.None? then None else Some(Parts(name.value.0, columns.value.0, columns.value.1))
  }

  lemma UpToExact(stop: char -> bool, key: string, s: string, text: string, rest: string)
    requires key != "" && stop(key[0])
    ensures UpTo(stop, key, s) == Some((text, rest)) <==>
            s == text + (key + rest) && forall i | 0 <= i < |text| :: !stop(text[i])
  {
    var n := FirstStop(stop, s);
    AfterExact(key, s[n..], rest);
    if UpTo(stop, key, s) == Some((text, rest)) { assert s == s[..n] + s[n..]; }
    if s == text + (key + rest) && forall i | 0 <= i < |text| :: !stop(text[i]) {
      assert s[|text|] == key[0];
      assert n == |text|;
      assert s[..n] == text && s[n..] == key + rest;
    }
  }

  /** The matcher accepts exactly the printed lines, each with its own parts. */
  lemma ParseExact(p: Pattern, line: string, parts: Parts)
    requires p.Valid()
    ensures Parse(p, line) == Some(parts) <==> WellFormed(p, parts) && line == Print(p, parts)
  {
    var b := parts.columns + (p.close + parts.rest);
    var a := parts.name + (p.mid + b);
    AfterExact(p.head, line, a);
    UpToExact(p.stop, p.mid, a, parts.name, b);
    UpToExact(CLOSING, p.close, b, parts.columns, parts.rest);
    if Parse(p, line) == Some(parts) { ParseSound(p, line); }
  }

  lemma ParseSound(p: Pattern, line: string)
    requires p.Valid() && Parse(p, line).Some?
    ensures WellFormed(p, Parse(p, line).value) && line == Print(p, Parse(p, line).value)
  {
    var parts := Parse(p, line).value;
    var a := After(p.head, line).value;
    var b := UpTo(p.stop, p.mid, a).value.1;
    AfterExact(p.head, line, a);
    UpToExact(p.stop, p.mid, a, parts.name, b);
    UpToExact(CLOSING, p.close, b, parts.columns, parts.rest);
  }

  /** The line ends that the end of a pattern, `\n?$`, accepts. */
  const TAILS: seq<string> := ["", "\n", "\n\n"]

  lemma {:induction false} RstripOfTail(core: string, tail: string)
    requires core != "" && core[|core| - 1] != '\n'
    requires tail in TAILS
    ensures RstripNewlines(core + tail) == core
  {
    assert core + "" == core;
    assert (core + "\n")[..|core|] == core;
    assert (core + "\n\n")[..|core| + 1] == core + "\n";
    assert RstripNewlines(core) == core;
    assert RstripNewlines(core + "\n") == core;
    assert RstripNewlines(core + "\n\n") == RstripNewlines(core + "\n");
  }
}
