/** Names as the dump tools quote them, and what splitting and stripping makes of
    a list of them. */
module Identifiers {
  import opened Text

  /** The name between quotes, each quote in it doubled. */
  function Quoted(q: char, name: string): string
  {
    [q] + (Replace(q, [q, q], name) + [q])
  }

  /** What every server promises of a name; one with a line end would be printed
      over two lines. */
  predicate Identifier(name: string)
  {
    name != "" && '\n' !in name
  }

  // ------------------------------------------------------------ doubling quotes

  lemma {:induction false} DoublingLengthens(q: char, s: string)
    ensures |Replace(q, [q, q], s)| >= |s|
    ensures |Replace(q, [q, q], s)| == |s| <==> q !in s
    ensures q !in s ==> Replace(q, [q, q], s) == s
  {
    if s != "" {
      DoublingLengthens(q, s[1..]);
      assert s == [s[0]] + s[1..];
    }
  }

  lemma {:induction false} DoublingKeepsEnds(q: char, s: string)
    requires s != ""
    ensures var r := Replace(q, [q, q], s);
            r != "" && r[0] == s[0] && r[|r| - 1] == s[|s| - 1]
  {
    assert Replace(q, [q, q], "") == "";
    if |s| > 1 { DoublingKeepsEnds(q, s[1..]); } else { assert s[1..] == ""; }
  }

  lemma {:induction false} DoublingKeepsOthers(q: char, s: string, c: char)
    ensures c in Replace(q, [q, q], s) <==> c in s
  {
    if s != "" {
      DoublingKeepsOthers(q, s[1..], c);
      assert s == [s[0]] + s[1..];
    }
  }

  lemma InQuoted(q: char, name: string, c: char)
    requires c != q
    ensures c in Quoted(q, name) <==> c in name
  {
    DoublingKeepsOthers(q, name, c);
  }

  // ------------------------------------------------------------------ stripping

  lemma {:induction false} StrippedEnds(c: char, s: string)
    ensures var r := StripChar(c, s);
            |r| <= |s| && (r == "" || (r[0] != c && r[|r| - 1] != c))
    decreases |s|
  {
    if s != "" {
      if s[0] == c {
        StrippedEnds(c, s[1..]);
      } else if s[|s| - 1] == c {
        StrippedEnds(c, s[..|s| - 1]);
      }
    }
  }

  /** Two characters that stay, and all between them. */
  lemma {:induction false} StripKeepsSpan(c: char, s: string, i: nat, j: nat)
    requires i <= j < |s| && s[i] != c && s[j] != c
    ensures |StripChar(c, s)| >= j - i + 1
    decreases |s|
  {
    if s[0] == c {
      StripKeepsSpan(c, s[1..], i - 1, j - 1);
    } else if s[|s| - 1] == c {
      StripKeepsSpan(c, s[..|s| - 1], i, j);
    }
  }

  lemma StripOfQuotedPlain(q: char, t: string)
    requires t == "" || (t[0] != q && t[|t| - 1] != q)
    ensures StripChar(q, [q] + (t + [q])) == t
  {
    var s := [q] + (t + [q]);
    assert s[1..] == t + [q];
    if t == "" {
      assert [q][1..] == "";
      assert s[1..] == [q] && StripChar(q, [q]) == "";
    } else {
      assert (t + [q])[..|t|] == t;
      assert StripChar(q, t) == t;
      assert StripChar(q, t + [q]) == t;
    }
  }

  /** Stripping the quotes gives the name back if and only if it holds none. */
  lemma StripOfQuotedIff(q: char, name: string)
    ensures StripChar(q, Quoted(q, name)) == name <==> q !in name
  {
    var t := Replace(q, [q, q], name);
    DoublingLengthens(q, name);
    if q !in name {
      StripOfQuotedPlain(q, name);
    } else if StripChar(q, Quoted(q, name)) == name {
      StrippedEnds(q, Quoted(q, name));
      DoublingKeepsEnds(q, name);
      StripOfQuotedPlain(q, t);
    }
  }

  lemma {:induction false} StripOfTight(s: string)
    requires s != "" && !IsSpace(s[0]) && !IsSpace(s[|s| - 1])
    ensures Strip(s) == s && Strip(" " + s) == s
  {
    assert (" " + s)[1..] == s;
  }

  lemma {:induction false} StripTakesFrom(s: string, c: char)
    requires c in Strip(s)
    ensures c in s
    decreases |s|
  {
    if s != "" {
      if IsSpace(s[0]) {
        StripTakesFrom(s[1..], c);
      } else if IsSpace(s[|s| - 1]) {
        StripTakesFrom(s[..|s| - 1], c);
      }
    }
  }

  lemma {:induction false} StripCharTakesFrom(q: char, s: string, c: char)
    requires c in StripChar(q, s)
    ensures c in s
    decreases |s|
  {
    if s != "" {
      if s[0] == q {
        StripCharTakesFrom(q, s[1..], c);
      } else if s[|s| - 1] == q {
        StripCharTakesFrom(q, s[..|s| - 1], c);
      }
    }
  }

  // -------------------------------------------------------------------- lists

  /** The pieces that a list written with `, ` has between its commas. */
  function Spaced(items: seq<string>): (pieces: seq<string>)
    ensures |pieces| == |items|
    ensures forall i | 0 <= i < |items| :: pieces[i] == if i == 0 then items[0] else " " + items[i]
  {
    seq(|items|, i requires 0 <= i < |items| => if i == 0 then items[0] else " " + items[i])
  }

  lemma {:induction false} ListIsJoin(items: seq<string>)
    ensures JoinWith(", ", items) == Join(',', Spaced(items))
  {
    if |items| > 1 {
      ListIsJoin(items[1..]);
      var tail, pieces := items[1..], Spaced(items);
      assert pieces[1..] == [" " + tail[0]] + Spaced(tail)[1..];
      JoinWithLongerFirst(Spaced(tail), " ");
      assert Spaced(tail)[0 := " " + tail[0]] == pieces[1..];
      assert items[0] + ", " + Join(',', Spaced(tail)) == items[0] + [','] + (" " + Join(',', Spaced(tail)));
    }
  }

  lemma JoinWithLongerFirst(parts: seq<string>, head: string)
    requires parts != []
    ensures Join(',', parts[0 := head + parts[0]]) == head + Join(',', parts)
  {
    if |parts| > 1 {
      assert parts[0 := head + parts[0]][1..] == parts[1..];
      assert (head + parts[0]) + [','] + Join(',', parts[1..]) == head + (parts[0] + [','] + Join(',', parts[1..]));
    }
  }

  /** A part of a split takes its characters from the text. */
  lemma PartsTakeFrom(sep: char, s: string, i: nat, c: char)
    requires i < |Split(sep, s)| && c in Split(sep, s)[i]
    ensures c in s && c != sep
  {
    JoinOfSplit(sep, s);
    InJoin(sep, Split(sep, s), c);
    PartsAreFree(sep, s);
  }
}
