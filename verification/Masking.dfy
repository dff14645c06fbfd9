/** Masking of one row: which positions a profile rules, what is drawn for
    them, and the loop every relay runs over the values of a row. */
module Masking {
  import opened Text

  const PROVIDERS: set<string> := {
    "first_name", "last_name", "name", "email", "phone_number", "street_address",
    "city", "postcode", "country", "company", "job_title"
  }

  type Rules = map<string, string>

  /** What a relay run is configured with: rules and column lengths by table
      and column, whether the whole database is copied, and the generator.
      `fake(provider, k)` is what the generator answers on draw number `k`. */
  datatype Profile = Profile(
    rules: map<string, Rules>,
    lengths: map<string, map<string, int>>,
    wholeDb: bool,
    fake: (string, nat) -> string)
  {
    function RulesFor(table: string): Rules {
      if table in rules then rules[table] else map[]
    }

    function LengthOf(table: string, column: string): Option<int> {
      if table in lengths && column in lengths[table] then Some(lengths[table][column]) else None
    }
  }

  /** `s[:n]`: a negative bound counts from the end. */
  function PyPrefix(s: string, n: int): string
  {
    if n > |s| then s else if n >= 0 then s[..n] else if |s| + n >= 0 then s[..|s| + n] else ""
  }

  /** The text drawn for a known provider, cut to the column. */
  function MaskText(p: Profile, provider: string, maxLength: Option<int>, k: nat): string
  {
    var text := p.fake(provider, k);
    if maxLength.Some? && |text| > maxLength.value then PyPrefix(text, maxLength.value) else text
  }

  /** `mask_value`: None is the ValueError for an unknown provider. */
  function MaskValue(p: Profile, provider: string, maxLength: Option<int>, k: nat): Option<string>
  {
    if provider in PROVIDERS then Some(MaskText(p, provider, maxLength, k)) else None
  }

  /** `mask` is what a bound leaves of a text: a beginning of it, of all its characters
      or as many as the bound, or all but as many as a negative bound. */
  predicate IsCut(text: string, bound: Option<int>, mask: string)
  {
    && mask <= text
    && (bound.None? || bound.value >= |text| ==> mask == text)
    && (bound.Some? && 0 <= bound.value <= |text| ==> |mask| == bound.value)
    && (bound.Some? && bound.value < 0 && |text| >= -bound.value ==> |mask| == |text| + bound.value)
    && (bound.Some? && bound.value < 0 && |text| < -bound.value ==> mask == "")
  }

  /** A mask is what the column's length leaves of the drawn text, and no other
      text is. */
  lemma MaskIsCutText(p: Profile, provider: string, maxLength: Option<int>, k: nat)
    ensures forall mask :: IsCut(p.fake(provider, k), maxLength, mask) <==> mask == MaskText(p, provider, maxLength, k)
  {
    var text, cut := p.fake(provider, k), MaskText(p, provider, maxLength, k);
    forall mask | IsCut(text, maxLength, mask) ensures mask == cut { assert mask == text[..|mask|]; }
  }

  /** Of a text that a column's length cannot hold, the beginning is left that it can
      hold; a text that fits is left whole. */
  lemma MaskFitsColumn(p: Profile, provider: string, n: nat, k: nat)
    ensures var text, mask := p.fake(provider, k), MaskText(p, provider, Some(n), k);
            mask <= text && |mask| == if |text| <= n then |text| else n
  {
  }

  /** A mask is uncut exactly when the column has no length, or a length that the
      drawn text does not exceed; under a negative length, only the empty one. */
  lemma MaskIsUncutIff(p: Profile, provider: string, maxLength: Option<int>, k: nat)
    ensures var text := p.fake(provider, k);
            MaskText(p, provider, maxLength, k) == text <==>
            (maxLength.None? || |text| <= maxLength.value || (maxLength.value < 0 && text == ""))
  {
  }

  /** The length -1 that SQL Server reports for a `max` column is not read as
      "unlimited": every non-empty mask loses exactly its last character. */
  lemma MaxColumnLosesOneCharacter(p: Profile, provider: string, k: nat)
    requires p.fake(provider, k) != ""
    ensures var text := p.fake(provider, k);
            MaskText(p, provider, Some(-1), k) + [text[|text| - 1]] == text
  {
  }

  /** Position `i` of a row with `n` values is masked. */
  predicate Ruled(rules: Rules, columns: seq<string>, n: nat, i: nat)
  {
    i < |columns| && i < n && columns[i] in rules
  }

  /** How many masks are drawn before position `i`. */
  function DrawsBefore(rules: Rules, columns: seq<string>, n: nat, i: nat): nat
  {
    if i == 0 then 0
    else DrawsBefore(rules, columns, n, i - 1) + if Ruled(rules, columns, n, i - 1) then 1 else 0
  }

  /** Every masked position has a provider the generator knows. */
  predicate ProvidersKnown(rules: Rules, columns: seq<string>, n: nat)
  {
    forall i: nat | i < n :: Ruled(rules, columns, n, i) ==> rules[columns[i]] in PROVIDERS
  }

  /** The mask that position `i` of a row receives when `k` draws came before the row. */
  function MaskAt(p: Profile, table: string, columns: seq<string>, n: nat, k: nat, i: nat): string
    requires Ruled(p.RulesFor(table), columns, n, i)
  {
    var rules := p.RulesFor(table);
    MaskText(p, rules[columns[i]], p.LengthOf(table, columns[i]), k + DrawsBefore(rules, columns, n, i))
  }

  function MaskedValue(p: Profile, render: string -> string, table: string, columns: seq<string>,
                       values: seq<string>, k: nat, i: nat): string
    requires i < |values|
  {
    if Ruled(p.RulesFor(table), columns, |values|, i)
    then render(MaskAt(p, table, columns, |values|, k, i))
    else values[i]
  }

  /** A row after masking: ruled positions hold their rendered mask, all others
      are untouched. */
  function MaskedRow(p: Profile, render: string -> string, table: string, columns: seq<string>,
                     values: seq<string>, k: nat): (row: seq<string>)
    ensures |row| == |values|
  {
    seq(|values|, i requires 0 <= i < |values| =>
      MaskedValue(p, render, table, columns, values, k, i))
  }

  /** Draws used up by a row with `n` values. */
  function DrawsOfRow(rules: Rules, columns: seq<string>, n: nat): nat
  {
    DrawsBefore(rules, columns, n, |columns|)
  }

  /** The mask is written as it is drawn. */
  const AS_IS: string -> string := (s: string) => s

  /** The masking loop of the relays. `ok` is false when an unknown provider
      raised, which ends the relay. */
  method MaskRow(p: Profile, render: string -> string, table: string, columns: seq<string>,
                 row: seq<string>, k: nat)
    returns (values: seq<string>, draws: nat, ok: bool)
    ensures ok <==> ProvidersKnown(p.RulesFor(table), columns, |row|)
    ensures ok ==> values == MaskedRow(p, render, table, columns, row, k)
    ensures ok ==> IsMaskedRow(p, render, table, columns, row, k, values)
    ensures ok ==> draws == k + DrawsOfRow(p.RulesFor(table), columns, |row|)
  {
    hide IsMaskedRow;
    var rules := p.RulesFor(table);
    values, draws, ok := row, k, true;
    ghost var masked := MaskedRow(p, render, table, columns, row, k);
    for i := 0 to |columns|
      invariant |values| == |row|
      invariant draws == k + DrawsBefore(rules, columns, |row|, i)
      invariant forall j | 0 <= j < |row| :: values[j] == if j < i then masked[j] else row[j]
      invariant forall j: nat | j < i && Ruled(rules, columns, |row|, j) :: rules[columns[j]] in PROVIDERS
    {
      assert i < |row| ==> masked[i] == MaskedValue(p, render, table, columns, row, k, i);
      if columns[i] in rules && i < |values| {
        assert Ruled(rules, columns, |row|, i);
        var mask := MaskValue(p, rules[columns[i]], p.LengthOf(table, columns[i]), draws);
        if mask.None? {
          return values, draws, false;
        }
        values, draws := values[i := render(mask.value)], draws + 1;
      }
    }
    MaskedRowIff(p, render, table, columns, row, k, values);
  }

  // ------------------------------------------ what a masked row is, by the profile

  /** The positions before `i` that the profile names. */
  function NamedBefore(p: Profile, table: string, columns: seq<string>, n: nat, i: nat): set<nat>
  {
    set j: nat | j < i && j < n && j < |columns| && table in p.rules && columns[j] in p.rules[table]
  }

  /** `row` is `values` with a mask in each column that the profile names for the
      table: what the column's length leaves of the answer of the provider to the
      next draw. */
  ghost predicate IsMaskedRow(p: Profile, render: string -> string, table: string, columns: seq<string>,
                              values: seq<string>, k: nat, row: seq<string>)
  {
    && |row| == |values|
    && forall i: nat | i < |values| ::
         if i < |columns| && table in p.rules && columns[i] in p.rules[table]
         then exists mask :: row[i] == render(mask) && IsMaskOf(p, table, columns, |values|, k, i, mask)
         else row[i] == values[i]
  }

  predicate IsMaskOf(p: Profile, table: string, columns: seq<string>, n: nat, k: nat, i: nat, mask: string)
    requires i < |columns| && table in p.rules && columns[i] in p.rules[table]
  {
    var text := p.fake(p.rules[table][columns[i]], k + |NamedBefore(p, table, columns, n, i)|);
    var bound := if table in p.lengths && columns[i] in p.lengths[table] then Some(p.lengths[table][columns[i]]) else None;
    IsCut(text, bound, mask)
  }

  lemma {:induction false} DrawsAreNamed(p: Profile, table: string, columns: seq<string>, n: nat, i: nat)
    ensures DrawsBefore(p.RulesFor(table), columns, n, i) == |NamedBefore(p, table, columns, n, i)|
  {
    if i == 0 {
      assert NamedBefore(p, table, columns, n, 0) == {};
    } else {
      var before := NamedBefore(p, table, columns, n, i - 1);
      DrawsAreNamed(p, table, columns, n, i - 1);
      assert NamedBefore(p, table, columns, n, i)
          == before + if Ruled(p.RulesFor(table), columns, n, i - 1) then {i - 1} else {};
    }
  }

  lemma MaskAtIsMaskOf(p: Profile, table: string, columns: seq<string>, n: nat, k: nat, i: nat)
    requires Ruled(p.RulesFor(table), columns, n, i)
    ensures forall mask :: IsMaskOf(p, table, columns, n, k, i, mask) <==> mask == MaskAt(p, table, columns, n, k, i)
  {
    DrawsAreNamed(p, table, columns, n, i);
    MaskIsCutText(p, p.RulesFor(table)[columns[i]], p.LengthOf(table, columns[i]),
                  k + DrawsBefore(p.RulesFor(table), columns, n, i));
    hide IsCut, MaskText, DrawsBefore, NamedBefore;
  }

  lemma MaskedRowAt(p: Profile, render: string -> string, table: string, columns: seq<string>,
                    values: seq<string>, k: nat, i: nat)
    requires i < |values|
    ensures var masked, n := MaskedRow(p, render, table, columns, values, k), |values|;
            if i < |columns| && table in p.rules && columns[i] in p.rules[table] then
              exists mask :: && masked[i] == render(mask) && IsMaskOf(p, table, columns, n, k, i, mask)
                             && forall other :: IsMaskOf(p, table, columns, n, k, i, other) ==> other == mask
            else masked[i] == values[i]
  {
    hide IsMaskOf, MaskAt;
    var masked, n := MaskedRow(p, render, table, columns, values, k), |values|;
    assert masked[i] == MaskedValue(p, render, table, columns, values, k, i);
    if Ruled(p.RulesFor(table), columns, n, i) {
      MaskAtIsMaskOf(p, table, columns, n, k, i);
      assert IsMaskOf(p, table, columns, n, k, i, MaskAt(p, table, columns, n, k, i));
    }
  }

  /** The row that the loop leaves is the only one of that kind. */
  lemma MaskedRowIff(p: Profile, render: string -> string, table: string, columns: seq<string>,
                     values: seq<string>, k: nat, row: seq<string>)
    ensures row == MaskedRow(p, render, table, columns, values, k) <==>
            IsMaskedRow(p, render, table, columns, values, k, row)
  {
    hide IsMaskOf, MaskedRow;
    forall i: nat | i < |values| { MaskedRowAt(p, render, table, columns, values, k, i); }
  }

  /** Ruled values leave no trace: rows that agree elsewhere mask alike. */
  lemma RowNoninterference(p: Profile, render: string -> string, table: string, columns: seq<string>,
                           a: seq<string>, b: seq<string>, k: nat)
    requires |a| == |b|
    requires forall i | 0 <= i < |a| :: Ruled(p.RulesFor(table), columns, |a|, i) || a[i] == b[i]
    ensures MaskedRow(p, render, table, columns, a, k) == MaskedRow(p, render, table, columns, b, k)
  {
  }

  lemma {:induction false} NoRulesNoDraws(columns: seq<string>, n: nat, i: nat)
    ensures DrawsBefore(map[], columns, n, i) == 0
  {
    if i > 0 { NoRulesNoDraws(columns, n, i - 1); }
  }

  // ------------------------------------------------------------- several rows

  function RowDraws(p: Profile, table: string, columns: seq<string>, rows: seq<seq<string>>): nat
  {
    if rows == [] then 0
    else
      RowDraws(p, table, columns, rows[..|rows| - 1]) +
      DrawsOfRow(p.RulesFor(table), columns, |rows[|rows| - 1]|)
  }

  function MaskRows(p: Profile, table: string, columns: seq<string>, rows: seq<seq<string>>, k: nat): seq<seq<string>>
  {
    if rows == [] then []
    else
      var init := rows[..|rows| - 1];
      MaskRows(p, table, columns, init, k)
        + [MaskedRow(p, AS_IS, table, columns, rows[|rows| - 1], k + RowDraws(p, table, columns, init))]
  }

  lemma {:induction false} MaskRowsLength(p: Profile, table: string, columns: seq<string>, rows: seq<seq<string>>, k: nat)
    ensures |MaskRows(p, table, columns, rows, k)| == |rows|
  {
    if rows != [] { MaskRowsLength(p, table, columns, rows[..|rows| - 1], k); }
  }

  lemma NoRows(p: Profile, table: string, columns: seq<string>, rows: seq<seq<string>>, k: nat)
    requires rows == []
    ensures MaskRows(p, table, columns, rows, k) == [] && RowDraws(p, table, columns, rows) == 0
  {
  }

  lemma MaskRowsLast(p: Profile, table: string, columns: seq<string>, rows: seq<seq<string>>, k: nat)
    requires rows != []
    ensures var front, last := rows[..|rows| - 1], rows[|rows| - 1];
            && MaskRows(p, table, columns, rows, k)
               == MaskRows(p, table, columns, front, k)
                + [MaskedRow(p, AS_IS, table, columns, last, k + RowDraws(p, table, columns, front))]
            && RowDraws(p, table, columns, rows)
               == RowDraws(p, table, columns, front) + DrawsOfRow(p.RulesFor(table), columns, |last|)
  {
    hide MaskedRow, DrawsOfRow;
  }

  lemma {:induction false} MaskRowsAt(p: Profile, table: string, columns: seq<string>,
                                      rows: seq<seq<string>>, k: nat, i: nat)
    requires i < |rows|
    ensures var masked := MaskRows(p, table, columns, rows, k);
            && |masked| == |rows|
            && masked[..i] == MaskRows(p, table, columns, rows[..i], k)
            && masked[i] == MaskedRow(p, AS_IS, table, columns, rows[i], k + RowDraws(p, table, columns, rows[..i]))
  {
    hide MaskedRow, RowDraws;
    MaskRowsLength(p, table, columns, rows, k);
    var init := rows[..|rows| - 1];
    MaskRowsLength(p, table, columns, init, k);
    var masked := MaskRows(p, table, columns, rows, k);
    assert masked[..|init|] == MaskRows(p, table, columns, init, k);
    if i < |rows| - 1 {
      MaskRowsAt(p, table, columns, init, k, i);
      assert init[..i] == rows[..i];
      assert masked[..i] == masked[..|init|][..i];
    }
  }

  /** Every one of several rows is a masked row, its draws counted from those before. */
  lemma MaskRowsAreMasked(p: Profile, table: string, columns: seq<string>, rows: seq<seq<string>>, k: nat, i: nat)
    requires i < |rows|
    ensures var masked := MaskRows(p, table, columns, rows, k);
            && |masked| == |rows|
            && IsMaskedRow(p, AS_IS, table, columns, rows[i], k + RowDraws(p, table, columns, rows[..i]), masked[i])
  {
    hide MaskRows, MaskedRow, RowDraws, IsMaskedRow;
    MaskRowsAt(p, table, columns, rows, k, i);
    MaskedRowIff(p, AS_IS, table, columns, rows[i], k + RowDraws(p, table, columns, rows[..i]),
                 MaskRows(p, table, columns, rows, k)[i]);
  }

  /** Draws before a row: one for each field of the rows before it that is masked. */
  lemma {:induction false} RowDrawsAreNamed(p: Profile, table: string, columns: seq<string>, rows: seq<seq<string>>, i: nat)
    requires i < |rows|
    ensures RowDraws(p, table, columns, rows[..i + 1])
         == RowDraws(p, table, columns, rows[..i]) + |NamedBefore(p, table, columns, |rows[i]|, |columns|)|
  {
    assert rows[..i + 1][..i] == rows[..i];
    DrawsAreNamed(p, table, columns, |rows[i]|, |columns|);
  }

  lemma {:induction false} UnruledRowsStay(p: Profile, table: string, columns: seq<string>, rows: seq<seq<string>>, k: nat)
    requires forall i: nat | i < |columns| :: columns[i] !in p.RulesFor(table)
    ensures MaskRows(p, table, columns, rows, k) == rows
  {
    if rows != [] {
      var front, last := rows[..|rows| - 1], rows[|rows| - 1];
      assert rows == front + [last];
      UnruledRowsStay(p, table, columns, front, k);
      var n := k + RowDraws(p, table, columns, front);
      var masked := MaskedRow(p, AS_IS, table, columns, last, n);
      forall i | 0 <= i < |last| ensures masked[i] == last[i] {
        assert masked[i] == MaskedValue(p, AS_IS, table, columns, last, n, i);
      }
      assert masked == last;
    }
  }
}
