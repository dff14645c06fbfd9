/** The dashboard's aggregates over transfer jobs. */
module DashboardStats {
  import opened Text
  import TransferJobs

  datatype Job = Job(day: int, status: TransferJobs.Status, connection: Option<string>, flow: Option<string>)

  // ---------------------------------------------------------------- counting

  function CountIf<T>(s: seq<T>, p: T -> bool): (n: nat)
    ensures n <= |s|
  {
    if s == [] then 0
    else CountIf(s[..|s| - 1], p) + (if p(s[|s| - 1]) then 1 else 0)
  }

  lemma {:induction false} CountSplits<T>(s: seq<T>, p: T -> bool, q: T -> bool, both: T -> bool)
    requires forall x | x in s :: both(x) == (p(x) || q(x)) && !(p(x) && q(x))
    ensures CountIf(s, both) == CountIf(s, p) + CountIf(s, q)
  {
    if s != [] {
      assert s[|s| - 1] in s;
      CountSplits(s[..|s| - 1], p, q, both);
    }
  }

  lemma {:induction false} CountAlike<T>(s: seq<T>, p: T -> bool, q: T -> bool)
    requires forall x | x in s :: p(x) == q(x)
    ensures CountIf(s, p) == CountIf(s, q)
  {
    if s != [] {
      assert s[|s| - 1] in s;
      CountAlike(s[..|s| - 1], p, q);
    }
  }

  lemma {:induction false} CountNone<T>(s: seq<T>, p: T -> bool)
    requires forall x | x in s :: !p(x)
    ensures CountIf(s, p) == 0
  {
    if s != [] {
      assert s[|s| - 1] in s;
      CountNone(s[..|s| - 1], p);
    }
  }

  /** The places of a sequence that satisfy the predicate. */
  function Places<T>(s: seq<T>, p: T -> bool): set<int>
  {
    set i | 0 <= i < |s| && p(s[i])
  }

  lemma PlacesSnoc<T>(s: seq<T>, x: T, p: T -> bool)
    ensures Places(s + [x], p) == Places(s, p) + if p(x) then {|s|} else {}
  {
  }

  lemma {:induction false} CountIsCardinality<T>(s: seq<T>, p: T -> bool)
    ensures CountIf(s, p) == |Places(s, p)|
  {
    if s == [] {
      assert Places(s, p) == {};
    } else {
      var n := |s| - 1;
      CountIsCardinality(s[..n], p);
      PlacesSnoc(s[..n], s[n], p);
      assert s == s[..n] + [s[n]];
      assert n !in Places(s[..n], p);
    }
  }

  function Sum(s: seq<nat>): nat
  {
    if s == [] then 0 else Sum(s[..|s| - 1]) + s[|s| - 1]
  }

  // ---------------------------------------------------------- transfers_per_day

  function OnDay(jobs: seq<Job>, day: int, status: TransferJobs.Status): nat
  {
    CountIf(jobs, (j: Job) => j.day == day && j.status == status)
  }

  datatype DayRow = DayRow(done: nat, failed: nat)

  /** The grouped query: one row for each day from `start` on that has jobs. */
  function ByDay(jobs: seq<Job>, start: int): map<int, DayRow>
  {
    map j | j in jobs && j.day >= start ::
      j.day := DayRow(OnDay(jobs, j.day, TransferJobs.Done), OnDay(jobs, j.day, TransferJobs.Failed))
  }

  lemma AbsentDayIsEmpty(jobs: seq<Job>, start: int, day: int, status: TransferJobs.Status)
    requires day >= start && day !in ByDay(jobs, start)
    ensures OnDay(jobs, day, status) == 0
  {
    CountNone(jobs, (j: Job) => j.day == day && j.status == status);
  }

  /** One entry for each of the last `days` days, oldest first; a day without jobs
      gets zeros. */
  method TransfersPerDay(jobs: seq<Job>, today: int, days: int, format: int -> string)
    returns (labels: seq<string>, done: seq<nat>, failed: seq<nat>)
    ensures |labels| == |done| == |failed| == if days > 0 then days else 0
    ensures forall i | 0 <= i < days ::
      && labels[i] == format(today - days + 1 + i)
      && done[i] == OnDay(jobs, today - days + 1 + i, TransferJobs.Done)
      && failed[i] == OnDay(jobs, today - days + 1 + i, TransferJobs.Failed)
  {
    var start := today - (days - 1);
    var byDay := ByDay(jobs, start);
    labels, done, failed := [], [], [];
    var i := 0;
    while i < days
      invariant 0 <= i && (days > 0 ==> i <= days) && (days <= 0 ==> i == 0)
      invariant |labels| == |done| == |failed| == i
      invariant forall k | 0 <= k < i ::
        && labels[k] == format(start + k)
        && done[k] == OnDay(jobs, start + k, TransferJobs.Done)
        && failed[k] == OnDay(jobs, start + k, TransferJobs.Failed)
    {
      var d := start + i;
      if d !in byDay {
        AbsentDayIsEmpty(jobs, start, d, TransferJobs.Done);
        AbsentDayIsEmpty(jobs, start, d, TransferJobs.Failed);
      }
      labels := labels + [format(d)];
      done := done + [if d in byDay then byDay[d].done else 0];
      failed := failed + [if d in byDay then byDay[d].failed else 0];
      i := i + 1;
    }
  }

  /** A day-by-day series, from `start` on, sums to the jobs of that status in the
      window: no day is missed and none counted twice. */
  lemma {:induction false} SeriesSumsToWindow(jobs: seq<Job>, start: int, series: seq<nat>, status: TransferJobs.Status)
    requires forall i | 0 <= i < |series| :: series[i] == OnDay(jobs, start + i, status)
    ensures Sum(series)
         == CountIf(jobs, (j: Job) => start <= j.day < start + |series| && j.status == status)
  {
    var n := |series|;
    if n == 0 {
      CountNone(jobs, (j: Job) => start <= j.day < start + n && j.status == status);
    } else {
      SeriesSumsToWindow(jobs, start, series[..n - 1], status);
      CountSplits(jobs, (j: Job) => start <= j.day < start + (n - 1) && j.status == status,
                  (j: Job) => j.day == start + (n - 1) && j.status == status,
                  (j: Job) => start <= j.day < start + n && j.status == status);
    }
  }

  // --------------------------------------------------------------- success_rate

  datatype Rate = Rate(done: nat, failed: nat, other: int, total: nat, percent: real)

  /** The percentage before it is rounded to one decimal. */
  function SuccessRate(jobs: seq<Job>): Rate
  {
    var done := CountIf(jobs, (j: Job) => j.status == TransferJobs.Done);
    var failed := CountIf(jobs, (j: Job) => j.status == TransferJobs.Failed);
    var denom := done + failed;
    Rate(done, failed, |jobs| - done - failed, |jobs|,
         if denom > 0 then done as real / denom as real * 100.0 else 0.0)
  }

  /** Done and failed are the numbers of such jobs, and the remainder that of the jobs
      that are neither; the percentage is the share of done ones among both. */
  lemma RateBalances(jobs: seq<Job>)
    ensures var r := SuccessRate(jobs);
            && r.done == |set i | 0 <= i < |jobs| && jobs[i].status == TransferJobs.Done|
            && r.failed == |set i | 0 <= i < |jobs| && jobs[i].status == TransferJobs.Failed|
            && r.other == |set i | 0 <= i < |jobs| && jobs[i].status != TransferJobs.Done && jobs[i].status != TransferJobs.Failed|
            && r.done + r.failed + r.other == r.total == |jobs|
            && (r.done + r.failed > 0 ==> r.percent * (r.done + r.failed) as real == 100.0 * r.done as real)
            && (r.done + r.failed == 0 ==> r.percent == 0.0)
            && 0.0 <= r.percent <= 100.0
            && (r.percent == 100.0 <==> r.done > 0 && r.failed == 0)
  {
    hide SuccessRate, CountIf;
    DoneAndFailed(jobs);
    OthersRemain(jobs);
    RateOfCounts(jobs);
  }

  lemma DoneAndFailed(jobs: seq<Job>)
    ensures var r := SuccessRate(jobs);
            && r.done == |set i | 0 <= i < |jobs| && jobs[i].status == TransferJobs.Done|
            && r.failed == |set i | 0 <= i < |jobs| && jobs[i].status == TransferJobs.Failed|
  {
    hide CountIf;
    var done := (j: Job) => j.status == TransferJobs.Done;
    var failed := (j: Job) => j.status == TransferJobs.Failed;
    CountIsCardinality(jobs, done);
    CountIsCardinality(jobs, failed);
    assert Places(jobs, done) == set i | 0 <= i < |jobs| && jobs[i].status == TransferJobs.Done;
    assert Places(jobs, failed) == set i | 0 <= i < |jobs| && jobs[i].status == TransferJobs.Failed;
  }

  lemma OthersRemain(jobs: seq<Job>)
    ensures var r := SuccessRate(jobs);
            && r.other == |set i | 0 <= i < |jobs| && jobs[i].status != TransferJobs.Done && jobs[i].status != TransferJobs.Failed|
            && r.done + r.failed + r.other == r.total == |jobs|
  {
    hide CountIf;
    var done := (j: Job) => j.status == TransferJobs.Done;
    var failed := (j: Job) => j.status == TransferJobs.Failed;
    var finished := (j: Job) => done(j) || failed(j);
    var other := (j: Job) => j.status != TransferJobs.Done && j.status != TransferJobs.Failed;
    CountSplits(jobs, done, failed, finished);
    CountSplits(jobs, finished, other, j => true);
    CountAll(jobs);
    CountIsCardinality(jobs, other);
    assert Places(jobs, other)
        == set i | 0 <= i < |jobs| && jobs[i].status != TransferJobs.Done && jobs[i].status != TransferJobs.Failed;
  }

  lemma RateOfCounts(jobs: seq<Job>)
    ensures var r := SuccessRate(jobs);
            && (r.done + r.failed > 0 ==> r.percent * (r.done + r.failed) as real == 100.0 * r.done as real)
            && (r.done + r.failed == 0 ==> r.percent == 0.0)
            && 0.0 <= r.percent <= 100.0
            && (r.percent == 100.0 <==> r.done > 0 && r.failed == 0)
  {
    hide CountIf;
    var r := SuccessRate(jobs);
    if r.done + r.failed > 0 { PercentInRange(r.done as real, (r.done + r.failed) as real); }
  }

  lemma {:induction false} CountAll<T>(s: seq<T>)
    ensures CountIf(s, (x: T) => true) == |s|
  {
    if s != [] { CountAll(s[..|s| - 1]); }
  }

  lemma PercentInRange(d: real, n: real)
    requires 0.0 <= d <= n && n > 0.0
    ensures 0.0 <= d / n * 100.0 <= 100.0 && (d / n * 100.0 == 100.0 <==> d == n) && d / n * 100.0 * n == 100.0 * d
  {
    var q := d / n;
    assert q * n == d;
    assert (1.0 - q) * n == n - d;
  }

  // ---------------------------------------------------------------- top_sources

  datatype Group = Group(name: string, count: nat)

  /** What a grouped count returns, in whatever order: each name once, with the
      number of jobs that have it, and every name that occurs. */
  ghost predicate IsGrouping(rows: seq<Group>, jobs: seq<Job>, key: Job -> Option<string>)
  {
    && (forall i, k | 0 <= i < k < |rows| :: rows[i].name != rows[k].name)
    && (forall r | r in rows :: r.count == CountIf(jobs, (j: Job) => key(j) == Some(r.name)))
    && (forall j | j in jobs && key(j).Some? :: exists r | r in rows :: key(j) == Some(r.name))
  }

  const RELAY := "RELAY: "

  /** The position of a name, or the length. */
  function Position(counts: seq<Group>, name: string): (i: nat)
    ensures i <= |counts|
    ensures i < |counts| ==> counts[i].name == name
    ensures forall k | 0 <= k < i :: counts[k].name != name
  {
    if counts == [] then 0
    else if counts[0].name == name then 0
    else 1 + Position(counts[1..], name)
  }

  function Lookup(counts: seq<Group>, name: string): nat
  {
    var i := Position(counts, name);
    if i < |counts| then counts[i].count else 0
  }

  /** `counts[name] = counts.get(name, 0) + n`, on a dictionary in insertion order. */
  function Bump(counts: seq<Group>, name: string, n: nat): seq<Group>
  {
    var i := Position(counts, name);
    if i < |counts| then counts[i := Group(name, counts[i].count + n)]
    else counts + [Group(name, n)]
  }

  function Tally(counts: seq<Group>): nat
  {
    if counts == [] then 0 else Tally(counts[..|counts| - 1]) + counts[|counts| - 1].count
  }

  predicate Distinct(counts: seq<Group>)
  {
    forall i, k | 0 <= i < k < |counts| :: counts[i].name != counts[k].name
  }

  /** The dictionary after adding these rows under `prefix + name`. */
  function Merged(counts: seq<Group>, prefix: string, rows: seq<Group>): seq<Group>
  {
    if rows == [] then counts
    else
      var last := rows[|rows| - 1];
      Bump(Merged(counts, prefix, rows[..|rows| - 1]), prefix + last.name, last.count)
  }

  function AllCounts(connections: seq<Group>, flows: seq<Group>): seq<Group>
  {
    Merged(Merged([], "", connections), RELAY, flows)
  }

  /** A stable sort, greatest count first. */
  function Ranked(counts: seq<Group>): seq<Group>
  {
    if counts == [] then [] else Insert(Ranked(counts[..|counts| - 1]), counts[|counts| - 1])
  }

  function Insert(ranked: seq<Group>, g: Group): seq<Group>
  {
    if ranked == [] || ranked[|ranked| - 1].count >= g.count then ranked + [g]
    else Insert(ranked[..|ranked| - 1], g) + [ranked[|ranked| - 1]]
  }

  function Shown(connections: seq<Group>, flows: seq<Group>, limit: nat): seq<Group>
  {
    var ranked := Ranked(AllCounts(connections, flows));
    if limit <= |ranked| then ranked[..limit] else ranked
  }

  method TopSources(connections: seq<Group>, flows: seq<Group>, limit: nat)
    returns (labels: seq<string>, counts: seq<nat>)
    ensures var shown := Shown(connections, flows, limit);
            && |labels| == |counts| == |shown|
            && forall i | 0 <= i < |shown| :: shown[i] == Group(labels[i], counts[i])
  {
    var all: seq<Group> := [];
    for i := 0 to |connections|
      invariant all == Merged([], "", connections[..i])
    {
      assert connections[..i + 1][..i] == connections[..i];
      assert "" + connections[i].name == connections[i].name;
      all := Bump(all, connections[i].name, connections[i].count);
    }
    assert connections[..|connections|] == connections;
    for i := 0 to |flows|
      invariant all == Merged(Merged([], "", connections), RELAY, flows[..i])
    {
      assert flows[..i + 1][..i] == flows[..i];
      all := Bump(all, RELAY + flows[i].name, flows[i].count);
    }
    assert flows[..|flows|] == flows;
    var ranked := Ranked(all);
    var shown := if limit <= |ranked| then ranked[..limit] else ranked;
    labels := seq(|shown|, i requires 0 <= i < |shown| => shown[i].name);
    counts := seq(|shown|, i requires 0 <= i < |shown| => shown[i].count);
  }

  // ------------------------------------------- the counts against direct counting

  lemma BumpAdds(counts: seq<Group>, name: string, n: nat)
    requires Distinct(counts)
    ensures var after := Bump(counts, name, n);
            && Distinct(after)
            && Tally(after) == Tally(counts) + n
            && forall other :: Lookup(after, other) == Lookup(counts, other) + (if other == name then n else 0)
  {
    var after := Bump(counts, name, n);
    var i := Position(counts, name);
    if i < |counts| {
      TallyOfUpdate(counts, i, after[i]);
    } else {
      assert after[..|counts|] == counts;
    }
    forall other ensures Lookup(after, other) == Lookup(counts, other) + (if other == name then n else 0) {
      BumpLooksUp(counts, name, n, other);
    }
  }

  lemma BumpLooksUp(counts: seq<Group>, name: string, n: nat, other: string)
    ensures Lookup(Bump(counts, name, n), other) == Lookup(counts, other) + (if other == name then n else 0)
  {
    hide Position;
    var i := Position(counts, other);
    var after := Bump(counts, name, n);
    PositionIs(after, other, if other == name || i < |counts| then i else |after|);
  }

  lemma PositionIs(counts: seq<Group>, name: string, i: nat)
    requires i <= |counts| && (i < |counts| ==> counts[i].name == name)
    requires forall k | 0 <= k < i :: counts[k].name != name
    ensures Position(counts, name) == i
  {
  }

  lemma {:induction false} TallyOfUpdate(counts: seq<Group>, i: nat, g: Group)
    requires i < |counts|
    ensures Tally(counts[i := g]) + counts[i].count == Tally(counts) + g.count
  {
    var n := |counts| - 1;
    if i < n {
      TallyOfUpdate(counts[..n], i, g);
      assert counts[i := g][..n] == counts[..n][i := g];
    } else {
      assert counts[i := g][..n] == counts[..n];
    }
  }

  /** The sum of the counts of the rows that fall under `shown`. */
  function TagTotal(prefix: string, rows: seq<Group>, shown: string): nat
  {
    if rows == [] then 0
    else TagTotal(prefix, rows[..|rows| - 1], shown)
           + (if prefix + rows[|rows| - 1].name == shown then rows[|rows| - 1].count else 0)
  }

  lemma {:induction false} MergedAdds(counts: seq<Group>, prefix: string, rows: seq<Group>)
    requires Distinct(counts)
    ensures var after := Merged(counts, prefix, rows);
            && Distinct(after)
            && Tally(after) == Tally(counts) + Tally(rows)
            && forall shown :: Lookup(after, shown) == Lookup(counts, shown) + TagTotal(prefix, rows, shown)
  {
    if rows != [] {
      var front, last := rows[..|rows| - 1], rows[|rows| - 1];
      MergedAdds(counts, prefix, front);
      BumpAdds(Merged(counts, prefix, front), prefix + last.name, last.count);
    }
  }

  function NamesOf(rows: seq<Group>): set<string>
  {
    set r | r in rows :: r.name
  }

  function NamedIn(key: Job -> Option<string>, names: set<string>): Job -> bool
  {
    (j: Job) => key(j).Some? && key(j).value in names
  }

  /** The jobs whose key is shown as `shown`. */
  function ShownAs(key: Job -> Option<string>, prefix: string, shown: string): Job -> bool
  {
    (j: Job) => key(j).Some? && prefix + key(j).value == shown
  }

  function ShownAsIn(key: Job -> Option<string>, prefix: string, shown: string, names: set<string>): Job -> bool
  {
    (j: Job) => key(j).Some? && prefix + key(j).value == shown && key(j).value in names
  }

  lemma NamesOfSnoc(rows: seq<Group>, n: nat)
    requires n < |rows| && forall i, k | 0 <= i < k < |rows| :: rows[i].name != rows[k].name
    ensures rows[..n + 1][..n] == rows[..n]
    ensures NamesOf(rows[..n + 1]) == NamesOf(rows[..n]) + {rows[n].name}
    ensures rows[n].name !in NamesOf(rows[..n])
  {
    assert rows[..n + 1] == rows[..n] + [rows[n]];
  }

  /** The first rows of a grouping count the jobs with one of their names. */
  lemma {:induction false} PrefixTally(rows: seq<Group>, jobs: seq<Job>, key: Job -> Option<string>, n: nat)
    requires IsGrouping(rows, jobs, key) && n <= |rows|
    ensures Tally(rows[..n]) == CountIf(jobs, NamedIn(key, NamesOf(rows[..n])))
  {
    if n == 0 {
      CountNone(jobs, NamedIn(key, NamesOf(rows[..n])));
    } else {
      PrefixTally(rows, jobs, key, n - 1);
      NamesOfSnoc(rows, n - 1);
      var row := rows[n - 1];
      assert row in rows;
      CountSplits(jobs, NamedIn(key, NamesOf(rows[..n - 1])), (j: Job) => key(j) == Some(row.name),
                  NamedIn(key, NamesOf(rows[..n])));
    }
  }

  lemma AllNamed(rows: seq<Group>, jobs: seq<Job>, key: Job -> Option<string>, j: Job)
    requires IsGrouping(rows, jobs, key) && j in jobs && key(j).Some?
    ensures key(j).value in NamesOf(rows)
  {
    var r :| r in rows && key(j) == Some(r.name);
    assert r.name in NamesOf(rows);
  }

  /** A grouping's counts sum to the jobs that have the key at all. */
  lemma GroupingTally(rows: seq<Group>, jobs: seq<Job>, key: Job -> Option<string>)
    requires IsGrouping(rows, jobs, key)
    ensures Tally(rows) == CountIf(jobs, (j: Job) => key(j).Some?)
  {
    PrefixTally(rows, jobs, key, |rows|);
    assert rows[..|rows|] == rows;
    forall j | j in jobs && key(j).Some? ensures key(j).value in NamesOf(rows) { AllNamed(rows, jobs, key, j); }
    CountAlike(jobs, NamedIn(key, NamesOf(rows)), (j: Job) => key(j).Some?);
  }

  lemma {:induction false} PrefixTag(rows: seq<Group>, jobs: seq<Job>, key: Job -> Option<string>,
                                     prefix: string, shown: string, n: nat)
    requires IsGrouping(rows, jobs, key) && n <= |rows|
    ensures TagTotal(prefix, rows[..n], shown) == CountIf(jobs, ShownAsIn(key, prefix, shown, NamesOf(rows[..n])))
  {
    if n == 0 {
      CountNone(jobs, ShownAsIn(key, prefix, shown, NamesOf(rows[..n])));
    } else {
      PrefixTag(rows, jobs, key, prefix, shown, n - 1);
      NamesOfSnoc(rows, n - 1);
      var row := rows[n - 1];
      assert row in rows;
      var last := (j: Job) => key(j) == Some(row.name) && prefix + row.name == shown;
      if prefix + row.name == shown {
        CountAlike(jobs, last, (j: Job) => key(j) == Some(row.name));
      } else {
        CountNone(jobs, last);
      }
      CountSplits(jobs, ShownAsIn(key, prefix, shown, NamesOf(rows[..n - 1])), last,
                  ShownAsIn(key, prefix, shown, NamesOf(rows[..n])));
    }
  }

  lemma GroupingTag(rows: seq<Group>, jobs: seq<Job>, key: Job -> Option<string>, prefix: string, shown: string)
    requires IsGrouping(rows, jobs, key)
    ensures TagTotal(prefix, rows, shown) == CountIf(jobs, ShownAs(key, prefix, shown))
  {
    PrefixTag(rows, jobs, key, prefix, shown, |rows|);
    assert rows[..|rows|] == rows;
    forall j | j in jobs && key(j).Some? ensures key(j).value in NamesOf(rows) { AllNamed(rows, jobs, key, j); }
    CountAlike(jobs, ShownAsIn(key, prefix, shown, NamesOf(rows)), ShownAs(key, prefix, shown));
  }

  /** The merged counts are direct counts, even when a connection is named like a
      flow's label: each label has the jobs shown under it, and together they sum
      to the jobs with a connection plus the jobs with a flow. */
  lemma CountsAreDirect(connections: seq<Group>, flows: seq<Group>, jobs: seq<Job>)
    requires IsGrouping(connections, jobs, (j: Job) => j.connection)
    requires IsGrouping(flows, jobs, (j: Job) => j.flow)
    ensures var counts := AllCounts(connections, flows);
            && Distinct(counts)
            && Tally(counts) == CountIf(jobs, (j: Job) => j.connection.Some?) + CountIf(jobs, (j: Job) => j.flow.Some?)
    ensures forall shown :: Lookup(AllCounts(connections, flows), shown)
              == CountIf(jobs, ShownAs((j: Job) => j.connection, "", shown))
               + CountIf(jobs, ShownAs((j: Job) => j.flow, RELAY, shown))
  {
    var ofConnection, ofFlow := (j: Job) => j.connection, (j: Job) => j.flow;
    MergedAdds([], "", connections);
    MergedAdds(Merged([], "", connections), RELAY, flows);
    GroupingTally(connections, jobs, ofConnection);
    GroupingTally(flows, jobs, ofFlow);
    CountAlike(jobs, (j: Job) => ofConnection(j).Some?, (j: Job) => j.connection.Some?);
    CountAlike(jobs, (j: Job) => ofFlow(j).Some?, (j: Job) => j.flow.Some?);
    forall shown ensures Lookup(AllCounts(connections, flows), shown)
                      == CountIf(jobs, ShownAs(ofConnection, "", shown)) + CountIf(jobs, ShownAs(ofFlow, RELAY, shown))
    {
      GroupingTag(connections, jobs, ofConnection, "", shown);
      GroupingTag(flows, jobs, ofFlow, RELAY, shown);
    }
  }

  // ------------------------------------------------------------------ the ranking

  predicate NonIncreasing(ranked: seq<Group>)
  {
    forall i, k | 0 <= i < k < |ranked| :: ranked[i].count >= ranked[k].count
  }

  /** The entries with this count, in order. */
  function WithCount(counts: seq<Group>, n: nat): seq<Group>
  {
    if counts == [] then []
    else WithCount(counts[..|counts| - 1], n)
           + (if counts[|counts| - 1].count == n then [counts[|counts| - 1]] else [])
  }

  lemma {:induction false} InsertKeepsOrder(ranked: seq<Group>, g: Group)
    requires NonIncreasing(ranked)
    ensures NonIncreasing(Insert(ranked, g))
    ensures forall x | x in Insert(ranked, g) :: x == g || x in ranked
  {
    if ranked != [] && ranked[|ranked| - 1].count < g.count {
      var front, last := ranked[..|ranked| - 1], ranked[|ranked| - 1];
      assert ranked == front + [last];
      InsertKeepsOrder(front, g);
      assert forall x | x in front :: x.count >= last.count;
      assert Insert(ranked, g) == Insert(front, g) + [last];
    }
  }

  lemma {:induction false} InsertKeepsItems(ranked: seq<Group>, g: Group)
    ensures multiset(Insert(ranked, g)) == multiset(ranked) + multiset{g}
  {
    if ranked != [] && ranked[|ranked| - 1].count < g.count {
      InsertKeepsItems(ranked[..|ranked| - 1], g);
      assert ranked == ranked[..|ranked| - 1] + [ranked[|ranked| - 1]];
    }
  }

  lemma {:induction false} InsertIsStable(ranked: seq<Group>, g: Group, n: nat)
    ensures WithCount(Insert(ranked, g), n) == WithCount(ranked, n) + (if g.count == n then [g] else [])
  {
    if ranked == [] || ranked[|ranked| - 1].count >= g.count {
      assert (ranked + [g])[..|ranked|] == ranked;
    } else {
      var front, last := ranked[..|ranked| - 1], ranked[|ranked| - 1];
      InsertIsStable(front, g, n);
      assert Insert(ranked, g)[..|Insert(front, g)|] == Insert(front, g);
    }
  }

  /** The ranking is non-increasing, a rearrangement of the dictionary's items, and
      stable: items of equal count keep the order in which they were entered. */
  lemma {:induction false} RankedIsStableSort(counts: seq<Group>)
    ensures NonIncreasing(Ranked(counts)) && multiset(Ranked(counts)) == multiset(counts)
    ensures forall n :: WithCount(Ranked(counts), n) == WithCount(counts, n)
  {
    if counts != [] {
      var front, last := counts[..|counts| - 1], counts[|counts| - 1];
      assert counts == front + [last];
      RankedIsStableSort(front);
      InsertKeepsOrder(Ranked(front), last);
      InsertKeepsItems(Ranked(front), last);
      forall n: nat ensures WithCount(Ranked(counts), n) == WithCount(counts, n) {
        InsertIsStable(Ranked(front), last, n);
      }
    }
  }

  /** What is shown are the first sources of the ranking, non-increasing; every
      source is shown or omitted, and no omitted one beats a shown one. */
  lemma NoOmittedSourceBeatsAShownOne(connections: seq<Group>, flows: seq<Group>, limit: nat)
    ensures var all, shown := AllCounts(connections, flows), Shown(connections, flows, limit);
            && |shown| == (if limit <= |all| then limit else |all|)
            && NonIncreasing(shown)
            && exists omitted: seq<Group> ::
                 && multiset(shown) + multiset(omitted) == multiset(all)
                 && forall s, o | s in shown && o in omitted :: s.count >= o.count
  {
    var all, shown := AllCounts(connections, flows), Shown(connections, flows, limit);
    var ranked := Ranked(all);
    RankedIsStableSort(all);
    hide AllCounts, Ranked;
    assert |ranked| == |multiset(ranked)| == |multiset(all)| == |all|;
    var omitted := ranked[|shown|..];
    assert ranked == shown + omitted;
    assert multiset(shown) + multiset(omitted) == multiset(all);
  }
}
