/** Threshold and cooldown: after five failures in a row, refuse every attempt
    until fifteen minutes after the latest failure. */
module Limiter {
  import opened Text
  import opened Streams

  const THRESHOLD := 5
  /** Fifteen minutes, in microseconds. */
  const COOLDOWN := 15 * 60 * 1_000_000

  datatype Limiter = Limiter(failures: nat, openUntil: Option<int>)

  const CLOSED := Limiter(0, None)

  predicate Open(limiter: Limiter, now: int)
  {
    limiter.openUntil.Some? && limiter.openUntil.value > now
  }

  function AfterFailure(limiter: Limiter, now: int): Limiter
  {
    var failures := limiter.failures + 1;
    Limiter(failures, if failures >= THRESHOLD then Some(now + COOLDOWN) else limiter.openUntil)
  }

  /** `Silent`: the attempt ran, and nothing was recorded about it. */
  datatype Outcome = Succeeds | Fails | Silent

  /** The limiter is asked at `start`, and the outcome recorded at `end`. */
  datatype Attempt = Attempt(start: int, end: int, outcome: Outcome)

  datatype Verdict = Refused | Succeeded | Failed | Unrecorded

  function Judge(limiter: Limiter, attempt: Attempt): Verdict
  {
    if Open(limiter, attempt.start) then Refused
    else match attempt.outcome
      case Succeeds => Succeeded
      case Fails => Failed
      case Silent => Unrecorded
  }

  function Advance(limiter: Limiter, attempt: Attempt): Limiter
  {
    match Judge(limiter, attempt)
    case Succeeded => CLOSED
    case Failed => AfterFailure(limiter, attempt.end)
    case _ => limiter
  }

  // ------------------------------------------------------------------- runs

  datatype Entry = Entry(start: int, end: int, verdict: Verdict)
  datatype State = State(limiter: Limiter, log: seq<Entry>)

  function Step(s: State, attempt: Attempt): State
  {
    State(Advance(s.limiter, attempt),
          s.log + [Entry(attempt.start, attempt.end, Judge(s.limiter, attempt))])
  }

  function Run(attempts: seq<Attempt>): State
  {
    Fold(Step, State(CLOSED, []), attempts)
  }

  /** One attempt after the other, on a clock that does not go back. */
  predicate Serial(attempts: seq<Attempt>)
  {
    && (forall i | 0 <= i < |attempts| :: attempts[i].start <= attempts[i].end)
    && (forall i, j | 0 <= i < j < |attempts| :: attempts[i].end <= attempts[j].start)
  }

  predicate InOrder(log: seq<Entry>)
  {
    && (forall i | 0 <= i < |log| :: log[i].start <= log[i].end)
    && (forall i, j | 0 <= i < j < |log| :: log[i].end <= log[j].start)
  }

  /** A caller that advances a limiter by one attempt after the other follows the run. */
  lemma RunAdvances(past: seq<Attempt>, attempt: Attempt)
    ensures Run(past + [attempt]).limiter == Advance(Run(past).limiter, attempt)
    ensures Run(past + [attempt]).log ==
            Run(past).log + [Entry(attempt.start, attempt.end, Judge(Run(past).limiter, attempt))]
  {
    FoldSnoc(Step, State(CLOSED, []), past, attempt);
  }

  lemma {:induction false} PrefixOfRun(attempts: seq<Attempt>, n: nat)
    requires n <= |attempts|
    ensures |Run(attempts).log| == |attempts|
    ensures Run(attempts[..n]).log == Run(attempts).log[..n]
    decreases |attempts| - n
  {
    hide Judge, Advance;
    if n == |attempts| {
      assert attempts[..n] == attempts;
      LogLength(attempts);
    } else {
      PrefixOfRun(attempts, n + 1);
      assert attempts[..n + 1][..n] == attempts[..n];
      LogLength(attempts[..n]);
    }
  }

  lemma {:induction false} LogLength(attempts: seq<Attempt>)
    ensures |Run(attempts).log| == |attempts|
  {
    hide Judge, Advance;
    if attempts != [] { LogLength(attempts[..|attempts| - 1]); }
  }

  lemma LogFollowsAttempts(attempts: seq<Attempt>, i: nat)
    requires i < |attempts|
    ensures |Run(attempts).log| == |attempts|
    ensures Run(attempts).log[i] == Entry(attempts[i].start, attempts[i].end,
                                          Judge(Run(attempts[..i]).limiter, attempts[i]))
    ensures Run(attempts[..i]).log == Run(attempts).log[..i]
  {
    hide Judge, Advance;
    PrefixOfRun(attempts, i + 1);
    PrefixOfRun(attempts, i);
    LogLength(attempts[..i]);
    assert attempts[..i + 1][..i] == attempts[..i];
    assert Run(attempts).log[i] == Run(attempts).log[..i + 1][i];
  }

  // ------------------------------------------- the log determines the limiter

  /** Failures since the last success. */
  function Trailing(log: seq<Entry>): nat
  {
    if log == [] then 0
    else
      var front := log[..|log| - 1];
      match log[|log| - 1].verdict
      case Succeeded => 0
      case Failed => Trailing(front) + 1
      case _ => Trailing(front)
  }

  /** Where the latest failure stands. */
  function LatestFailure(log: seq<Entry>): (i: nat)
    requires Trailing(log) > 0
    ensures i < |log| && log[i].verdict == Failed
    ensures Trailing(log[..i + 1]) == Trailing(log)
    ensures forall j | i < j < |log| :: log[j].verdict == Refused || log[j].verdict == Unrecorded
  {
    var front := log[..|log| - 1];
    if log[|log| - 1].verdict == Failed then
      assert log[..|log|] == log;
      |log| - 1
    else
      var i := LatestFailure(front);
      assert front[..i + 1] == log[..i + 1];
      i
  }

  /** The limiter that the log alone calls for. */
  function Called(log: seq<Entry>): Limiter
  {
    var n := Trailing(log);
    Limiter(n, if n >= THRESHOLD then Some(log[LatestFailure(log)].end + COOLDOWN) else None)
  }

  lemma CalledStep(s: State, attempt: Attempt)
    requires s.limiter == Called(s.log)
    ensures Step(s, attempt).limiter == Called(Step(s, attempt).log)
  {
    var next := Step(s, attempt);
    assert next.log[..|s.log|] == s.log;
    if Trailing(next.log) > 0 && Judge(s.limiter, attempt) != Failed {
      assert LatestFailure(next.log) == LatestFailure(s.log);
      assert next.log[LatestFailure(s.log)] == s.log[LatestFailure(s.log)];
    }
  }

  /** In every run, the counter is the number of failures since the last success;
      the limiter has an open-until time exactly when there are at least five of
      them, and it is the cooldown after the latest. */
  lemma {:induction false} CounterCountsFailures(attempts: seq<Attempt>)
    ensures Run(attempts).limiter == Called(Run(attempts).log)
    ensures forall now :: Open(Run(attempts).limiter, now) ==> Trailing(Run(attempts).log) >= THRESHOLD
  {
    if attempts != [] {
      CounterCountsFailures(attempts[..|attempts| - 1]);
      CalledStep(Run(attempts[..|attempts| - 1]), attempts[|attempts| - 1]);
    }
  }

  /** Entry `i` is the fifth or a later failure in a row. */
  predicate Trips(log: seq<Entry>, i: nat)
  {
    i < |log| && log[i].verdict == Failed && Trailing(log[..i + 1]) >= THRESHOLD
  }

  /** The cooldown of an earlier entry covers the start of entry `j`. */
  predicate Cooling(log: seq<Entry>, j: nat)
    requires j < |log|
  {
    exists i: nat | i < j :: Trips(log, i) && log[j].start < log[i].end + COOLDOWN
  }

  /** A log in which every refusal is what the earlier entries call for. */
  predicate Consistent(log: seq<Entry>)
  {
    && InOrder(log)
    && forall j | 0 <= j < |log| ::
         log[j].verdict == Refused <==> Open(Called(log[..j]), log[j].start)
  }

  lemma RunIsConsistent(attempts: seq<Attempt>)
    requires Serial(attempts)
    ensures |Run(attempts).log| == |attempts| && Consistent(Run(attempts).log)
  {
    LogLength(attempts);
    forall j | 0 <= j < |attempts|
      ensures Run(attempts).log[j].start == attempts[j].start && Run(attempts).log[j].end == attempts[j].end
      ensures Run(attempts).log[j].verdict == Refused
         <==> Open(Called(Run(attempts).log[..j]), Run(attempts).log[j].start)
    {
      LogFollowsAttempts(attempts, j);
      CounterCountsFailures(attempts[..j]);
    }
  }

  lemma RefusedIffCoolingInLog(log: seq<Entry>, j: nat)
    requires Consistent(log) && j < |log|
    ensures log[j].verdict == Refused <==> Cooling(log, j)
  {
    if log[j].verdict == Refused {
      var i := LatestFailure(log[..j]);
      assert log[..j][..i + 1] == log[..i + 1];
      assert Trips(log, i);
    }
    if Cooling(log, j) {
      var i: nat :| i < j && Trips(log, i) && log[j].start < log[i].end + COOLDOWN;
      StaysOpen(log, i, j, j);
    }
  }

  /** From the failure that trips the limiter until `j`, nothing changes it. */
  lemma {:induction false} StaysOpen(log: seq<Entry>, i: nat, j: nat, k: nat)
    requires Consistent(log) && i < k <= j < |log|
    requires Trips(log, i) && log[j].start < log[i].end + COOLDOWN
    ensures Trailing(log[..k]) >= THRESHOLD && LatestFailure(log[..k]) == i
  {
    hide Consistent, Trailing, LatestFailure;
    if k == i + 1 {
      LatestIsLast(log[..k]);
    } else {
      StaysOpen(log, i, j, k - 1);
      StillOpen(log, i, j, k - 1);
    }
  }

  lemma StillOpen(log: seq<Entry>, i: nat, j: nat, k: nat)
    requires Consistent(log) && i < k < j < |log| && log[j].start < log[i].end + COOLDOWN
    requires Trailing(log[..k]) >= THRESHOLD && LatestFailure(log[..k]) == i
    ensures Trailing(log[..k + 1]) >= THRESHOLD && LatestFailure(log[..k + 1]) == i
  {
    hide Consistent, Trailing, LatestFailure;
    ConsistentAt(log, k, j);
    assert log[..k + 1][..k] == log[..k] && log[..k + 1][k] == log[k];
    RefusalKeepsLatest(log[..k + 1]);
  }

  lemma LatestIsLast(log: seq<Entry>)
    requires log != [] && log[|log| - 1].verdict == Failed
    ensures Trailing(log) > 0 && LatestFailure(log) == |log| - 1
  {
  }

  lemma RefusalKeepsLatest(log: seq<Entry>)
    requires log != [] && log[|log| - 1].verdict == Refused && Trailing(log[..|log| - 1]) > 0
    ensures Trailing(log) == Trailing(log[..|log| - 1])
    ensures LatestFailure(log) == LatestFailure(log[..|log| - 1])
  {
  }

  lemma ConsistentAt(log: seq<Entry>, i: nat, j: nat)
    requires Consistent(log) && i < j < |log|
    ensures log[i].verdict == Refused <==> Open(Called(log[..i]), log[i].start)
    ensures log[i].start <= log[j].start
  {
    hide Called, Open;
  }

  /** In a serial run an attempt is refused exactly when it starts within the
      cooldown of some earlier failure that was the fifth or later in a row. In
      particular none is made while the limiter is open. */
  lemma RefusedIffCooling(attempts: seq<Attempt>, j: nat)
    requires Serial(attempts) && j < |attempts|
    ensures |Run(attempts).log| == |attempts|
    ensures Run(attempts).log[j].verdict == Refused <==> Cooling(Run(attempts).log, j)
  {
    RunIsConsistent(attempts);
    RefusedIffCoolingInLog(Run(attempts).log, j);
  }

  // -------------------------------------------------------------- rate bound

  function FailuresIn(log: seq<Entry>): nat
  {
    if log == [] then 0
    else FailuresIn(log[..|log| - 1]) + (if log[|log| - 1].verdict == Failed then 1 else 0)
  }

  /** Entries `first` to `last` are one streak: both failed, and no success
      between them. */
  predicate Streak(log: seq<Entry>, first: nat, last: nat)
  {
    && first <= last < |log| && log[first].verdict == Failed && log[last].verdict == Failed
    && forall i | first <= i <= last :: log[i].verdict != Succeeded
  }

  lemma {:induction false} StreakCounts(log: seq<Entry>, first: nat, last: nat)
    requires first <= last < |log|
    requires forall i | first <= i <= last :: log[i].verdict != Succeeded
    ensures FailuresIn(log[first..last + 1]) <= Trailing(log[..last + 1])
  {
    assert log[first..last + 1][..last - first] == log[first..last];
    assert log[..last + 1][..last] == log[..last];
    if first < last { StreakCounts(log, first, last - 1); } else { assert log[first..first] == []; }
  }

  /** The failure before the last one of a streak of several. */
  function PreviousFailure(log: seq<Entry>, first: nat, last: nat): (i: nat)
    requires first < last < |log| && log[first].verdict == Failed
    ensures first <= i < last && log[i].verdict == Failed
    ensures FailuresIn(log[first..i + 1]) == FailuresIn(log[first..last])
  {
    if log[last - 1].verdict == Failed then last - 1
    else
      assert log[first..last][..last - 1 - first] == log[first..last - 1];
      PreviousFailure(log, first, last - 1)
  }

  lemma OneMoreCooldown(t: int, u: int)
    requires u >= t + COOLDOWN
    ensures u / COOLDOWN >= t / COOLDOWN + 1
  {
    assert (t + COOLDOWN) / COOLDOWN == t / COOLDOWN + 1;
  }

  lemma SpanCounts(t: int)
    requires t >= 0
    ensures t / COOLDOWN >= 0
  {
  }

  lemma {:induction false} RateBoundInLog(log: seq<Entry>, first: nat, last: nat)
    requires Consistent(log) && Streak(log, first, last)
    ensures FailuresIn(log[first..last + 1]) <= THRESHOLD + (log[last].end - log[first].end) / COOLDOWN
    decreases last
  {
    hide Consistent, Trailing, COOLDOWN;
    assert log[first..last + 1][..last - first] == log[first..last];
    if first == last {
      assert log[first..last] == [];
      SpanCounts(0);
    } else {
      var i := PreviousFailure(log, first, last);
      RateBoundInLog(log, first, i);
      LaterAndLater(log, first, i, last);
      SpanCounts(log[last].end - log[first].end);
      if FailuresIn(log[first..last]) >= THRESHOLD {
        WaitsForCooldown(log, first, i, last);
        OneMoreCooldown(log[i].end - log[first].end, log[last].end - log[first].end);
      }
    }
  }

  lemma WaitsForCooldown(log: seq<Entry>, first: nat, i: nat, last: nat)
    requires Consistent(log) && Streak(log, first, last) && first <= i < last && log[i].verdict == Failed
    requires FailuresIn(log[first..i + 1]) >= THRESHOLD
    ensures log[last].start >= log[i].end + COOLDOWN
  {
    hide Consistent, FailuresIn;
    StreakCounts(log, first, i);
    assert Trips(log, i);
    RefusedIffCoolingInLog(log, last);
  }

  lemma LaterAndLater(log: seq<Entry>, i: nat, j: nat, k: nat)
    requires Consistent(log) && i <= j < k < |log|
    ensures log[i].end <= log[j].end <= log[k].start <= log[k].end
  {
    if i < j { assert log[i].end <= log[j].start; }
  }

  /** A streak whose failures are recorded within a time T of each other has at
      most 5 + floor(T / 15 min) of them. */
  lemma RateBound(attempts: seq<Attempt>, first: nat, last: nat)
    requires Serial(attempts) && Streak(Run(attempts).log, first, last)
    ensures var log := Run(attempts).log;
            FailuresIn(log[first..last + 1]) <= THRESHOLD + (log[last].end - log[first].end) / COOLDOWN
  {
    hide Serial, Consistent, Streak, FailuresIn, Run;
    RunIsConsistent(attempts);
    RateBoundInLog(Run(attempts).log, first, last);
  }

  /** When the n-th failure can come at the earliest. */
  function Earliest(n: nat): int
  {
    if n <= THRESHOLD then 0 else (n - THRESHOLD) * COOLDOWN
  }

  /** Failures as fast as the limiter lets them through. */
  function Hammer(n: nat): (attempts: seq<Attempt>)
  {
    seq(n, i requires 0 <= i => Attempt(Earliest(i + 1), Earliest(i + 1), Fails))
  }

  function HammerLog(n: nat): (log: seq<Entry>)
  {
    seq(n, i requires 0 <= i => Entry(Earliest(i + 1), Earliest(i + 1), Failed))
  }

  function HammerState(n: nat): State
  {
    State(Limiter(n, if n >= THRESHOLD then Some(Earliest(n + 1)) else None), HammerLog(n))
  }

  lemma {:induction false} HammerRuns(n: nat)
    ensures Run(Hammer(n)) == HammerState(n)
    ensures FailuresIn(HammerLog(n)) == n
  {
    if n > 0 {
      HammerRuns(n - 1);
      assert Hammer(n)[..n - 1] == Hammer(n - 1);
      assert HammerLog(n)[..n - 1] == HammerLog(n - 1);
      HammerStep(n - 1);
    }
  }

  lemma HammerStep(n: nat)
    ensures Step(HammerState(n), Attempt(Earliest(n + 1), Earliest(n + 1), Fails)) == HammerState(n + 1)
  {
    assert HammerLog(n + 1) == HammerLog(n) + [Entry(Earliest(n + 1), Earliest(n + 1), Failed)];
  }

  lemma EarliestGrows(i: nat, j: nat)
    requires i <= j
    ensures Earliest(i) <= Earliest(j)
  {
  }

  /** The bound is met: for every n from five on there is a serial run that is one
      streak of n failures within exactly n - 5 cooldowns. */
  lemma RateBoundIsTight(n: nat)
    requires n >= THRESHOLD
    ensures var log := Run(Hammer(n)).log;
            && Serial(Hammer(n)) && Streak(log, 0, n - 1) && FailuresIn(log[0..n]) == n
            && n == THRESHOLD + (log[n - 1].end - log[0].end) / COOLDOWN
  {
    HammerRuns(n);
    assert HammerLog(n)[0..n] == HammerLog(n);
    forall i, j | 0 <= i < j < n ensures Hammer(n)[i].end <= Hammer(n)[j].start { EarliestGrows(i + 1, j + 1); }
  }
}
