/** Dispatcher, worker, stop view and orphan clean-up around one job row, as a
    state machine: each step is one statement that reaches the database, the
    queue or the worker process, and steps interleave freely. */
module TransferProtocol {
  import opened Text
  import opened TransferJobs
  import opened Streams

  /** The worker task. `copy` is its in-memory job, which nobody refreshes. */
  datatype Worker =
    | Waiting
    | Loaded(copy: Row)
    | Transferring(copy: Row)
    | Queueing(copy: Row)
    | Gone

  datatype System = System(row: Row, sent: bool, recorded: bool, worker: Worker, revoked: bool, now: int)

  datatype Action =
    // the dispatcher: queue the task, then write its id into the row
    | Send
    | Record
    // the worker
    | Start
    | MarkRunning
    | Progress(percent: int)
    | MarkDone
    | MarkFailed(message: string)
    | QueueingFails(message: string)
    | Finish
    // the worker process ends, or the broker drops a revoked message
    | Die
    // the other writers
    | Stop(user: int)
    | CleanUp
    | Tick(seconds: nat)

  /** How long a running job may be without being taken for an orphan. */
  const ORPHAN_AFTER := 3600
  const INTERRUPTED := "TASK INTERRUPTED — worker restarted"

  /** A job dispatched by a view, before its task is sent. */
  function Dispatched(now: int): System
  {
    System(NEW_ROW, false, false, Waiting, false, now)
  }

  /** A job that the scheduled task created for itself. */
  function Scheduled(now: int): System
  {
    System(NEW_ROW, true, true, Loaded(NEW_ROW), false, now)
  }

  predicate Initial(s: System)
  {
    s == Dispatched(s.now) || s == Scheduled(s.now)
  }

  predicate Enabled(s: System, a: Action)
  {
    match a
    case Send => !s.sent
    case Record => s.sent && !s.recorded
    case Start => s.sent && s.worker.Waiting?
    case MarkRunning => s.worker.Loaded?
    case Progress(_) => s.worker.Transferring?
    case MarkDone => s.worker.Transferring?
    case MarkFailed(_) => s.worker.Transferring?
    case QueueingFails(_) => s.worker.Queueing?
    case Finish => s.worker.Queueing?
    case Die => s.sent && !s.worker.Gone?
    case Stop(_) => true
    case CleanUp => true
    case Tick(_) => true
  }

  /** The clean-up's filter. */
  predicate Orphaned(s: System)
  {
    s.row.status == Running && s.row.startedAt.Some? && s.row.startedAt.value < s.now - ORPHAN_AFTER
  }

  predicate Stoppable(row: Row)
  {
    row.status == Pending || row.status == Running
  }

  /** One step of task `id`. */
  function Step(id: string, s: System, a: Action): System
  {
    if !Enabled(s, a) then s else
    match a
    case Send => s.(sent := true)
    case Record => s.(recorded := true, row := s.row.(taskId := id))
    case Start => s.(worker := Loaded(s.row))
    case MarkRunning =>
      var copy := AsRunning(s.worker.copy, id, s.now);
      s.(worker := Transferring(copy), row := Save(s.row, copy, RUNNING_COLUMNS))
    case Progress(percent) => s.(row := s.row.(progress := Some(percent)))
    case MarkDone =>
      var copy := AsDone(s.worker.copy, s.now);
      s.(worker := Queueing(copy), row := Save(s.row, copy, DONE_COLUMNS))
    case MarkFailed(message) =>
      s.(worker := Gone, row := Save(s.row, AsFailed(s.worker.copy, message, s.now), FAILED_COLUMNS))
    case QueueingFails(message) =>
      s.(worker := Gone, row := Save(s.row, AsFailed(s.worker.copy, message, s.now), FAILED_COLUMNS))
    case Finish => s.(worker := Gone)
    case Die => s.(worker := Gone)
    case Stop(user) =>
      s.(row := StopRow(s.row, user, s.now),
         revoked := s.revoked || (Stoppable(s.row) && s.row.taskId != ""))
    case CleanUp => if Orphaned(s) then s.(row := s.row.(status := Failed, error := INTERRUPTED)) else s
    case Tick(seconds) => s.(now := s.now + seconds)
  }

  function StepOf(id: string): (System, Action) -> System
  {
    (s, a) => Step(id, s, a)
  }

  /** The state after a run. Steps that are not enabled do nothing. */
  function Run(id: string, s: System, run: seq<Action>): System
  {
    Fold(StepOf(id), s, run)
  }

  // --------------------------------------------------- what every run keeps

  predicate RowRight(id: string, row: Row)
  {
    && (row.taskId == "" || row.taskId == id)
    && (row.status == Running ==> row.startedAt.Some?)
    && (row.status == Done ==> row.startedAt.Some? && row.finishedAt.Some? && row.progress == Some(100))
    && (row.status == Cancelled ==> row.finishedAt.Some? && row.cancelledBy.Some?)
  }

  /** The row together with what the worker can still do to it. */
  predicate Invariant(id: string, s: System)
  {
    && RowRight(id, s.row)
    && (!s.sent ==> s.worker.Waiting? && s.row.taskId == "")
    && (s.worker.Transferring? || s.worker.Queueing? ==> s.row.startedAt.Some?)
    && (s.row.status == Done ==> s.worker.Queueing? || s.worker.Gone?)
  }

  lemma StepKeepsInvariant(id: string, s: System, a: Action)
    requires Invariant(id, s)
    ensures Invariant(id, Step(id, s, a))
  {
  }

  /** In every interleaving: the task id is empty or the dispatched one; running
      implies started; done implies started, finished and 100 percent; cancelled
      implies a finish time and who cancelled. */
  lemma {:induction false} EveryRunKeepsRowRight(id: string, s: System, run: seq<Action>)
    requires Initial(s)
    ensures Invariant(id, Run(id, s, run)) && RowRight(id, Run(id, s, run).row)
  {
    if run != [] {
      EveryRunKeepsRowRight(id, s, run[..|run| - 1]);
      StepKeepsInvariant(id, Run(id, s, run[..|run| - 1]), run[|run| - 1]);
    }
  }

  /** No step other than a stop touches who cancelled the job, and no step at all
      forgets it, nor a start time, a finish time or a recorded task id. */
  lemma StepForgetsNothing(id: string, s: System, a: Action)
    requires Invariant(id, s)
    ensures var next := Step(id, s, a);
            && (!a.Stop? ==> next.row.cancelledBy == s.row.cancelledBy)
            && (s.row.cancelledBy.Some? ==> next.row.cancelledBy.Some?)
            && (s.row.startedAt.Some? ==> next.row.startedAt.Some?)
            && (s.row.finishedAt.Some? ==> next.row.finishedAt.Some?)
            && (s.row.taskId != "" ==> next.row.taskId == s.row.taskId || next.row.taskId == id)
            && (s.revoked ==> next.revoked)
  {
  }

  /** Over any stretch of a run, `cancelled_by` and both times survive once set;
      without a stop in it, `cancelled_by` does not change at all. */
  lemma {:induction false} RunForgetsNothing(id: string, s: System, run: seq<Action>, more: seq<Action>)
    requires Initial(s)
    ensures var a, b := Run(id, s, run).row, Run(id, s, run + more).row;
            && (a.cancelledBy.Some? ==> b.cancelledBy.Some?)
            && (a.startedAt.Some? ==> b.startedAt.Some?)
            && (a.finishedAt.Some? ==> b.finishedAt.Some?)
            && ((forall step | step in more :: !step.Stop?) ==> a.cancelledBy == b.cancelledBy)
    decreases more
  {
    if more == [] {
      assert run + more == run;
    } else {
      var init, last := more[..|more| - 1], more[|more| - 1];
      assert more == init + [last] && run + more == (run + init) + [last];
      RunForgetsNothing(id, s, run, init);
      FoldSnoc(StepOf(id), s, run + init, last);
      EveryRunKeepsRowRight(id, s, run + init);
      StepForgetsNothing(id, Run(id, s, run + init), last);
    }
  }

  // ------------------------------------------------------ what the row tells

  /** Step `i` of the run is the last one of a kind. */
  ghost predicate LastAt(id: string, s: System, run: seq<Action>, kind: (System, Action) -> bool, i: nat)
  {
    && i < |run| && kind(Run(id, s, run[..i]), run[i])
    && forall j | i < j < |run| :: !kind(Run(id, s, run[..j]), run[j])
  }

  ghost predicate Never(id: string, s: System, run: seq<Action>, kind: (System, Action) -> bool)
  {
    forall i | 0 <= i < |run| :: !kind(Run(id, s, run[..i]), run[i])
  }

  /** A column that steps of one kind set and all others leave holds what the last of
      them set. */
  lemma {:induction false} LastOneWins<T>(id: string, s: System, run: seq<Action>, kind: (System, Action) -> bool,
                                          value: (System, Action) -> T, column: Row -> T)
    requires forall t, a | kind(t, a) :: column(Step(id, t, a).row) == value(t, a)
    requires forall t, a | !kind(t, a) :: column(Step(id, t, a).row) == column(t.row)
    ensures forall i: nat | LastAt(id, s, run, kind, i) :: column(Run(id, s, run).row) == value(Run(id, s, run[..i]), run[i])
    ensures Never(id, s, run, kind) ==> column(Run(id, s, run).row) == column(s.row)
  {
    hide Step, LastAt, Never;
    if run == [] {
      NoLastStep(id, s, kind);
    } else {
      var n := |run| - 1;
      var front, last := run[..n], run[n];
      LastOneWins(id, s, front, kind, value, column);
      assert run == front + [last];
      FoldSnoc(StepOf(id), s, front, last);
      assert Run(id, s, run) == Step(id, Run(id, s, front), last);
      LastAtFront(id, s, run, kind);
      assert forall i: nat | i < n :: front[..i] == run[..i] && front[i] == run[i];
    }
  }

  lemma NoLastStep(id: string, s: System, kind: (System, Action) -> bool)
    ensures forall i: nat :: !LastAt(id, s, [], kind, i)
  {
  }

  lemma LastAtFront(id: string, s: System, run: seq<Action>, kind: (System, Action) -> bool)
    requires run != []
    ensures var n := |run| - 1;
            if kind(Run(id, s, run[..n]), run[n])
            then !Never(id, s, run, kind) && forall i: nat | LastAt(id, s, run, kind, i) :: i == n
            else && (Never(id, s, run, kind) ==> Never(id, s, run[..n], kind))
                 && forall i: nat | LastAt(id, s, run, kind, i) :: i < n && LastAt(id, s, run[..n], kind, i)
  {
    hide Run;
    assert forall i: nat | i < |run| :: run[..|run| - 1][..i] == run[..i];
  }

  /** A stop that finds the job pending or running. */
  const CANCELS: (System, Action) -> bool :=
    (s: System, a: Action) => a.Stop? && (s.row.status == Pending || s.row.status == Running)

  const STARTS: (System, Action) -> bool := (s: System, a: Action) => a.MarkRunning? && s.worker.Loaded?

  const COMPLETES: (System, Action) -> bool := (s: System, a: Action) => a.MarkDone? && s.worker.Transferring?

  /** The worker marks the job as failed. */
  const GIVES_UP: (System, Action) -> bool :=
    (s: System, a: Action) => (a.MarkFailed? && s.worker.Transferring?) || (a.QueueingFails? && s.worker.Queueing?)

  /** Clean-up finds the job running for more than an hour. */
  const REAPS: (System, Action) -> bool :=
    (s: System, a: Action) => a.CleanUp? && s.row.status == Running && s.row.startedAt.Some?
                              && s.now - s.row.startedAt.value > 3600

  const FINISHES: (System, Action) -> bool := (s: System, a: Action) => COMPLETES(s, a) || GIVES_UP(s, a) || CANCELS(s, a)

  const FAILS: (System, Action) -> bool := (s: System, a: Action) => GIVES_UP(s, a) || REAPS(s, a)

  const SETS_STATUS: (System, Action) -> bool := (s: System, a: Action) => STARTS(s, a) || FINISHES(s, a) || REAPS(s, a)

  const SETS_PROGRESS: (System, Action) -> bool :=
    (s: System, a: Action) => STARTS(s, a) || COMPLETES(s, a) || (a.Progress? && s.worker.Transferring?)

  /** In every interleaving, who cancelled the job is the user of the last stop that
      found it pending or running, and nobody if there was none. */
  lemma CancelledByTheLastStop(id: string, s: System, run: seq<Action>)
    requires Initial(s)
    ensures forall i: nat | LastAt(id, s, run, CANCELS, i) :: run[i].Stop? && Run(id, s, run).row.cancelledBy == Some(run[i].user)
    ensures Never(id, s, run, CANCELS) ==> Run(id, s, run).row.cancelledBy == None
  {
    LastOneWins(id, s, run, CANCELS, (_: System, a: Action) => if a.Stop? then Some(a.user) else None,
                (row: Row) => row.cancelledBy);
  }

  /** The status is what the last of these steps makes it. */
  lemma StatusOfTheLastWriter(id: string, s: System, run: seq<Action>)
    requires Initial(s)
    ensures forall i: nat | LastAt(id, s, run, SETS_STATUS, i) ::
              Run(id, s, run).row.status == match run[i]
                                            case MarkRunning => Running
                                            case MarkDone => Done
                                            case Stop(_) => Cancelled
                                            case _ => Failed
    ensures Never(id, s, run, SETS_STATUS) ==> Run(id, s, run).row.status == Pending
  {
    LastOneWins(id, s, run, SETS_STATUS,
                (_: System, a: Action) => match a
                                          case MarkRunning => Running
                                          case MarkDone => Done
                                          case Stop(_) => Cancelled
                                          case _ => Failed,
                (row: Row) => row.status);
  }

  /** The dispatcher or the worker writes the task's id. */
  const RECORDS: (System, Action) -> bool := (s: System, a: Action) => STARTS(s, a) || (a.Record? && s.sent && !s.recorded)

  /** The task id is there as soon as one of them has written it. */
  lemma TaskIdOnceRecorded(id: string, s: System, run: seq<Action>)
    requires Initial(s)
    ensures forall i: nat | LastAt(id, s, run, RECORDS, i) :: Run(id, s, run).row.taskId == id
    ensures Never(id, s, run, RECORDS) ==> Run(id, s, run).row.taskId == ""
  {
    LastOneWins(id, s, run, RECORDS, (_: System, _: Action) => id, (row: Row) => row.taskId);
  }

  /** The task is sent once, and its id recorded by the dispatcher once, afterwards. */
  lemma SentThenRecorded(id: string, s: System, a: Action)
    ensures var next := Step(id, s, a);
            && (next.sent <==> s.sent || a.Send?)
            && (next.recorded <==> s.recorded || (a.Record? && s.sent))
            && (s.recorded && a.Record? ==> next == s)
  {
  }

  /** Its start is the time at which the worker last marked it as running. */
  lemma StartedAtTheLastStart(id: string, s: System, run: seq<Action>)
    requires Initial(s)
    ensures forall i: nat | LastAt(id, s, run, STARTS, i) :: Run(id, s, run).row.startedAt == Some(Run(id, s, run[..i]).now)
    ensures Never(id, s, run, STARTS) ==> Run(id, s, run).row.startedAt == None
  {
    LastOneWins(id, s, run, STARTS, (t: System, _: Action) => Some(t.now), (row: Row) => row.startedAt);
  }

  /** Its finish is the time at which the worker last marked it as done or failed, or a
      stop cancelled it; clean-up sets none. */
  lemma FinishedAtTheLastEnd(id: string, s: System, run: seq<Action>)
    requires Initial(s)
    ensures forall i: nat | LastAt(id, s, run, FINISHES, i) :: Run(id, s, run).row.finishedAt == Some(Run(id, s, run[..i]).now)
    ensures Never(id, s, run, FINISHES) ==> Run(id, s, run).row.finishedAt == None
  {
    LastOneWins(id, s, run, FINISHES, (t: System, _: Action) => Some(t.now), (row: Row) => row.finishedAt);
  }

  /** Its error is the text of the last failing writer: the worker's message, or the
      text of clean-up. */
  lemma ErrorOfTheLastFailure(id: string, s: System, run: seq<Action>)
    requires Initial(s)
    ensures forall i: nat | LastAt(id, s, run, FAILS, i) ::
              Run(id, s, run).row.error == if run[i].MarkFailed? || run[i].QueueingFails? then run[i].message
                                           else "TASK INTERRUPTED — worker restarted"
    ensures Never(id, s, run, FAILS) ==> Run(id, s, run).row.error == ""
  {
    LastOneWins(id, s, run, FAILS,
                (_: System, a: Action) => if a.MarkFailed? || a.QueueingFails? then a.message else INTERRUPTED,
                (row: Row) => row.error);
  }

  /** Its percentage is the one reported last, none after a start and 100 when done. */
  lemma ProgressOfTheLastReport(id: string, s: System, run: seq<Action>)
    requires Initial(s)
    ensures forall i: nat | LastAt(id, s, run, SETS_PROGRESS, i) ::
              Run(id, s, run).row.progress == match run[i]
                                              case Progress(percent) => Some(percent)
                                              case MarkDone => Some(100)
                                              case _ => None
    ensures Never(id, s, run, SETS_PROGRESS) ==> Run(id, s, run).row.progress == None
  {
    LastOneWins(id, s, run, SETS_PROGRESS,
                (_: System, a: Action) => match a
                                          case Progress(percent) => Some(percent)
                                          case MarkDone => Some(100)
                                          case _ => None,
                (row: Row) => row.progress);
  }

  // ----------------------------------------------------- who moves the status

  /** A step in which the worker writes a status. */
  predicate WritesStatus(a: Action)
  {
    a.MarkRunning? || a.MarkDone? || a.MarkFailed? || a.QueueingFails?
  }

  /** Stop moves only pending or running jobs, and only to cancelled, and revokes the
      task that such a job has recorded; clean-up
      moves only running jobs, and only to failed; so a terminal status can be
      left by a status write of the worker only. */
  lemma StatusMoves(id: string, s: System, a: Action)
    ensures var from, to := s.row.status, Step(id, s, a).row.status;
            && (a.Stop? ==> to == if from == Pending || from == Running then Cancelled else from)
            && (a.Stop? ==>
                  (Step(id, s, a).revoked <==>
                   s.revoked || ((from == Pending || from == Running) && s.row.taskId != "")))
            && (a.CleanUp? && to != from ==> from == Running && to == Failed)
            && (Terminal(from) && to != from ==> WritesStatus(a))
  {
  }

  // -------------------------------------------------------- terminal safety

  /** What deployment and infrastructure are assumed to guarantee. */
  datatype Assumption =
    | StopSawTaskId
    | RevokedIsSilent
    | CleanUpHitsTheDead
    | QueueingNeverRaises

  predicate Meets(assumption: Assumption, s: System, a: Action)
  {
    match assumption
    case StopSawTaskId => a.Stop? && Stoppable(s.row) ==> s.row.taskId != ""
    case RevokedIsSilent => (WritesStatus(a) || a.Progress?) ==> !s.revoked
    case CleanUpHitsTheDead => a.CleanUp? && Orphaned(s) ==> s.worker.Gone?
    case QueueingNeverRaises => !a.QueueingFails?
  }

  /** Every step of the run that has an effect meets the assumption. */
  predicate RunMeets(assumption: Assumption, id: string, s: System, run: seq<Action>)
  {
    forall i | 0 <= i < |run| ::
      Enabled(Run(id, s, run[..i]), run[i]) ==> Meets(assumption, Run(id, s, run[..i]), run[i])
  }

  predicate MeetsAll(s: System, a: Action)
  {
    Enabled(s, a) ==>
      && Meets(StopSawTaskId, s, a) && Meets(RevokedIsSilent, s, a)
      && Meets(CleanUpHitsTheDead, s, a) && Meets(QueueingNeverRaises, s, a)
  }

  /** Once the status is terminal, the worker can write no status any more. */
  predicate Settled(s: System)
  {
    Terminal(s.row.status) ==> s.revoked || s.worker.Gone? || s.worker.Queueing?
  }

  lemma SettledStep(id: string, s: System, a: Action)
    requires Invariant(id, s) && Settled(s) && MeetsAll(s, a)
    ensures Settled(Step(id, s, a))
    ensures Terminal(s.row.status) ==> Step(id, s, a).row.status == s.row.status
  {
  }

  lemma {:induction false} AlwaysSettled(id: string, s: System, run: seq<Action>)
    requires Initial(s) && forall assumption :: RunMeets(assumption, id, s, run)
    ensures Settled(Run(id, s, run))
    decreases run
  {
    if run != [] {
      var init, last := run[..|run| - 1], run[|run| - 1];
      assert run == init + [last];
      PrefixMeets(id, s, init, last);
      AlwaysSettled(id, s, init);
      EveryRunKeepsRowRight(id, s, init);
      SettledStep(id, Run(id, s, init), last);
    }
  }

  lemma PrefixMeets(id: string, s: System, init: seq<Action>, last: Action)
    requires forall assumption :: RunMeets(assumption, id, s, init + [last])
    ensures forall assumption :: RunMeets(assumption, id, s, init)
    ensures MeetsAll(Run(id, s, init), last)
  {
    var run := init + [last];
    assert run[..|init|] == init;
    forall assumption ensures RunMeets(assumption, id, s, init) {
      assert RunMeets(assumption, id, s, run);
      forall i | 0 <= i < |init| && Enabled(Run(id, s, init[..i]), init[i])
        ensures Meets(assumption, Run(id, s, init[..i]), init[i])
      {
        assert run[..i] == init[..i] && run[i] == init[i];
      }
    }
    forall assumption | Enabled(Run(id, s, init), last)
      ensures Meets(assumption, Run(id, s, init), last)
    {
      assert RunMeets(assumption, id, s, run);
      assert run[|init|] == last;
    }
  }

  /** Done, failed and cancelled are absorbing in every run that meets the four
      assumptions. */
  lemma {:induction false} TerminalIsAbsorbing(id: string, s: System, run: seq<Action>, more: seq<Action>)
    requires Initial(s) && forall assumption :: RunMeets(assumption, id, s, run + more)
    requires Terminal(Run(id, s, run).row.status)
    ensures Run(id, s, run + more).row.status == Run(id, s, run).row.status
    decreases more
  {
    if more == [] {
      assert run + more == run;
    } else {
      var init, last := more[..|more| - 1], more[|more| - 1];
      assert run + more == (run + init) + [last];
      PrefixMeets(id, s, run + init, last);
      TerminalIsAbsorbing(id, s, run, init);
      AlwaysSettled(id, s, run + init);
      EveryRunKeepsRowRight(id, s, run + init);
      SettledStep(id, Run(id, s, run + init), last);
      FoldSnoc(StepOf(id), s, run + init, last);
    }
  }

  // ----------------------------------------- none of the assumptions can be dropped

  predicate OthersMet(broken: Assumption, id: string, s: System, run: seq<Action>)
  {
    forall assumption | assumption != broken :: RunMeets(assumption, id, s, run)
  }

  /** All assumptions but one hold of this step. */
  predicate OthersHold(broken: Assumption, s: System, a: Action)
  {
    Enabled(s, a) ==> forall assumption | assumption != broken :: Meets(assumption, s, a)
  }

  lemma NoStepsYet(broken: Assumption, id: string, s: System)
    ensures OthersMet(broken, id, s, []) && Run(id, s, []) == s
  {
  }

  lemma Extend(broken: Assumption, id: string, s: System, run: seq<Action>, at: System, a: Action)
    requires Run(id, s, run) == at && OthersMet(broken, id, s, run) && OthersHold(broken, at, a)
    ensures OthersMet(broken, id, s, run + [a])
    ensures Run(id, s, run + [a]) == Step(id, at, a)
  {
    hide Step, Meets, Enabled;
    var longer := run + [a];
    FoldSnoc(StepOf(id), s, run, a);
    assert StepOf(id)(at, a) == Step(id, at, a);
    forall assumption | assumption != broken ensures RunMeets(assumption, id, s, longer) {
      assert RunMeets(assumption, id, s, run);
      forall i | 0 <= i < |longer| && Enabled(Run(id, s, longer[..i]), longer[i])
        ensures Meets(assumption, Run(id, s, longer[..i]), longer[i])
      {
        if i < |run| {
          assert longer[..i] == run[..i] && longer[i] == run[i];
        } else {
          assert longer[..i] == run;
        }
      }
    }
  }

  /** A run, keeping all assumptions but one, whose last step leaves a terminal
      status. */
  predicate Breaks(assumption: Assumption, id: string, s: System, run: seq<Action>)
  {
    && run != []
    && OthersMet(assumption, id, s, run)
    && var before := Run(id, s, run[..|run| - 1]).row.status;
       Terminal(before) && Run(id, s, run).row.status != before
  }

  lemma BreaksWithLast(assumption: Assumption, id: string, s: System, run: seq<Action>, at: System, a: Action)
    requires Run(id, s, run) == at && OthersMet(assumption, id, s, run) && OthersHold(assumption, at, a)
    requires Terminal(at.row.status) && Step(id, at, a).row.status != at.row.status
    ensures Breaks(assumption, id, s, run + [a])
  {
    Extend(assumption, id, s, run, at, a);
    assert (run + [a])[..|run|] == run;
  }

  /** A stop between sending the task and recording its id revokes nothing: the
      cancelled job starts. */
  lemma WithoutStopSawTaskId(id: string, s: System)
    requires s == Dispatched(s.now) && id != ""
    ensures exists run :: Breaks(StopSawTaskId, id, s, run)
  {
    hide Run, OthersMet, Breaks;
    NoStepsYet(StopSawTaskId, id, s);
    var s1 := Step(id, s, Send);
    Extend(StopSawTaskId, id, s, [], s, Send);
    var s2 := Step(id, s1, Stop(1));
    Extend(StopSawTaskId, id, s, [] + [Send], s1, Stop(1));
    var s3 := Step(id, s2, Start);
    Extend(StopSawTaskId, id, s, [] + [Send] + [Stop(1)], s2, Start);
    BreaksWithLast(StopSawTaskId, id, s, [] + [Send] + [Stop(1)] + [Start], s3, MarkRunning);
  }

  /** A revoked worker that still writes turns a cancelled job into a done one. */
  lemma WithoutRevokedIsSilent(id: string, s: System)
    requires s == Dispatched(s.now) && id != ""
    ensures exists run :: Breaks(RevokedIsSilent, id, s, run)
  {
    hide Run, OthersMet, Breaks;
    NoStepsYet(RevokedIsSilent, id, s);
    var s1 := Step(id, s, Send);
    Extend(RevokedIsSilent, id, s, [], s, Send);
    var s2 := Step(id, s1, Record);
    Extend(RevokedIsSilent, id, s, [] + [Send], s1, Record);
    var s3 := Step(id, s2, Start);
    Extend(RevokedIsSilent, id, s, [] + [Send] + [Record], s2, Start);
    var s4 := Step(id, s3, MarkRunning);
    Extend(RevokedIsSilent, id, s, [] + [Send] + [Record] + [Start], s3, MarkRunning);
    var s5 := Step(id, s4, Stop(1));
    Extend(RevokedIsSilent, id, s, [] + [Send] + [Record] + [Start] + [MarkRunning], s4, Stop(1));
    BreaksWithLast(RevokedIsSilent, id, s, [] + [Send] + [Record] + [Start] + [MarkRunning] + [Stop(1)], s5, MarkDone);
  }

  /** A transfer of more than an hour is failed by clean-up, then marks itself done. */
  lemma WithoutCleanUpHitsTheDead(id: string, s: System)
    requires s == Dispatched(s.now) && id != ""
    ensures exists run :: Breaks(CleanUpHitsTheDead, id, s, run)
  {
    hide Run, OthersMet, Breaks;
    NoStepsYet(CleanUpHitsTheDead, id, s);
    var s1 := Step(id, s, Send);
    Extend(CleanUpHitsTheDead, id, s, [], s, Send);
    var s2 := Step(id, s1, Start);
    Extend(CleanUpHitsTheDead, id, s, [] + [Send], s1, Start);
    var s3 := Step(id, s2, MarkRunning);
    Extend(CleanUpHitsTheDead, id, s, [] + [Send] + [Start], s2, MarkRunning);
    var s4 := Step(id, s3, Tick(ORPHAN_AFTER + 1));
    Extend(CleanUpHitsTheDead, id, s, [] + [Send] + [Start] + [MarkRunning], s3, Tick(ORPHAN_AFTER + 1));
    var s5 := Step(id, s4, CleanUp);
    Extend(CleanUpHitsTheDead, id, s, [] + [Send] + [Start] + [MarkRunning] + [Tick(ORPHAN_AFTER + 1)], s4, CleanUp);
    BreaksWithLast(CleanUpHitsTheDead, id, s, [] + [Send] + [Start] + [MarkRunning] + [Tick(ORPHAN_AFTER + 1)] + [CleanUp], s5, MarkDone);
  }

  /** Notifications that cannot be queued turn a done job into a failed one. */
  lemma WithoutQueueingNeverRaises(id: string, s: System)
    requires s == Dispatched(s.now) && id != ""
    ensures exists run :: Breaks(QueueingNeverRaises, id, s, run)
  {
    hide Run, OthersMet, Breaks;
    NoStepsYet(QueueingNeverRaises, id, s);
    var s1 := Step(id, s, Send);
    Extend(QueueingNeverRaises, id, s, [], s, Send);
    var s2 := Step(id, s1, Start);
    Extend(QueueingNeverRaises, id, s, [] + [Send], s1, Start);
    var s3 := Step(id, s2, MarkRunning);
    Extend(QueueingNeverRaises, id, s, [] + [Send] + [Start], s2, MarkRunning);
    var s4 := Step(id, s3, MarkDone);
    Extend(QueueingNeverRaises, id, s, [] + [Send] + [Start] + [MarkRunning], s3, MarkDone);
    BreaksWithLast(QueueingNeverRaises, id, s, [] + [Send] + [Start] + [MarkRunning] + [MarkDone], s4, QueueingFails("broker down"));
  }

  /** Each of the four assumptions is needed: without it there is a run, keeping
      the other three, whose last step leaves a terminal status. */
  lemma EachAssumptionIsNeeded(assumption: Assumption, id: string, now: int)
    requires id != ""
    ensures exists run :: Breaks(assumption, id, Dispatched(now), run)
  {
    var s := Dispatched(now);
    match assumption
    case StopSawTaskId => WithoutStopSawTaskId(id, s);
    case RevokedIsSilent => WithoutRevokedIsSilent(id, s);
    case CleanUpHitsTheDead => WithoutCleanUpHitsTheDead(id, s);
    case QueueingNeverRaises => WithoutQueueingNeverRaises(id, s);
  }
}
