/** The transfer-job row, its column-selective writes, and the code that performs
    them: the model's methods, the worker task and the stop view. */
module TransferJobs {
  import opened Text

  datatype Status = Pending | Running | Done | Failed | Cancelled

  /** The columns of a job row that change during its life. */
  datatype Row = Row(
    status: Status, taskId: string, startedAt: Option<int>, finishedAt: Option<int>,
    error: string, cancelledBy: Option<int>, progress: Option<int>)

  datatype Column = STATUS | TASK_ID | STARTED_AT | FINISHED_AT | ERROR | CANCELLED_BY | PROGRESS

  const NEW_ROW := Row(Pending, "", None, None, "", None, None)

  predicate Terminal(status: Status)
  {
    status == Done || status == Failed || status == Cancelled
  }

  /** `save(update_fields=...)`: only the named columns of the copy reach the row. */
  function Save(row: Row, copy: Row, columns: set<Column>): (saved: Row)
    ensures columns == {} ==> saved == row
    ensures STATUS !in columns ==> saved.status == row.status
  {
    Row(if STATUS in columns then copy.status else row.status,
        if TASK_ID in columns then copy.taskId else row.taskId,
        if STARTED_AT in columns then copy.startedAt else row.startedAt,
        if FINISHED_AT in columns then copy.finishedAt else row.finishedAt,
        if ERROR in columns then copy.error else row.error,
        if CANCELLED_BY in columns then copy.cancelledBy else row.cancelledBy,
        if PROGRESS in columns then copy.progress else row.progress)
  }

  // The columns each method of the model saves.
  const RUNNING_COLUMNS := {STATUS, TASK_ID, STARTED_AT, PROGRESS}
  const DONE_COLUMNS := {STATUS, FINISHED_AT, PROGRESS}
  const FAILED_COLUMNS := {STATUS, ERROR, FINISHED_AT}
  const CANCELLED_COLUMNS := {STATUS, CANCELLED_BY, FINISHED_AT}

  // What each method assigns.
  function AsRunning(r: Row, taskId: string, now: int): Row
  {
    r.(status := Running, taskId := taskId, startedAt := Some(now), progress := None)
  }

  function AsDone(r: Row, now: int): Row
  {
    r.(status := Done, finishedAt := Some(now), progress := Some(100))
  }

  function AsFailed(r: Row, message: string, now: int): Row
  {
    r.(status := Failed, error := message, finishedAt := Some(now))
  }

  function AsCancelled(r: Row, user: int, now: int): Row
  {
    r.(status := Cancelled, cancelledBy := Some(user), finishedAt := Some(now))
  }

  /** Every method saves exactly the columns it assigns: however stale the copy
      it is called on, the row changes as if the assignment were made on it. */
  lemma StaleCopyIsHarmless(row: Row, copy: Row, taskId: string, message: string, user: int, now: int)
    ensures Save(row, AsRunning(copy, taskId, now), RUNNING_COLUMNS) == AsRunning(row, taskId, now)
    ensures Save(row, AsDone(copy, now), DONE_COLUMNS) == AsDone(row, now)
    ensures Save(row, AsFailed(copy, message, now), FAILED_COLUMNS) == AsFailed(row, message, now)
    ensures Save(row, AsCancelled(copy, user, now), CANCELLED_COLUMNS) == AsCancelled(row, user, now)
  {
  }

  /** The database row. */
  class JobTable {
    var row: Row

    constructor ()
      ensures row == NEW_ROW
    {
      row := NEW_ROW;
    }
  }

  /** An in-memory model instance: a copy of the row taken when it was loaded. */
  class TransferJob {
    const table: JobTable
    var copy: Row

    constructor Load(table: JobTable)
      ensures this.table == table && copy == table.row
    {
      this.table := table;
      copy := table.row;
    }

    method MarkRunning(taskId: string, now: int)
      modifies this, table
      ensures copy == old(copy).(status := Running, taskId := taskId, startedAt := Some(now), progress := None)
      ensures table.row
           == old(table.row).(status := Running, taskId := taskId, startedAt := Some(now), progress := None)
    {
      copy := copy.(status := Running);
      copy := copy.(taskId := taskId);
      copy := copy.(startedAt := Some(now));
      copy := copy.(progress := None);
      table.row := Save(table.row, copy, RUNNING_COLUMNS);
    }

    method MarkDone(now: int)
      modifies this, table
      ensures copy == old(copy).(status := Done, finishedAt := Some(now), progress := Some(100))
      ensures table.row == old(table.row).(status := Done, finishedAt := Some(now), progress := Some(100))
    {
      copy := copy.(status := Done);
      copy := copy.(finishedAt := Some(now));
      copy := copy.(progress := Some(100));
      table.row := Save(table.row, copy, DONE_COLUMNS);
    }

    /** Writes the row only; the copy keeps its old percentage. */
    method UpdateProgress(percent: int)
      modifies table
      ensures table.row == old(table.row).(progress := Some(percent))
    {
      table.row := table.row.(progress := Some(percent));
    }

    method MarkFailed(message: string, now: int)
      modifies this, table
      ensures copy == old(copy).(status := Failed, error := message, finishedAt := Some(now))
      ensures table.row == old(table.row).(status := Failed, error := message, finishedAt := Some(now))
    {
      copy := copy.(status := Failed);
      copy := copy.(error := message);
      copy := copy.(finishedAt := Some(now));
      table.row := Save(table.row, copy, FAILED_COLUMNS);
    }

    method MarkCancelled(user: int, now: int)
      modifies this, table
      ensures copy == old(copy).(status := Cancelled, cancelledBy := Some(user), finishedAt := Some(now))
      ensures table.row == old(table.row).(status := Cancelled, cancelledBy := Some(user), finishedAt := Some(now))
    {
      copy := copy.(status := Cancelled);
      copy := copy.(cancelledBy := Some(user));
      copy := copy.(finishedAt := Some(now));
      table.row := Save(table.row, copy, CANCELLED_COLUMNS);
    }
  }

  /** What `transfer_stop` does to the row. */
  function StopRow(row: Row, user: int, now: int): Row
  {
    if row.status == Pending || row.status == Running then AsCancelled(row, user, now) else row
  }

  /** `transfer_stop`, under the row lock: only a pending or running job is cancelled,
      by that user and at that time, and its recorded task revoked. */
  method TransferStop(table: JobTable, user: int, now: int) returns (revoked: Option<string>)
    modifies table
    ensures old(table.row).status in {Pending, Running} ==>
      && table.row == old(table.row).(status := Cancelled, cancelledBy := Some(user), finishedAt := Some(now))
      && revoked == if old(table.row).taskId == "" then None else Some(old(table.row).taskId)
    ensures old(table.row).status in {Done, Failed, Cancelled} ==> table.row == old(table.row) && revoked == None
    ensures table.row == StopRow(old(table.row), user, now)
  {
    revoked := None;
    var job := new TransferJob.Load(table);
    if job.copy.status != Pending && job.copy.status != Running {
      return;
    }
    if job.copy.taskId != "" {
      revoked := Some(job.copy.taskId);
    }
    job.MarkCancelled(user, now);
  }

  /** The percentages that reach the database: a report equal to the one before
      it is not written. */
  function Changes(percents: seq<int>): seq<int>
  {
    if percents == [] then []
    else
      var init, last := percents[..|percents| - 1], percents[|percents| - 1];
      if init != [] && init[|init| - 1] == last then Changes(init) else Changes(init) + [last]
  }

  /** The progress callback of the worker task over the reports of one transfer. */
  method ReportProgress(job: TransferJob, percents: seq<int>) returns (written: seq<int>)
    modifies job.table
    ensures written == Changes(percents)
    ensures job.table.row ==
            if percents == [] then old(job.table.row)
            else old(job.table.row).(progress := Some(percents[|percents| - 1]))
  {
    written := [];
    var lastPercent: Option<int> := None;
    for i := 0 to |percents|
      invariant written == Changes(percents[..i])
      invariant lastPercent == if i == 0 then None else Some(percents[i - 1])
      invariant job.table.row ==
                if i == 0 then old(job.table.row) else old(job.table.row).(progress := Some(percents[i - 1]))
    {
      assert percents[..i + 1][..i] == percents[..i];
      if lastPercent != Some(percents[i]) {
        lastPercent := Some(percents[i]);
        job.UpdateProgress(percents[i]);
        written := written + [percents[i]];
      }
    }
    assert percents[..|percents|] == percents;
  }

  /** How the transfer itself ended: the message is the text of the exception. */
  datatype Ending = Completed | TransferError(message: string) | Unexpected(message: string)

  const UNEXPECTED := "UNEXPECTED ERROR — "

  /** `execute_transfer` on a job that was found, without other writers: the row by
      the way the transfer ended. `queueing` is the text of an exception raised
      while the notifications are queued, if there is one. */
  method ExecuteTransfer(job: TransferJob, taskId: string, percents: seq<int>, ending: Ending,
                         queueing: Option<string>, started: int, ended: int) returns (written: seq<int>)
    modifies job, job.table
    ensures written == Changes(percents)
    ensures ending.Completed? && queueing == None ==>
      job.table.row == Row(Done, taskId, Some(started), Some(ended), old(job.table.row).error,
                           old(job.table.row).cancelledBy, Some(100))
    ensures ending.Completed? && queueing.Some? ==>
      job.table.row == Row(Failed, taskId, Some(started), Some(ended), UNEXPECTED + queueing.value,
                           old(job.table.row).cancelledBy, Some(100))
    ensures !ending.Completed? ==>
      var percent := if percents == [] then None else Some(percents[|percents| - 1]);
      job.table.row == Row(Failed, taskId, Some(started), Some(ended),
                           if ending.TransferError? then ending.message else UNEXPECTED + ending.message,
                           old(job.table.row).cancelledBy, percent)
  {
    job.MarkRunning(taskId, started);
    written := ReportProgress(job, percents);
    match ending
    case Completed =>
      job.MarkDone(ended);
      if queueing.Some? {
        job.MarkFailed(UNEXPECTED + queueing.value, ended);
      }
    case TransferError(message) => job.MarkFailed(message, ended);
    case Unexpected(message) => job.MarkFailed(UNEXPECTED + message, ended);
  }

  /** No percentage is written twice in a row, and the last one written is the
      last one reported. */
  lemma {:induction false} ChangesAlternate(percents: seq<int>)
    ensures var written := Changes(percents);
            && (forall i | 0 < i < |written| :: written[i] != written[i - 1])
            && (percents != [] ==> written != [] && written[|written| - 1] == percents[|percents| - 1])
  {
    if percents != [] { ChangesAlternate(percents[..|percents| - 1]); }
  }
}
