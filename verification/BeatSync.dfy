/** Schedules, the periodic tasks derived from them, and the jobs these start. */
module BeatSync {
  import opened Text
  import opened Streams

  datatype Flow = Flow(sourcePath: string, destPath: string)
  datatype Schedule = Schedule(owner: int, flow: Option<nat>, cronExpr: string, enabled: bool, lastRun: Option<int>)

  /** `scheduled` is the `scheduled_id` among the task's keyword arguments. */
  datatype PeriodicTask = PeriodicTask(crontab: seq<string>, task: string, scheduled: Option<nat>, enabled: bool)

  datatype Job = Job(owner: int, flow: nat, sourcePath: string, destPath: string)

  datatype State = State(
    flows: map<nat, Flow>,
    schedules: map<nat, Schedule>, nextId: nat,
    tasks: map<string, PeriodicTask>, crontabs: set<seq<string>>,
    queue: seq<nat>, jobs: seq<Job>
  )

  const EXECUTE := "transfers.execute"
  const MAX_CRON := 100

  /** `s.split()`. */
  function Words(s: string): (words: seq<string>)
    ensures forall w | w in words :: w != "" && forall c | c in w :: !IsSpace(c)
    ensures s != "" && !IsSpace(s[0]) ==> words != []
  {
    if s == "" then []
    else if IsSpace(s[0]) then Words(s[1..])
    else
      var rest := Words(s[1..]);
      if |s| == 1 || IsSpace(s[1]) then [[s[0]]] + rest
      else
        assert rest[0] in rest;
        assert forall w | w in rest[1..] :: w in rest;
        [[s[0]] + rest[0]] + rest[1..]
  }

  lemma {:induction false} WordsSplitAtBlanks(a: string, c: char, b: string)
    requires IsSpace(c)
    ensures Words(a + [c] + b) == Words(a) + Words(b)
  {
    var s := a + [c] + b;
    if a == "" {
      assert s[1..] == b && [c] + b == s;
    } else {
      assert s[1..] == a[1..] + [c] + b && s[0] == a[0];
      WordsSplitAtBlanks(a[1..], c, b);
      assert |a| > 1 ==> s[1] == a[1];
      assert |a| == 1 ==> s[1] == c;
    }
  }

  lemma {:induction false} WordWithoutBlanks(w: string)
    requires w != "" && forall c | c in w :: !IsSpace(c)
    ensures Words(w) == [w]
  {
    assert w[0] in w;
    if |w| > 1 {
      assert w[1] in w && forall c | c in w[1..] :: c in w;
      WordWithoutBlanks(w[1..]);
      assert w == [w[0]] + w[1..];
    } else {
      assert w[1..] == "" && w == [w[0]] && Words("") == [];
    }
  }

  /** The words of any text, in order: no words in no text, what stands on both sides
      of a blank taken apart, and a text without blanks as its own word. No other
      function does this. */
  lemma WordsAreSplitAtBlanks()
    ensures Words("") == []
    ensures forall a, c, b | IsSpace(c) :: Words(a + [c] + b) == Words(a) + Words(b)
    ensures forall w: string | w != "" && forall c | c in w :: !IsSpace(c) :: Words(w) == [w]
  {
    forall a, c, b | IsSpace(c) ensures Words(a + [c] + b) == Words(a) + Words(b) { WordsSplitAtBlanks(a, c, b); }
    forall w: string | w != "" && forall c | c in w :: !IsSpace(c) ensures Words(w) == [w] { WordWithoutBlanks(w); }
  }

  function TaskName(id: nat): string
  {
    "scheduled_transfer_" + Digits(id)
  }

  lemma TaskNamesDiffer(a: nat, b: nat)
    requires TaskName(a) == TaskName(b)
    ensures a == b
  {
    assert Digits(a) == TaskName(a)[19..] == TaskName(b)[19..] == Digits(b);
    DigitsInjective(a, b);
  }

  // ------------------------------------------------------------- the views

  /** What the form accepts: a flow that exists and five cron fields. */
  predicate FormValid(flows: map<nat, Flow>, flow: nat, cron: string)
  {
    flow in flows && |Strip(cron)| <= MAX_CRON && |Words(Strip(cron))| == 5
  }

  function TaskOf(id: nat, sched: Schedule): PeriodicTask
  {
    PeriodicTask(Words(sched.cronExpr), EXECUTE, Some(id), sched.enabled)
  }

  /** A stored schedule with its periodic task. */
  function Put(s: State, id: nat, sched: Schedule): State
  {
    s.(schedules := s.schedules[id := sched],
       tasks := s.tasks[TaskName(id) := TaskOf(id, sched)],
       crontabs := s.crontabs + {Words(sched.cronExpr)})
  }

  function Created(s: State, owner: int, flow: nat, cron: string, enabled: bool): State
  {
    if !FormValid(s.flows, flow, cron) then s
    else Put(s.(nextId := s.nextId + 1), s.nextId, Schedule(owner, Some(flow), Strip(cron), enabled, None))
  }

  function Edited(s: State, id: nat, flow: nat, cron: string, enabled: bool): State
  {
    if id !in s.schedules || !FormValid(s.flows, flow, cron) then s
    else Put(s, id, s.schedules[id].(flow := Some(flow), cronExpr := Strip(cron), enabled := enabled))
  }

  function Toggled(s: State, id: nat): State
  {
    if id !in s.schedules then s
    else Put(s, id, s.schedules[id].(enabled := !s.schedules[id].enabled))
  }

  function Deleted(s: State, id: nat): State
  {
    if id !in s.schedules then s
    else s.(schedules := s.schedules - {id}, tasks := s.tasks - {TaskName(id)})
  }

  /** A flow's deletion takes its schedules along, and not their periodic tasks. */
  function WithoutFlow(s: State, flow: nat): State
  {
    s.(flows := s.flows - {flow},
       schedules := map id | id in s.schedules && s.schedules[id].flow != Some(flow) :: s.schedules[id])
  }

  // -------------------------------------------------------- beat and worker

  /** Beat sends an enabled task when it is due. */
  function Sent(s: State, name: string): State
  {
    if name in s.tasks && s.tasks[name].enabled && s.tasks[name].task == EXECUTE && s.tasks[name].scheduled.Some?
    then s.(queue := s.queue + [s.tasks[name].scheduled.value])
    else s
  }

  /** The schedule from which the task may create a job. */
  predicate Runnable(s: State, id: nat)
  {
    id in s.schedules && s.schedules[id].enabled
  }

  /** The job of a schedule; without a flow the task raises an exception. */
  function JobOf(s: State, id: nat): Option<Job>
    requires id in s.schedules
  {
    var sched := s.schedules[id];
    if sched.flow.Some? && sched.flow.value in s.flows then
      var flow := s.flows[sched.flow.value];
      Some(Job(sched.owner, sched.flow.value, flow.sourcePath, flow.destPath))
    else None
  }

  /** The worker takes message `i` off the queue. */
  function Worked(s: State, i: nat, now: int): State
  {
    if i >= |s.queue| then s
    else
      var id, rest := s.queue[i], s.(queue := s.queue[..i] + s.queue[i + 1..]);
      if Runnable(s, id) && JobOf(s, id).Some? then
        rest.(jobs := s.jobs + [JobOf(s, id).value],
              schedules := s.schedules[id := s.schedules[id].(lastRun := Some(now))])
      else rest
  }

  // -------------------------------------------------------------- the class

  class Scheduler {
    var flows: map<nat, Flow>
    var schedules: map<nat, Schedule>
    var nextId: nat
    var tasks: map<string, PeriodicTask>
    var crontabs: set<seq<string>>
    var queue: seq<nat>
    var jobs: seq<Job>

    function Current(): State
      reads this
    {
      State(flows, schedules, nextId, tasks, crontabs, queue, jobs)
    }

    constructor (flows: map<nat, Flow>, others: map<string, PeriodicTask>)
      ensures Current() == Start(flows, others)
    {
      this.flows, this.tasks := flows, others;
      schedules, nextId, crontabs, queue, jobs := map[], 0, {}, [], [];
    }

    /** Upserts the periodic task; raises when there are not five fields. */
    method SyncCeleryBeat(id: nat, sched: Schedule) returns (ok: bool)
      modifies this`tasks, this`crontabs
      ensures ok <==> |Words(sched.cronExpr)| == 5
      ensures tasks == if ok then old(tasks)[TaskName(id) := TaskOf(id, sched)] else old(tasks)
      ensures crontabs == if ok then old(crontabs) + {Words(sched.cronExpr)} else old(crontabs)
    {
      var fields := Words(sched.cronExpr);
      if |fields| != 5 { return false; }
      crontabs := crontabs + {fields};
      tasks := tasks[TaskName(id) := PeriodicTask(fields, EXECUTE, Some(id), sched.enabled)];
      ok := true;
    }

    method DeleteCeleryBeat(id: nat)
      modifies this`tasks
      ensures tasks == old(tasks) - {TaskName(id)}
    {
      tasks := tasks - {TaskName(id)};
    }

    method Create(owner: int, flow: nat, cron: string, enabled: bool) returns (ok: bool)
      modifies this
      ensures Current() == Created(old(Current()), owner, flow, cron, enabled)
      ensures ok <==> flow in old(flows) && |Strip(cron)| <= 100 && |Words(cron)| == 5
    {
      WordsOfStrip(cron);
      ok := FormValid(flows, flow, cron);
      if ok {
        var sched := Schedule(owner, Some(flow), Strip(cron), enabled, None);
        var id := nextId;
        schedules, nextId := schedules[id := sched], nextId + 1;
        var _ := SyncCeleryBeat(id, sched);
      }
    }

    method Edit(id: nat, flow: nat, cron: string, enabled: bool) returns (ok: bool)
      modifies this
      ensures Current() == Edited(old(Current()), id, flow, cron, enabled)
      ensures ok <==> id in old(schedules) && flow in old(flows) && |Strip(cron)| <= 100 && |Words(cron)| == 5
    {
      WordsOfStrip(cron);
      ok := id in schedules && FormValid(flows, flow, cron);
      if ok {
        var sched := schedules[id].(flow := Some(flow), cronExpr := Strip(cron), enabled := enabled);
        schedules := schedules[id := sched];
        var _ := SyncCeleryBeat(id, sched);
      }
    }

    /** In a reachable state the stored expression has five fields, so that the
        upsert after the save does not raise. */
    method Toggle(id: nat) returns (found: bool)
      requires Agrees(Current())
      modifies this
      ensures Current() == Toggled(old(Current()), id)
      ensures found == (id in old(schedules))
      ensures found ==>
        var flipped := old(schedules)[id].(enabled := !old(schedules)[id].enabled);
        && schedules == old(schedules)[id := flipped]
        && TaskName(id) in tasks && tasks[TaskName(id)] == old(tasks)[TaskName(id)].(enabled := flipped.enabled)
    {
      found := id in schedules;
      if found {
        var sched := schedules[id].(enabled := !schedules[id].enabled);
        schedules := schedules[id := sched];
        var _ := SyncCeleryBeat(id, sched);
      }
    }

    method Delete(id: nat) returns (found: bool)
      modifies this
      ensures Current() == Deleted(old(Current()), id)
      ensures found == (id in old(schedules))
      ensures found ==> schedules == old(schedules) - {id} && tasks == old(tasks) - {TaskName(id)}
      ensures !found ==> schedules == old(schedules) && tasks == old(tasks)
    {
      found := id in schedules;
      if found {
        DeleteCeleryBeat(id);
        schedules := schedules - {id};
      }
    }

    method DeleteFlow(flow: nat)
      modifies this
      ensures Current() == WithoutFlow(old(Current()), flow)
    {
      flows := flows - {flow};
      schedules := map id | id in schedules && schedules[id].flow != Some(flow) :: schedules[id];
    }

    method SendDue(name: string)
      modifies this
      ensures Current() == Sent(old(Current()), name)
      ensures name in tasks && tasks[name].enabled && tasks[name].task == "transfers.execute" && tasks[name].scheduled.Some? ==>
        queue == old(queue) + [tasks[name].scheduled.value]
      ensures name !in tasks || !tasks[name].enabled ==> queue == old(queue)
    {
      if name in tasks && tasks[name].enabled && tasks[name].task == EXECUTE && tasks[name].scheduled.Some? {
        queue := queue + [tasks[name].scheduled.value];
      }
    }

    /** Looks the schedule up again, enabled ones only, whatever the task says. */
    method CreateJobFromSchedule(id: nat, now: int) returns (job: Option<Job>)
      modifies this`jobs, this`schedules
      ensures job.Some? <==>
        id in old(schedules) && old(schedules)[id].enabled
        && old(schedules)[id].flow.Some? && old(schedules)[id].flow.value in flows
      ensures job.Some? ==>
        var sched := old(schedules)[id];
        var flow := flows[sched.flow.value];
        && job.value == Job(sched.owner, sched.flow.value, flow.sourcePath, flow.destPath)
        && jobs == old(jobs) + [job.value]
        && schedules == old(schedules)[id := old(schedules)[id].(lastRun := Some(now))]
      ensures job.None? ==> jobs == old(jobs) && schedules == old(schedules)
    {
      if id !in schedules || !schedules[id].enabled { return None; }
      var sched := schedules[id];
      if sched.flow == None || sched.flow.value !in flows { return None; }
      var flow := flows[sched.flow.value];
      var created := Job(sched.owner, sched.flow.value, flow.sourcePath, flow.destPath);
      jobs := jobs + [created];
      schedules := schedules[id := sched.(lastRun := Some(now))];
      job := Some(created);
    }

    method Work(i: nat, now: int)
      modifies this
      ensures Current() == Worked(old(Current()), i, now)
    {
      if i < |queue| {
        var id := queue[i];
        queue := queue[..i] + queue[i + 1..];
        var _ := CreateJobFromSchedule(id, now);
      }
    }
  }

  // ------------------------------------------------------------------- runs

  datatype Action =
    | Create(owner: int, flow: nat, cron: string, enabled: bool)
    | Edit(id: nat, flow: nat, cron: string, enabled: bool)
    | Toggle(id: nat)
    | Delete(id: nat)
    | AddFlow(flow: nat, paths: Flow)
    | DeleteFlow(flow: nat)
    | SendDue(name: string)
    | Work(i: nat, now: int)

  function Step(s: State, a: Action): State
  {
    match a
    case Create(owner, flow, cron, enabled) => Created(s, owner, flow, cron, enabled)
    case Edit(id, flow, cron, enabled) => Edited(s, id, flow, cron, enabled)
    case Toggle(id) => Toggled(s, id)
    case Delete(id) => Deleted(s, id)
    case AddFlow(flow, paths) => s.(flows := s.flows[flow := paths])
    case DeleteFlow(flow) => WithoutFlow(s, flow)
    case SendDue(name) => Sent(s, name)
    case Work(i, now) => Worked(s, i, now)
  }

  /** The state before the first schedule; other periodic tasks may exist. */
  function Start(flows: map<nat, Flow>, others: map<string, PeriodicTask>): State
  {
    State(flows, map[], 0, others, {}, [], [])
  }

  /** Other periodic tasks do not carry a schedule's id, nor one of its names. */
  ghost predicate Foreign(others: map<string, PeriodicTask>)
  {
    && (forall name | name in others :: others[name].scheduled == None)
    && (forall id: nat :: TaskName(id) !in others)
  }

  function Run(s: State, run: seq<Action>): State
  {
    Fold(Step, s, run)
  }

  /** Each schedule has its periodic task, with its five fields, its id and its
      enabled flag; each task that carries an id bears that id's name, and the id
      was given out; each schedule's flow exists. */
  predicate Agrees(s: State)
  {
    && (forall id | id in s.schedules ::
          && id < s.nextId
          && TaskName(id) in s.tasks && s.tasks[TaskName(id)] == TaskOf(id, s.schedules[id])
          && |s.tasks[TaskName(id)].crontab| == 5 && s.tasks[TaskName(id)].crontab in s.crontabs
          && s.schedules[id].flow.Some? && s.schedules[id].flow.value in s.flows)
    && (forall name | name in s.tasks && s.tasks[name].scheduled.Some? ::
          s.tasks[name].scheduled.value < s.nextId && name == TaskName(s.tasks[name].scheduled.value))
  }

  lemma PutKeepsAgreement(s: State, id: nat, sched: Schedule)
    requires Agrees(s) && id < s.nextId && |Words(sched.cronExpr)| == 5
    requires sched.flow.Some? && sched.flow.value in s.flows
    ensures Agrees(Put(s, id, sched))
  {
    hide Words, TaskName;
    forall other: nat | TaskName(other) == TaskName(id) ensures other == id { TaskNamesDiffer(other, id); }
  }

  lemma DeleteKeepsAgreement(s: State, id: nat)
    requires Agrees(s)
    ensures Agrees(Deleted(s, id))
  {
    hide Words, TaskName;
    forall other: nat | TaskName(other) == TaskName(id) ensures other == id { TaskNamesDiffer(other, id); }
  }

  lemma StepKeepsAgreement(s: State, a: Action)
    requires Agrees(s)
    ensures Agrees(Step(s, a))
  {
    hide Words, TaskName, Strip, Put, Deleted, Agrees;
    match a
    case Create(owner, flow, cron, enabled) =>
      NextIdKeepsAgreement(s);
      if FormValid(s.flows, flow, cron) {
        PutKeepsAgreement(s.(nextId := s.nextId + 1), s.nextId, Schedule(owner, Some(flow), Strip(cron), enabled, None));
      }
    case Edit(id, flow, cron, enabled) =>
      AgreedSchedules(s);
      if id in s.schedules && FormValid(s.flows, flow, cron) {
        PutKeepsAgreement(s, id, s.schedules[id].(flow := Some(flow), cronExpr := Strip(cron), enabled := enabled));
      }
    case Toggle(id) =>
      AgreedSchedules(s);
      if id in s.schedules {
        PutKeepsAgreement(s, id, s.schedules[id].(enabled := !s.schedules[id].enabled));
      }
    case Delete(id) => DeleteKeepsAgreement(s, id);
    case _ => OtherStepsKeepAgreement(s, a);
  }

  lemma NextIdKeepsAgreement(s: State)
    requires Agrees(s)
    ensures Agrees(s.(nextId := s.nextId + 1))
  {
    hide Words, TaskName;
  }

  lemma AgreedSchedules(s: State)
    requires Agrees(s)
    ensures forall id | id in s.schedules ::
              && id < s.nextId && |Words(s.schedules[id].cronExpr)| == 5
              && s.schedules[id].flow.Some? && s.schedules[id].flow.value in s.flows
  {
    hide Words, TaskName;
  }

  lemma OtherStepsKeepAgreement(s: State, a: Action)
    requires Agrees(s) && (a.AddFlow? || a.DeleteFlow? || a.SendDue? || a.Work?)
    ensures Agrees(Step(s, a))
  {
    hide Words, TaskName, Strip;
  }

  lemma {:induction false} AlwaysAgrees(flows: map<nat, Flow>, others: map<string, PeriodicTask>, run: seq<Action>)
    requires Foreign(others)
    ensures Agrees(Run(Start(flows, others), run))
  {
    if run != [] {
      AlwaysAgrees(flows, others, run[..|run| - 1]);
      StepKeepsAgreement(Run(Start(flows, others), run[..|run| - 1]), run[|run| - 1]);
    }
  }

  /** After any sequence of actions, exactly one periodic task carries a schedule's
      id, and it has the schedule's cron fields, of which there are five, and its
      enabled flag. */
  lemma ExactlyOneTask(flows: map<nat, Flow>, others: map<string, PeriodicTask>, run: seq<Action>, id: nat)
    requires Foreign(others) && id in Run(Start(flows, others), run).schedules
    ensures var s := Run(Start(flows, others), run);
            && |Words(s.schedules[id].cronExpr)| == 5
            && forall name | name in s.tasks ::
                 s.tasks[name].scheduled == Some(id) <==> name == TaskName(id)
    ensures var s := Run(Start(flows, others), run);
            && TaskName(id) in s.tasks
            && s.tasks[TaskName(id)] == TaskOf(id, s.schedules[id])
  {
    hide Words, TaskName;
    AlwaysAgrees(flows, others, run);
  }

  lemma {:induction false} WordsOfBlankEnd(s: string)
    requires s != "" && IsSpace(s[|s| - 1])
    ensures Words(s) == Words(s[..|s| - 1])
  {
    var front := s[..|s| - 1];
    if front == "" {
      assert s[1..] == "";
    } else {
      WordsOfBlankEnd(s[1..]);
      assert s[1..][..|s| - 2] == front[1..];
    }
  }

  /** Stripping does not change what an expression splits into. */
  lemma {:induction false} WordsOfStrip(s: string)
    ensures Words(Strip(s)) == Words(s)
    decreases |s|
  {
    if s != "" {
      if IsSpace(s[0]) {
        WordsOfStrip(s[1..]);
      } else if IsSpace(s[|s| - 1]) {
        WordsOfStrip(s[..|s| - 1]);
        WordsOfBlankEnd(s);
      }
    }
  }

  /** Everything but the schedule of that id, and its task, is as before. */
  predicate OnlyTouches(s: State, s': State, id: nat)
  {
    && s'.schedules - {id} == s.schedules - {id} && s'.tasks - {TaskName(id)} == s.tasks - {TaskName(id)}
    && s'.flows == s.flows && s'.queue == s.queue && s'.jobs == s.jobs
  }

  /** What a user enters reaches beat: an accepted creation or edit leaves a task
      with the fields of the expression as typed and with the flag as ticked, for
      a schedule of the chosen flow, and touches no other schedule or task. */
  lemma FormReachesBeat(s: State, id: nat, owner: int, flow: nat, cron: string, enabled: bool)
    requires FormValid(s.flows, flow, cron)
    ensures var s' := Created(s, owner, flow, cron, enabled);
            && OnlyTouches(s, s', s.nextId)
            && s.nextId in s'.schedules && s'.schedules[s.nextId].owner == owner
            && s'.schedules[s.nextId].flow == Some(flow)
            && TaskName(s.nextId) in s'.tasks
            && s'.tasks[TaskName(s.nextId)] == PeriodicTask(Words(cron), EXECUTE, Some(s.nextId), enabled)
    ensures id in s.schedules ==>
            var s' := Edited(s, id, flow, cron, enabled);
            && OnlyTouches(s, s', id)
            && id in s'.schedules && s'.schedules[id].owner == s.schedules[id].owner
            && s'.schedules[id].flow == Some(flow)
            && TaskName(id) in s'.tasks
            && s'.tasks[TaskName(id)] == PeriodicTask(Words(cron), EXECUTE, Some(id), enabled)
  {
    hide Words, Strip, TaskName;
    WordsOfStrip(cron);
  }

  /** Toggling twice restores the schedule, and its task agrees again. */
  lemma ToggleTwice(s: State, id: nat)
    requires Agrees(s)
    ensures Toggled(Toggled(s, id), id) == s
  {
    hide Words, TaskName;
    if id in s.schedules {
      var twice := Toggled(Toggled(s, id), id);
      assert twice.schedules == s.schedules;
      assert twice.tasks == s.tasks;
      assert twice.crontabs == s.crontabs;
    }
  }

  // ------------------------------------------------------------ stale entries

  /** Periodic tasks whose schedule is gone. */
  function Stale(s: State): set<string>
  {
    set name | name in s.tasks && s.tasks[name].scheduled.Some? && s.tasks[name].scheduled.value !in s.schedules
  }

  /** Only the deletion of a flow makes a periodic task stale. */
  lemma OnlyCascadesGoStale(s: State, a: Action)
    requires Agrees(s) && !a.DeleteFlow?
    ensures Stale(Step(s, a)) <= Stale(s)
  {
    hide Words, TaskName, Strip;
    match a
    case Delete(id) =>
      if id in s.schedules {
        forall name | name in Stale(Deleted(s, id)) ensures name in Stale(s) {
          assert name != TaskName(id) && s.tasks[name].scheduled != Some(id);
        }
      }
    case _ =>
  }

  /** The deletion of a flow takes exactly its schedules along, and leaves exactly their
      tasks behind. */
  lemma CascadeLeavesItsTasks(s: State, flow: nat)
    requires Agrees(s)
    ensures var s' := WithoutFlow(s, flow);
            && flow !in s'.flows && s'.flows.Keys == s.flows.Keys - {flow} && s'.tasks == s.tasks
            && (forall id :: id in s'.schedules <==> id in s.schedules && s.schedules[id].flow != Some(flow))
            && (forall id | id in s'.schedules :: s'.schedules[id] == s.schedules[id])
    ensures Stale(WithoutFlow(s, flow)) == Stale(s)
              + set id | id in s.schedules && s.schedules[id].flow == Some(flow) :: TaskName(id)
  {
    hide Words, TaskName;
    var s' := WithoutFlow(s, flow);
    forall id | id in s.schedules && s.schedules[id].flow == Some(flow) ensures TaskName(id) in Stale(s') {
      assert s.tasks[TaskName(id)].scheduled == Some(id);
    }
    forall name | name in Stale(s') && name !in Stale(s)
      ensures name in set id | id in s.schedules && s.schedules[id].flow == Some(flow) :: TaskName(id)
    {
      var id := s.tasks[name].scheduled.value;
      assert id in s.schedules && name == TaskName(id);
    }
  }

  lemma {:induction false} NoStaleWithoutCascade(flows: map<nat, Flow>, others: map<string, PeriodicTask>, run: seq<Action>)
    requires Foreign(others) && forall a | a in run :: !a.DeleteFlow?
    ensures Stale(Run(Start(flows, others), run)) == {}
  {
    if run != [] {
      var front, last := run[..|run| - 1], run[|run| - 1];
      assert last in run && run == front + [last];
      NoStaleWithoutCascade(flows, others, front);
      AlwaysAgrees(flows, others, front);
      OnlyCascadesGoStale(Run(Start(flows, others), front), last);
    }
  }

  // ------------------------------------------------------------------ job safety

  /** Whatever the periodic tasks and the queue say, a step that adds a job adds one,
      with the owner of a schedule that exists and is enabled at that moment and the
      paths of its flow; and a message for such a schedule always adds it, in a reachable state. */
  lemma JobsNeedEnabledSchedules(s: State, a: Action)
    ensures var s' := Step(s, a);
            s'.jobs != s.jobs ==>
              && a.Work? && a.i < |s.queue| && s.queue[a.i] in s.schedules
              && var sched := s.schedules[s.queue[a.i]];
                 && sched.enabled && sched.flow.Some? && sched.flow.value in s.flows
                 && var flow := s.flows[sched.flow.value];
                    s'.jobs == s.jobs + [Job(sched.owner, sched.flow.value, flow.sourcePath, flow.destPath)]
    ensures Agrees(s) && a.Work? && a.i < |s.queue| && Runnable(s, s.queue[a.i]) ==> Step(s, a).jobs != s.jobs
  {
    hide Words, TaskName, Strip;
  }

  /** The ids on the queue were given out. */
  predicate Issued(s: State)
  {
    forall id | id in s.queue :: id < s.nextId
  }

  lemma StepIsForward(s: State, a: Action)
    requires Agrees(s) && Issued(s)
    ensures var s' := Step(s, a);
            && Issued(s') && s.nextId <= s'.nextId
            && forall id | id in s'.schedules && id !in s.schedules :: id == s.nextId
  {
    hide Words, TaskName, Strip;
    if a.Work? && a.i < |s.queue| {
      var rest := s.queue[..a.i] + s.queue[a.i + 1..];
      assert forall id | id in rest :: id in s.queue;
      assert Step(s, a).queue == rest;
    }
  }

  lemma {:induction false} QueueIsIssued(flows: map<nat, Flow>, others: map<string, PeriodicTask>, run: seq<Action>)
    requires Foreign(others)
    ensures Issued(Run(Start(flows, others), run))
  {
    if run != [] {
      var front := run[..|run| - 1];
      QueueIsIssued(flows, others, front);
      AlwaysAgrees(flows, others, front);
      StepIsForward(Run(Start(flows, others), front), run[|run| - 1]);
    }
  }

  /** Ids are not given out twice: once a schedule is gone, no continuation brings
      a schedule of its id back, so that what is left of it on the queue or among
      the periodic tasks never starts a job again. */
  lemma {:induction false} GoneForGood(flows: map<nat, Flow>, others: map<string, PeriodicTask>,
                                       run: seq<Action>, more: seq<Action>, id: nat)
    requires Foreign(others)
    requires var s := Run(Start(flows, others), run); id < s.nextId && id !in s.schedules
    ensures var s := Run(Start(flows, others), run + more); id < s.nextId && id !in s.schedules && !Runnable(s, id)
    decreases more
  {
    if more == [] {
      assert run + more == run;
    } else {
      var front, last := more[..|more| - 1], more[|more| - 1];
      assert run + more == (run + front) + [last];
      GoneForGood(flows, others, run, front, id);
      AlwaysAgrees(flows, others, run + front);
      QueueIsIssued(flows, others, run + front);
      FoldSnoc(Step, Start(flows, others), run + front, last);
      StepIsForward(Run(Start(flows, others), run + front), last);
    }
  }

  lemma StepLeavesForeignTask(s: State, a: Action, name: string)
    requires forall id: nat :: TaskName(id) != name
    ensures name in Step(s, a).tasks <==> name in s.tasks
    ensures name in s.tasks ==> Step(s, a).tasks[name] == s.tasks[name]
  {
    hide TaskName, Words, Strip;
  }

  /** No action touches the other periodic tasks. */
  lemma {:induction false} OthersUntouched(flows: map<nat, Flow>, others: map<string, PeriodicTask>, run: seq<Action>)
    requires Foreign(others)
    ensures forall name | name in others ::
              var s := Run(Start(flows, others), run); name in s.tasks && s.tasks[name] == others[name]
  {
    if run != [] {
      var front, last := run[..|run| - 1], run[|run| - 1];
      OthersUntouched(flows, others, front);
      hide TaskName, Step;
      forall name | name in others
        ensures var s := Run(Start(flows, others), run); name in s.tasks && s.tasks[name] == others[name]
      {
        StepLeavesForeignTask(Run(Start(flows, others), front), last, name);
      }
    }
  }
}
