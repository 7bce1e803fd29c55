/** The execution runner: an in-place status machine over an ordered plan. */
module Runner {
  import opened Ordering
  import opened PlanGraph

  datatype Status = Pending | Running | Completed | Failed | Skipped

  /** What a task handler does: a (success, message) pair, a plain text, or an exception. */
  datatype HandlerResult =
    | Pair(success: bool, message: Option<string>)
    | Text(output: string)
    | Raised(error: string)

  /** The field values of an `ExecutionTask`; `started` tells whether `started_at` is set. */
  datatype TaskRecord = TaskRecord(
    id: Id, dependencies: seq<Id>, status: Status,
    output: Option<string>, error: Option<string>, skipReason: Option<string>, started: bool)

  datatype ExecutionReport = ExecutionReport(
    tasks: seq<TaskRecord>, status: Status, totalTasks: nat, completedTasks: nat, failedTasks: nat, skippedTasks: nat)

  const DEPENDENCY_FAILED := "dependency_failed:"
  const RUN_HALTED := "run_halted_after_failure"

  // ---------- single tasks ----------

  function PendingRecord(node: TaskNode): TaskRecord {
    TaskRecord(node.id, node.dependencies, Pending, None, None, None, false)
  }

  function OrElse(message: Option<string>, default: string): string {
    if message.None? || message.value == "" then default else message.value
  }

  /** A task after `execute_task`, with no handler standing for the successful no-op. */
  function Executed(task: TaskRecord, handler: Option<HandlerResult>): TaskRecord {
    var t := task.(error := None, skipReason := None, started := true);
    match if handler.None? then Pair(true, Some("")) else handler.value
    case Pair(true, message) => t.(status := Completed, output := Some(OrElse(message, "")))
    case Pair(false, message) => t.(status := Failed, error := Some(OrElse(message, "task failed")))
    case Text(output) => t.(status := Completed, output := Some(output))
    case Raised(error) => t.(status := Failed, error := Some(error))
  }

  predicate Succeeds(handler: Option<HandlerResult>) {
    handler.None? || handler.value.Text? || (handler.value.Pair? && handler.value.success)
  }

  /** A handler's own words become the output or the error; a failure without words has a default. */
  lemma ExecutedText(task: TaskRecord, handlers: map<Id, HandlerResult>, id: Id)
    ensures var t := Executed(task, HandlerOf(handlers, id));
      && t.started && t.skipReason == None && t.id == task.id && t.dependencies == task.dependencies
      && (id !in handlers ==> t.status == Completed && t.output == Some(""))
      && (id in handlers ==>
           match handlers[id]
           case Pair(true, message) =>
             t.status == Completed && t.error == None && t.output == (if message.Some? then message else Some(""))
           case Pair(false, message) =>
             t.status == Failed && t.error == (if message.Some? && message.value != "" then message else Some("task failed"))
           case Text(output) => t.status == Completed && t.error == None && t.output == Some(output)
           case Raised(error) => t.status == Failed && t.error == Some(error))
  {
  }

  function SkippedFor(task: TaskRecord, reason: string): TaskRecord {
    task.(status := Skipped, skipReason := Some(reason), error := Some(reason))
  }

  function HandlerOf(handlers: map<Id, HandlerResult>, id: Id): Option<HandlerResult> {
    if id in handlers then Some(handlers[id]) else None
  }

  // ---------- the run as a function of the plan ----------

  /** The position `task_index` keeps for an id: the last one; -1 when there is none. */
  function LastIndex(plan: seq<TaskNode>, id: Id): (i: int)
    ensures -1 <= i < |plan|
    ensures i >= 0 ==> plan[i].id == id
    ensures forall j :: i < j < |plan| ==> plan[j].id != id
  {
    if plan == [] then -1
    else if plan[|plan| - 1].id == id then |plan| - 1
    else LastIndex(plan[..|plan| - 1], id)
  }

  /** The id names a plan task that is not completed while `done` has been processed. */
  predicate Blocks(plan: seq<TaskNode>, done: seq<TaskRecord>, id: Id) {
    var i := LastIndex(plan, id);
    i >= 0 && (i >= |done| || done[i].status != Completed)
  }

  function FirstBlocking(plan: seq<TaskNode>, done: seq<TaskRecord>, deps: seq<Id>): (b: Option<Id>)
    ensures b.Some? ==> b.value in deps && Blocks(plan, done, b.value)
    ensures b.None? ==> forall d :: d in deps ==> !Blocks(plan, done, d)
  {
    if deps == [] then None
    else if Blocks(plan, done, deps[0]) then Some(deps[0])
    else FirstBlocking(plan, done, deps[1..])
  }

  datatype RunState = RunState(done: seq<TaskRecord>, halted: bool)

  function StepTask(plan: seq<TaskNode>, handlers: map<Id, HandlerResult>, stop: bool, s: RunState): (r: RunState)
    requires |s.done| < |plan|
    ensures |r.done| == |s.done| + 1
  {
    var node := plan[|s.done|];
    var task := PendingRecord(node);
    var blocking := FirstBlocking(plan, s.done, node.dependencies);
    if blocking.Some? then
      RunState(s.done + [SkippedFor(task, DEPENDENCY_FAILED + blocking.value)], s.halted || stop)
    else if s.halted then
      RunState(s.done + [SkippedFor(task, RUN_HALTED)], true)
    else
      var result := Executed(task, HandlerOf(handlers, node.id));
      RunState(s.done + [result], result.status != Completed && stop)
  }

  function RunPrefix(plan: seq<TaskNode>, handlers: map<Id, HandlerResult>, stop: bool, n: nat): (s: RunState)
    requires n <= |plan|
    ensures |s.done| == n
  {
    if n == 0 then RunState([], false)
    else StepTask(plan, handlers, stop, RunPrefix(plan, handlers, stop, n - 1))
  }

  /** The final field values of every task of a run. */
  function Final(plan: seq<TaskNode>, handlers: map<Id, HandlerResult>, stop: bool): (r: seq<TaskRecord>)
    ensures |r| == |plan|
  {
    RunPrefix(plan, handlers, stop, |plan|).done
  }

  function Count(tasks: seq<TaskRecord>, status: Status): (n: nat)
    ensures n <= |tasks|
  {
    if tasks == [] then 0
    else Count(tasks[..|tasks| - 1], status) + (if tasks[|tasks| - 1].status == status then 1 else 0)
  }

  function BuildReport(tasks: seq<TaskRecord>): ExecutionReport {
    var completed, failed, skipped := Count(tasks, Completed), Count(tasks, Failed), Count(tasks, Skipped);
    var overall := if failed > 0 || (skipped > 0 && completed < |tasks|) then Failed else Completed;
    ExecutionReport(tasks, overall, |tasks|, completed, failed, skipped)
  }

  /** The positions of the tasks with a status. */
  ghost function Positions(tasks: seq<TaskRecord>, status: Status): set<int> {
    set i | 0 <= i < |tasks| && tasks[i].status == status
  }

  lemma {:induction false} CountIsPositions(tasks: seq<TaskRecord>, status: Status)
    ensures Count(tasks, status) == |Positions(tasks, status)|
  {
    if tasks != [] {
      CountIsPositions(tasks[..|tasks| - 1], status);
      PositionsStep(tasks, status);
    }
  }

  lemma PositionsStep(tasks: seq<TaskRecord>, status: Status)
    requires tasks != []
    ensures var n := |tasks| - 1; var before := Positions(tasks[..n], status);
      n !in before && Positions(tasks, status) == if tasks[n].status == status then before + {n} else before
  {
  }

  /** Final field values of the task made from `node`. */
  predicate IsFinal(node: TaskNode, t: TaskRecord) {
    t.id == node.id && t.dependencies == node.dependencies && t.status in {Completed, Failed, Skipped}
  }

  ghost predicate AllFinal(plan: seq<TaskNode>, tasks: seq<TaskRecord>) {
    |tasks| <= |plan| && forall i :: 0 <= i < |tasks| ==> IsFinal(plan[i], tasks[i])
  }

  lemma StepIsFinal(plan: seq<TaskNode>, h: map<Id, HandlerResult>, stop: bool, s: RunState)
    requires |s.done| < |plan| && AllFinal(plan, s.done)
    ensures AllFinal(plan, StepTask(plan, h, stop, s).done)
  {
    var done := StepTask(plan, h, stop, s).done;
    assert forall i :: 0 <= i < |s.done| ==> done[i] == s.done[i];
    assert IsFinal(plan[|s.done|], done[|s.done|]);
  }

  lemma {:induction false} PrefixIsFinal(plan: seq<TaskNode>, h: map<Id, HandlerResult>, stop: bool, n: nat)
    requires n <= |plan|
    ensures AllFinal(plan, RunPrefix(plan, h, stop, n).done)
  {
    if n > 0 {
      PrefixIsFinal(plan, h, stop, n - 1);
      StepIsFinal(plan, h, stop, RunPrefix(plan, h, stop, n - 1));
    }
  }

  lemma {:induction false} CountsAddUp(plan: seq<TaskNode>, tasks: seq<TaskRecord>)
    requires AllFinal(plan, tasks)
    ensures Count(tasks, Completed) + Count(tasks, Failed) + Count(tasks, Skipped) == |tasks|
    ensures Count(tasks, Completed) == |tasks| <==> forall i :: 0 <= i < |tasks| ==> tasks[i].status == Completed
  {
    if tasks != [] {
      var n := |tasks| - 1;
      CountsAddUp(plan, tasks[..n]);
      assert IsFinal(plan[n], tasks[n]);
      assert forall i :: 0 <= i < n ==> tasks[..n][i] == tasks[i];
    }
  }

  /** The report lists the plan's tasks in order and counts them by status; it is COMPLETED exactly when all of them are. */
  ghost predicate ReportsOn(plan: seq<TaskNode>, report: ExecutionReport) {
    && |report.tasks| == |plan| == report.totalTasks && AllFinal(plan, report.tasks)
    && report.completedTasks == |Positions(report.tasks, Completed)|
    && report.failedTasks == |Positions(report.tasks, Failed)|
    && report.skippedTasks == |Positions(report.tasks, Skipped)|
    && report.completedTasks + report.failedTasks + report.skippedTasks == report.totalTasks
    && report.status == (if forall i :: 0 <= i < |plan| ==> report.tasks[i].status == Completed then Completed else Failed)
  }

  lemma FinalReportsOn(plan: seq<TaskNode>, h: map<Id, HandlerResult>, stop: bool)
    ensures ReportsOn(plan, BuildReport(Final(plan, h, stop)))
  {
    var tasks := Final(plan, h, stop);
    PrefixIsFinal(plan, h, stop, |plan|);
    CountsAddUp(plan, tasks);
    CountIsPositions(tasks, Completed);
    CountIsPositions(tasks, Failed);
    CountIsPositions(tasks, Skipped);
  }

  // ---------- the runner ----------

  class ExecutionTask {
    const id: Id
    const dependencies: seq<Id>
    var status: Status
    var output: Option<string>
    var error: Option<string>
    var skipReason: Option<string>
    var started: bool

    constructor (node: TaskNode)
      ensures Snapshot() == PendingRecord(node)
    {
      id, dependencies := node.id, node.dependencies;
      status, output, error, skipReason, started := Pending, None, None, None, false;
    }

    function Snapshot(): TaskRecord
      reads this
    {
      TaskRecord(id, dependencies, status, output, error, skipReason, started)
    }

    method Skip(reason: string)
      modifies this
      ensures Snapshot() == SkippedFor(old(Snapshot()), reason)
    {
      status := Skipped;
      skipReason := Some(reason);
      error := skipReason;
    }

    /** `Executor.execute_task`: the task always ends COMPLETED or FAILED. */
    method Execute(handler: Option<HandlerResult>)
      modifies this
      ensures Snapshot() == Executed(old(Snapshot()), handler)
      ensures status == if Succeeds(handler) then Completed else Failed
    {
      status, started, error, skipReason := Running, true, None, None;
      var result := if handler.None? then Pair(true, Some("")) else handler.value;
      match result
      case Pair(success, message) =>
        if success {
          output := Some(OrElse(message, ""));
          status := Completed;
        } else {
          error := Some(OrElse(message, "task failed"));
          status := Failed;
        }
      case Text(text) =>
        output := Some(text);
        status := Completed;
      case Raised(e) =>
        error := Some(e);
        status := Failed;
    }
  }

  /** The tasks created for the plan: distinct objects, the first `|done|` final, the rest pending. */
  ghost predicate Tracks(tasks: seq<ExecutionTask>, plan: seq<TaskNode>, done: seq<TaskRecord>)
    reads tasks
  {
    && |tasks| == |plan| && |done| <= |plan|
    && (forall i, j :: 0 <= i < j < |tasks| ==> tasks[i] != tasks[j])
    && (forall i :: 0 <= i < |done| ==> tasks[i].Snapshot() == done[i])
    && (forall i :: |done| <= i < |tasks| ==> tasks[i].Snapshot() == PendingRecord(plan[i]))
  }

  /** `task_index`: every plan id maps to the last task carrying it. */
  ghost predicate Indexes(taskIndex: map<Id, ExecutionTask>, tasks: seq<ExecutionTask>, plan: seq<TaskNode>) {
    && |tasks| == |plan|
    && (forall id :: id in taskIndex <==> LastIndex(plan, id) >= 0)
    && (forall id :: id in taskIndex ==> taskIndex[id] == tasks[LastIndex(plan, id)])
  }

  method FindBlockingDependency(task: ExecutionTask, taskIndex: map<Id, ExecutionTask>,
      ghost tasks: seq<ExecutionTask>, ghost plan: seq<TaskNode>, ghost done: seq<TaskRecord>)
    returns (blocking: Option<Id>)
    requires Tracks(tasks, plan, done) && Indexes(taskIndex, tasks, plan)
    ensures blocking == FirstBlocking(plan, done, task.dependencies)
  {
    for k := 0 to |task.dependencies|
      invariant FirstBlocking(plan, done, task.dependencies) == FirstBlocking(plan, done, task.dependencies[k..])
    {
      var depId := task.dependencies[k];
      if depId in taskIndex {
        TrackedStatus(tasks, plan, done, LastIndex(plan, depId));
        if taskIndex[depId].status != Completed { return Some(depId); }
      }
    }
    return None;
  }

  lemma TrackedStatus(tasks: seq<ExecutionTask>, plan: seq<TaskNode>, done: seq<TaskRecord>, j: nat)
    requires Tracks(tasks, plan, done) && j < |plan|
    ensures tasks[j].status == if j < |done| then done[j].status else Pending
  {
  }

  /** The loop body of `Runner.run` for task `i`. */
  method RunTask(task: ExecutionTask, i: nat, taskIndex: map<Id, ExecutionTask>, handlers: map<Id, HandlerResult>,
      stop: bool, halted: bool, ghost tasks: seq<ExecutionTask>, ghost plan: seq<TaskNode>, ghost s: RunState)
    returns (halt: bool)
    requires i == |s.done| < |plan| && Tracks(tasks, plan, s.done) && Indexes(taskIndex, tasks, plan)
    requires task == tasks[i] && halted == s.halted
    modifies task
    ensures task.Snapshot() == StepTask(plan, handlers, stop, s).done[i]
    ensures halt == StepTask(plan, handlers, stop, s).halted
  {
    halt := halted;
    assert task.Snapshot() == PendingRecord(plan[i]);
    var blocking := FindBlockingDependency(task, taskIndex, tasks, plan, s.done);
    if halted {
      task.Skip(if blocking.Some? then DEPENDENCY_FAILED + blocking.value else RUN_HALTED);
      return;
    }
    if blocking.Some? {
      task.Skip(DEPENDENCY_FAILED + blocking.value);
      if stop { halt := true; }
      return;
    }
    var handler := HandlerOf(handlers, task.id);
    task.Execute(handler);
    assert task.status == task.Snapshot().status;
    if task.status != Completed && stop { halt := true; }
  }

  /** Processing task `i` leaves every other task as it was. */
  method Advance(tasks: seq<ExecutionTask>, i: nat, taskIndex: map<Id, ExecutionTask>, handlers: map<Id, HandlerResult>,
      stop: bool, halted: bool, ghost plan: seq<TaskNode>, ghost s: RunState)
    returns (halt: bool)
    requires i == |s.done| < |plan| && Tracks(tasks, plan, s.done) && Indexes(taskIndex, tasks, plan)
    requires halted == s.halted
    modifies tasks[i]
    ensures Tracks(tasks, plan, StepTask(plan, handlers, stop, s).done)
    ensures halt == StepTask(plan, handlers, stop, s).halted
  {
    ghost var done := StepTask(plan, handlers, stop, s).done;
    assert forall j :: 0 <= j < i ==> done[j] == s.done[j];
    halt := RunTask(tasks[i], i, taskIndex, handlers, stop, halted, tasks, plan, s);
    forall j | 0 <= j < |tasks| && j != i ensures tasks[j].Snapshot() == old(tasks[j].Snapshot()) {
      assert tasks[j] != tasks[i];
    }
  }

  lemma IndexStep(taskIndex: map<Id, ExecutionTask>, tasks: seq<ExecutionTask>, plan: seq<TaskNode>, i: nat, task: ExecutionTask)
    requires i < |plan| && Indexes(taskIndex, tasks, plan[..i]) && task.id == plan[i].id
    ensures Indexes(taskIndex[task.id := task], tasks + [task], plan[..i + 1])
  {
    assert plan[..i + 1][..i] == plan[..i];
  }

  /** Adds a pending task for the next plan node. */
  method CreateTask(tasks: seq<ExecutionTask>, ghost plan: seq<TaskNode>, node: TaskNode) returns (task: ExecutionTask)
    requires Tracks(tasks, plan, [])
    ensures fresh(task) && task.id == node.id && Tracks(tasks + [task], plan + [node], [])
  {
    task := new ExecutionTask(node);
    forall i | 0 <= i < |tasks| ensures tasks[i] != task && tasks[i].Snapshot() == PendingRecord(plan[i]) {
      assert tasks[i] in tasks;
    }
  }

  method CreateTasks(plan: seq<TaskNode>) returns (tasks: seq<ExecutionTask>, taskIndex: map<Id, ExecutionTask>)
    ensures Tracks(tasks, plan, []) && Indexes(taskIndex, tasks, plan)
    ensures forall t :: t in tasks ==> fresh(t)
  {
    tasks, taskIndex := [], map[];
    for i := 0 to |plan|
      invariant Tracks(tasks, plan[..i], []) && Indexes(taskIndex, tasks, plan[..i])
      invariant forall t :: t in tasks ==> fresh(t)
    {
      var task := CreateTask(tasks, plan[..i], plan[i]);
      PrefixStep(plan, i);
      IndexStep(taskIndex, tasks, plan, i, task);
      tasks := tasks + [task];
      taskIndex := taskIndex[task.id := task];
    }
    assert plan[..|plan|] == plan;
  }

  /** The loop of `Runner.run`. */
  method ProcessAll(tasks: seq<ExecutionTask>, taskIndex: map<Id, ExecutionTask>, handlers: map<Id, HandlerResult>,
      stop: bool, ghost plan: seq<TaskNode>)
    requires Tracks(tasks, plan, []) && Indexes(taskIndex, tasks, plan)
    modifies tasks
    ensures Tracks(tasks, plan, Final(plan, handlers, stop))
  {
    var halted := false;
    ghost var s := RunState([], false);
    for i := 0 to |tasks|
      invariant s == RunPrefix(plan, handlers, stop, i) && halted == s.halted
      invariant Tracks(tasks, plan, s.done)
    {
      assert tasks[i] in tasks;
      halted := Advance(tasks, i, taskIndex, handlers, stop, halted, plan, s);
      s := StepTask(plan, handlers, stop, s);
    }
  }

  /** `Runner.run` on the ordered tasks of a plan. */
  method Run(plan: seq<TaskNode>, handlers: map<Id, HandlerResult>, stop: bool) returns (report: ExecutionReport)
    ensures report == BuildReport(Final(plan, handlers, stop))
    ensures ReportsOn(plan, report)
  {
    var tasks, taskIndex := CreateTasks(plan);
    forall i | 0 <= i < |tasks| ensures fresh(tasks[i]) { assert tasks[i] in tasks; }
    ProcessAll(tasks, taskIndex, handlers, stop, plan);
    assert Records(tasks) == Final(plan, handlers, stop);
    FinalReportsOn(plan, handlers, stop);
    report := BuildReport(Records(tasks));
  }

  function Records(tasks: seq<ExecutionTask>): (records: seq<TaskRecord>)
    reads tasks
    ensures |records| == |tasks| && forall i :: 0 <= i < |tasks| ==> records[i] == tasks[i].Snapshot()
  {
    if tasks == [] then [] else [tasks[0].Snapshot()] + Records(tasks[1..])
  }
}
