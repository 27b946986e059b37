/**
 * The per-task state machine of plex.py: the fields of a `Task`, the derived
 * `status`, and the two transitions `start` and `complete`.
 *
 * A task's fields are given both as a value (`TaskState`, which the scheduler's
 * specification and the persistence layer work on) and as the mutable object
 * the coordinator updates in place (`Task`).
 */
module Tasks {
  import opened Wrappers
  import PyText

  /** The opaque identifier of the tmux pane a task runs in. */
  type PaneId = string

  /** A wall-clock reading; the model never computes with it. */
  type Time = real

  /** Everything a `Task` object holds apart from its display spinner. */
  datatype TaskState = TaskState(
    name: string,
    command: string,
    depends: set<string>,
    started: bool,
    completed: bool,
    startTime: Option<Time>,
    paneId: Option<PaneId>,
    endTime: Option<Time>,
    returnCode: Option<int>)

  /** A task as `Task.__init__` leaves it when no lifecycle field is passed in. */
  function Fresh(name: string, command: string, depends: set<string>): (t: TaskState)
    ensures t.name == name && t.command == command && t.depends == depends
    ensures !t.started && !t.completed && t.returnCode == None && t.paneId == None
    ensures t.startTime == None && t.endTime == None
  {
    TaskState(name, command, depends, false, false, None, None, None, None)
  }

  datatype Status = Pending | Started | Succeeded | Failed

  /**
   * The `status` property. A `return_code` of None counts as non-zero, so a task
   * marked completed without a code is FAILED.
   */
  function StatusOf(t: TaskState): (r: Status)
    ensures r == Succeeded <==> t.completed && t.returnCode == Some(0)
    ensures r == Failed <==> t.completed && t.returnCode != Some(0)
    ensures r == Started <==> t.started && !t.completed
    ensures r == Pending <==> !t.started && !t.completed
  {
    if t.completed then
      if t.returnCode == Some(0) then Succeeded else Failed
    else if t.started then Started
    else Pending
  }

  /** `start(pane_id)`: records the pane, marks the task started and stamps the start time. */
  function AfterStart(t: TaskState, pane: PaneId, now: Time): (r: TaskState)
    ensures r.paneId == Some(pane) && r.started && r.startTime == Some(now)
    ensures r.(paneId := t.paneId, started := t.started, startTime := t.startTime) == t
  {
    t.(paneId := Some(pane), started := true, startTime := Some(now))
  }

  /** The task after `complete(rc)`, and whether `int(rc)` raised. */
  datatype Completion = Completion(task: TaskState, raised: bool)

  /**
   * `complete(return_code)`: the pane is cleared, the task is marked completed and
   * the end time stamped before `int(return_code)` runs; when that conversion
   * raises, those three assignments have already happened and the code is left as it was.
   */
  function AfterComplete(t: TaskState, rc: string, now: Time): (r: Completion)
    ensures r.task.paneId == None && r.task.completed && r.task.endTime == Some(now)
    ensures r.raised <==> PyText.PyInt(rc) == None
    ensures r.task.returnCode == if r.raised then t.returnCode else PyText.PyInt(rc)
    ensures r.task.(paneId := t.paneId, completed := t.completed, endTime := t.endTime, returnCode := t.returnCode) == t
  {
    var closed := t.(paneId := None, completed := true, endTime := Some(now));
    match PyText.PyInt(rc)
    case None => Completion(closed, true)
    case Some(n) => Completion(closed.(returnCode := Some(n)), false)
  }

  /** Starting a task that has not completed makes it STARTED. */
  lemma StartMakesStarted(t: TaskState, pane: PaneId, now: Time)
    requires !t.completed
    ensures StatusOf(AfterStart(t, pane, now)) == Started
  {
  }

  /**
   * Completing a task with the decimal code `n`, as the shell writes it, makes it
   * SUCCEEDED when `n` is 0 and FAILED otherwise.
   */
  lemma {:induction false} CompleteWithCode(t: TaskState, n: nat, now: Time)
    ensures var c := AfterComplete(t, PyText.Decimal(n), now);
      !c.raised && c.task.returnCode == Some(n) &&
      StatusOf(c.task) == (if n == 0 then Succeeded else Failed)
  {
    PyText.PyIntOfDecimal(n);
  }

  /** A mutable task, as the coordinator holds it. */
  class Task {
    var name: string
    var command: string
    var depends: set<string>
    var started: bool
    var completed: bool
    var startTime: Option<Time>
    var paneId: Option<PaneId>
    var endTime: Option<Time>
    var returnCode: Option<int>

    /** The current field values. */
    function State(): TaskState
      reads this
    {
      TaskState(name, command, depends, started, completed, startTime, paneId, endTime, returnCode)
    }

    /** Builds a task whose fields are those of `s` (see `Persistence.Construct` for `Task(**d)`). */
    constructor (s: TaskState)
      ensures State() == s
    {
      name, command, depends := s.name, s.command, s.depends;
      started, completed := s.started, s.completed;
      startTime, paneId, endTime, returnCode := s.startTime, s.paneId, s.endTime, s.returnCode;
    }

    /** `Task.start`: only the pane, `started` and the start time change. */
    method Start(pane: PaneId, now: Time)
      modifies this
      ensures State() == AfterStart(old(State()), pane, now)
    {
      paneId := Some(pane);
      started := true;
      startTime := Some(now);
    }

    /**
     * `Task.complete`: clears the pane, sets `completed` and the end time, then
     * converts the code; `raised` reports the `ValueError` of a malformed code.
     */
    method Complete(rc: string, now: Time) returns (raised: bool)
      modifies this
      ensures Completion(State(), raised) == AfterComplete(old(State()), rc, now)
    {
      paneId := None;
      completed := true;
      endTime := Some(now);
      var code := PyText.PyInt(rc);
      match code {
        case None =>
          raised := true;
        case Some(n) =>
          returnCode := Some(n);
          raised := false;
      }
    }
  }

  /** The current values of a sequence of tasks. */
  function Views(flow: seq<Task>): (r: seq<TaskState>)
    reads set t | t in flow
    ensures |r| == |flow| && forall k :: 0 <= k < |flow| ==> r[k] == flow[k].State()
  {
    seq(|flow|, k requires 0 <= k < |flow| reads set t | t in flow => flow[k].State())
  }

  /** No task object occurs twice in the flow. */
  predicate Distinct(flow: seq<Task>)
  {
    forall a, b :: 0 <= a < b < |flow| ==> flow[a] != flow[b]
  }
}
