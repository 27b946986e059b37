/**
 * `traverse`, the coordinator loop, as a specification over task values
 * (`Step`, `RunFrom`, `Run`) and as the method that drives the task objects
 * (`Traverse`), proved to follow it.
 *
 * tmux and the queue are inputs. Iteration `i` of the loop observes `ticks[i]`:
 * the clock, whether every pane other than the coordinator's is dead (the
 * "possibly done" test), and what `queue.get(timeout=0.1)` returned. Starting a
 * task in a pane is a `Launcher`, which gives a pane id or None where
 * `run_in_pane` raises. The run is followed for as many iterations as there are ticks.
 */
module Scheduler {
  import opened Wrappers
  import opened Tasks
  import opened Readiness
  import opened CompletionLog

  /** What one iteration of the loop observes from the outside. */
  datatype Tick = Tick(now: Time, panesIdle: bool, delivery: Option<Event>)

  /** `run_in_pane` at iteration `i` for the named task: a pane id, or None when it raises. */
  type Launcher = (nat, string) -> Option<PaneId>

  /**
   * The loop's state: the tasks, `last_done`, the iterations at which the dead
   * panes were killed, and the positions of the tasks started so far, in order.
   */
  datatype Loop = Loop(flow: seq<TaskState>, lastDone: nat, sweeps: seq<nat>, starts: seq<nat>)

  /**
   * How `traverse` ended: it returned `not failed`, an exception escaped it,
   * or it was still looping when the ticks ran out.
   */
  datatype Verdict = Returned(success: bool) | Raised | Unfinished

  datatype Outcome = Next(st: Loop) | Stop(verdict: Verdict, st: Loop)

  datatype Final = Final(verdict: Verdict, last: Loop)

  /** A task as one launch attempt leaves it. */
  function Launched(t: TaskState, i: nat, now: Time, launch: Launcher): TaskState
  {
    match launch(i, t.name)
    case None => t
    case Some(p) => AfterStart(t, p, now)
  }

  /**
   * `for task in runnable: try run_in_pane ... else task.start(pane_id)`: each
   * listed task whose launch succeeds is started; a failed launch is skipped.
   */
  function LaunchEach(st: Loop, ks: seq<nat>, i: nat, now: Time, launch: Launcher): (r: Loop)
    requires InRange(ks, |st.flow|)
    ensures |r.flow| == |st.flow| && r.lastDone == st.lastDone && r.sweeps == st.sweeps
    decreases |ks|
  {
    if |ks| == 0 then st
    else
      var k := ks[0];
      var next := match launch(i, st.flow[k].name)
        case None => st
        case Some(p) => st.(flow := st.flow[k := AfterStart(st.flow[k], p, now)], starts := st.starts + [k]);
      LaunchEach(next, ks[1..], i, now, launch)
  }

  /** The position in `ks` of the first task named `name`: what the `for ... break` search finds. */
  function FirstNamed(flow: seq<TaskState>, ks: seq<nat>, name: string): (r: Option<nat>)
    requires InRange(ks, |flow|)
    ensures r.Some? ==> r.value < |ks| && flow[ks[r.value]].name == name
    ensures forall m :: 0 <= m < |ks| && (r.None? || m < r.value) ==> flow[ks[m]].name != name
    decreases |ks|
  {
    if |ks| == 0 then None
    else if flow[ks[0]].name == name then Some(0)
    else match FirstNamed(flow, ks[1..], name)
      case None => None
      case Some(m) => Some(m + 1)
  }

  /** `if task.start_time`: a start time that is set and not zero. */
  predicate HasStartTime(t: TaskState)
  {
    t.startTime.Some? && t.startTime.value != 0.0
  }

  /**
   * `print_rows(report(flow))` raises: `min` over no start time at all, or a
   * started task whose elapsed time subtracts a missing time.
   */
  predicate ReportRaises(flow: seq<TaskState>)
  {
    || (forall k :: 0 <= k < |flow| ==> !HasStartTime(flow[k]))
    || (exists k :: 0 <= k < |flow| && flow[k].started &&
          (flow[k].startTime.None? || (flow[k].completed && flow[k].endTime.None?)))
  }

  /** The end of an iteration: the status table is printed, which may raise. */
  function Settle(st: Loop): Outcome
  {
    if ReportRaises(st.flow) then Stop(Raised, st) else Next(st)
  }

  /** One iteration of `for i in count()` in `traverse`. */
  function Step(st: Loop, i: nat, tick: Tick, launch: Launcher): Outcome
  {
    var rs := GetRunStatus(st.flow);
    Poll(LaunchEach(st, rs.runnable, i, tick.now, launch), rs, i, tick)
  }

  /**
   * The rest of an iteration once the runnable tasks were launched: the
   * `queue.get`, its two branches, and the printing of the table. `rs` is the
   * status computed at the top of the iteration.
   */
  function Poll(st1: Loop, rs: RunStatus, i: nat, tick: Tick): Outcome
    requires WellFormed(rs, |st1.flow|)
  {
    match tick.delivery
    case Some(ev) =>
      var cands := rs.incomplete + rs.failed;
      (match FirstNamed(st1.flow, cands, ev.name)
       case None => Settle(st1.(lastDone := i))
       case Some(m) =>
         var c := AfterComplete(st1.flow[cands[m]], ev.returnCode, tick.now);
         var st2 := st1.(flow := st1.flow[cands[m] := c.task], lastDone := i);
         if c.raised then Stop(Raised, st2) else Settle(st2))
    case None =>
      if |rs.runnable| == 0 && |rs.running| == 0 && tick.panesIdle then Stop(Returned(|rs.failed| == 0), st1)
      else if (i - st1.lastDone) % 20 == 19 then Settle(st1.(sweeps := st1.sweeps + [i]))
      else Settle(st1)
  }

  /** The loop from iteration `i` on. */
  function RunFrom(st: Loop, ticks: seq<Tick>, i: nat, launch: Launcher): Final
    decreases |ticks| - i
  {
    if i >= |ticks| then Final(Unfinished, st)
    else match Step(st, i, ticks[i], launch)
      case Next(st') => RunFrom(st', ticks, i + 1, launch)
      case Stop(v, st') => Final(v, st')
  }

  /** `traverse(window, flow, progress_file)` from its first iteration. */
  function Run(flow: seq<TaskState>, ticks: seq<Tick>, launch: Launcher): Final
  {
    RunFrom(Loop(flow, 0, [], []), ticks, 0, launch)
  }

  /**
   * The `for task in runnable` loop over the task objects at positions `ks`;
   * `starts` records the positions started, as the specification's trace does.
   */
  method LaunchAll(flow: seq<Task>, ks: seq<nat>, i: nat, now: Time, launch: Launcher,
                   lastDone: nat, sweeps: seq<nat>, ghost starts0: seq<nat>) returns (ghost starts: seq<nat>)
    requires Distinct(flow) && InRange(ks, |flow|)
    modifies set t | t in flow
    ensures LaunchEach(Loop(old(Views(flow)), lastDone, sweeps, starts0), ks, i, now, launch)
         == Loop(Views(flow), lastDone, sweeps, starts)
  {
    ghost var goal := LaunchEach(Loop(Views(flow), lastDone, sweeps, starts0), ks, i, now, launch);
    starts := starts0;
    var j := 0;
    while j < |ks|
      invariant 0 <= j <= |ks|
      invariant LaunchEach(Loop(Views(flow), lastDone, sweeps, starts), ks[j..], i, now, launch) == goal
    {
      var k := ks[j];
      var pane := launch(i, flow[k].name);
      if pane.Some? {
        ghost var before := Views(flow);
        flow[k].Start(pane.value, now);
        Touched(flow, before, k, AfterStart(before[k], pane.value, now));
        starts := starts + [k];
      }
      j := j + 1;
    }
  }

  /**
   * `for task in incomplete + failed: if task.name == name: task.complete(...); break`:
   * the first task of `cands` with the event's name is completed, and no other.
   */
  method Deliver(flow: seq<Task>, cands: seq<nat>, ev: Event, now: Time) returns (raised: bool)
    requires Distinct(flow) && InRange(cands, |flow|)
    modifies set t | t in flow
    ensures match FirstNamed(old(Views(flow)), cands, ev.name)
      case None => Views(flow) == old(Views(flow)) && !raised
      case Some(m) =>
        var c := AfterComplete(old(Views(flow))[cands[m]], ev.returnCode, now);
        Views(flow) == old(Views(flow))[cands[m] := c.task] && raised == c.raised
  {
    ghost var before := Views(flow);
    var m := 0;
    while m < |cands| && flow[cands[m]].name != ev.name
      invariant 0 <= m <= |cands|
      invariant forall q :: 0 <= q < m ==> before[cands[q]].name != ev.name
    {
      m := m + 1;
    }
    if m < |cands| {
      assert FirstNamed(before, cands, ev.name) == Some(m);
      raised := flow[cands[m]].Complete(ev.returnCode, now);
      Touched(flow, before, cands[m], AfterComplete(before[cands[m]], ev.returnCode, now).task);
    } else {
      assert FirstNamed(before, cands, ev.name) == None;
      raised := false;
    }
  }

  /** The outcome `Step` has, given whether and how the iteration stopped. */
  function Ended(stop: Option<Verdict>, st: Loop): Outcome
  {
    match stop
    case None => Next(st)
    case Some(v) => Stop(v, st)
  }

  /** One iteration of the loop in `traverse`, over the task objects. */
  method Iterate(flow: seq<Task>, i: nat, tick: Tick, launch: Launcher,
                 lastDone: nat, sweeps: seq<nat>, ghost starts: seq<nat>)
    returns (stop: Option<Verdict>, lastDone': nat, sweeps': seq<nat>, ghost starts': seq<nat>)
    requires Distinct(flow)
    modifies set t | t in flow
    ensures Step(Loop(old(Views(flow)), lastDone, sweeps, starts), i, tick, launch)
         == Ended(stop, Loop(Views(flow), lastDone', sweeps', starts'))
  {
    var rs := GetRunStatus(Views(flow));
    starts' := LaunchAll(flow, rs.runnable, i, tick.now, launch, lastDone, sweeps, starts);
    stop, lastDone', sweeps' := PollQueue(flow, rs, i, tick, lastDone, sweeps, starts');
  }

  /** The `queue.get` of an iteration and what follows it, over the task objects. */
  method PollQueue(flow: seq<Task>, rs: RunStatus, i: nat, tick: Tick,
                   lastDone: nat, sweeps: seq<nat>, ghost starts: seq<nat>)
    returns (stop: Option<Verdict>, lastDone': nat, sweeps': seq<nat>)
    requires Distinct(flow) && WellFormed(rs, |flow|)
    modifies set t | t in flow
    ensures Poll(Loop(old(Views(flow)), lastDone, sweeps, starts), rs, i, tick)
         == Ended(stop, Loop(Views(flow), lastDone', sweeps', starts))
  {
    lastDone', sweeps' := lastDone, sweeps;
    match tick.delivery {
      case Some(ev) =>
        var raised := Deliver(flow, rs.incomplete + rs.failed, ev, tick.now);
        lastDone' := i;
        if raised {
          return Some(Raised), lastDone', sweeps';
        }
      case None =>
        if |rs.runnable| == 0 && |rs.running| == 0 && tick.panesIdle {
          return Some(Returned(|rs.failed| == 0)), lastDone', sweeps';
        }
        if (i - lastDone) % 20 == 19 {
          sweeps' := sweeps + [i];
        }
    }
    if ReportRaises(Views(flow)) {
      stop := Some(Raised);
    } else {
      stop := None;
    }
  }

  /**
   * `traverse` over the task objects: it runs the loop of `Run` on their values
   * and leaves every task as the specification's last state has it.
   */
  method Traverse(flow: seq<Task>, ticks: seq<Tick>, launch: Launcher) returns (verdict: Verdict, sweeps: seq<nat>)
    requires Distinct(flow)
    modifies set t | t in flow
    ensures var f := Run(old(Views(flow)), ticks, launch);
      verdict == f.verdict && Views(flow) == f.last.flow && sweeps == f.last.sweeps
  {
    ghost var init := Views(flow);
    ghost var starts: seq<nat> := [];
    var lastDone: nat := 0;
    sweeps := [];
    var i := 0;
    while i < |ticks|
      invariant 0 <= i <= |ticks|
      invariant RunFrom(Loop(Views(flow), lastDone, sweeps, starts), ticks, i, launch) == Run(init, ticks, launch)
      decreases |ticks| - i
    {
      var stop;
      stop, lastDone, sweeps, starts := Iterate(flow, i, ticks[i], launch, lastDone, sweeps, starts);
      if stop.Some? {
        verdict := stop.value;
        return;
      }
      i := i + 1;
    }
    verdict := Unfinished;
  }

  /** Changing one task object of a flow without repeats changes one position of its view. */
  lemma Touched(flow: seq<Task>, before: seq<TaskState>, k: nat, after: TaskState)
    requires Distinct(flow) && k < |flow| && |before| == |flow|
    requires flow[k].State() == after
    requires forall q :: 0 <= q < |flow| && q != k ==> flow[q].State() == before[q]
    ensures Views(flow) == before[k := after]
  {
  }
}
