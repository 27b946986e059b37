/**
 * What `traverse` guarantees, proved on the specification of its loop: each
 * task is started at most once and only when runnable, a completion touches
 * exactly the first incomplete-or-failed task with the reported name, a
 * SUCCEEDED task is never touched again, and the loop returns success exactly
 * when every return code is 0.
 */
module TraversalFacts {
  import opened Wrappers
  import opened Tasks
  import opened Readiness
  import opened CompletionLog
  import opened Scheduler

  /** Positions appear at most once. */
  predicate NoRepeat(ks: seq<nat>)
  {
    forall a, b :: 0 <= a < b < |ks| ==> ks[a] != ks[b]
  }

  /** The positions recorded as started between two states of a run. */
  function Added(before: Loop, after: Loop): seq<nat>
  {
    if |before.starts| <= |after.starts| then after.starts[|before.starts|..] else []
  }

  /** The launch of the first listed task, as `LaunchEach` performs it. */
  function LaunchFirst(st: Loop, k: nat, i: nat, now: Time, launch: Launcher): Loop
    requires k < |st.flow|
  {
    match launch(i, st.flow[k].name)
    case None => st
    case Some(p) => st.(flow := st.flow[k := AfterStart(st.flow[k], p, now)], starts := st.starts + [k])
  }

  /** Launching the tasks at ascending positions `ks` launches each listed task once and leaves the others alone. */
  lemma {:induction false} LaunchEachFlow(st: Loop, ks: seq<nat>, i: nat, now: Time, launch: Launcher)
    requires InRange(ks, |st.flow|) && Ascending(ks)
    ensures var r := LaunchEach(st, ks, i, now, launch);
      forall k :: 0 <= k < |st.flow| ==>
        r.flow[k] == if k in ks then Launched(st.flow[k], i, now, launch) else st.flow[k]
    decreases |ks|
  {
    if |ks| != 0 {
      var k := ks[0];
      var next := LaunchFirst(st, k, i, now, launch);
      AscendingTail(ks);
      assert forall q :: 0 <= q < |st.flow| && q != k ==> next.flow[q] == st.flow[q];
      assert next.flow[k] == Launched(st.flow[k], i, now, launch);
      LaunchEachFlow(next, ks[1..], i, now, launch);
      assert LaunchEach(next, ks[1..], i, now, launch) == LaunchEach(st, ks, i, now, launch);
    }
  }

  /** Whether launching a task at iteration `i` gives it a pane. */
  function GetsPane(i: nat, launch: Launcher): TaskState -> bool
  {
    (t: TaskState) => launch(i, t.name).Some?
  }

  /** Which tasks get a pane depends on their names only. */
  lemma {:induction false} GetsPaneByName(f: seq<TaskState>, g: seq<TaskState>, ks: seq<nat>, i: nat, launch: Launcher)
    requires |f| == |g| && InRange(ks, |f|)
    requires forall q :: 0 <= q < |f| ==> f[q].name == g[q].name
    ensures Where(f, ks, GetsPane(i, launch)) == Where(g, ks, GetsPane(i, launch))
    decreases |ks|
  {
    if ks != [] {
      assert InRange(ks[1..], |f|);
      GetsPaneByName(f, g, ks[1..], i, launch);
    }
  }

  /** Launching appends to `starts`, in order, the listed positions whose launch gave a pane. */
  lemma {:induction false} LaunchEachAppends(st: Loop, ks: seq<nat>, i: nat, now: Time, launch: Launcher)
    requires InRange(ks, |st.flow|)
    ensures LaunchEach(st, ks, i, now, launch).starts == st.starts + Where(st.flow, ks, GetsPane(i, launch))
    decreases |ks|
  {
    if |ks| != 0 {
      var k := ks[0];
      var next := LaunchFirst(st, k, i, now, launch);
      assert InRange(ks[1..], |st.flow|);
      LaunchEachAppends(next, ks[1..], i, now, launch);
      assert LaunchEach(next, ks[1..], i, now, launch) == LaunchEach(st, ks, i, now, launch);
      GetsPaneByName(next.flow, st.flow, ks[1..], i, launch);
      var rest := Where(st.flow, ks[1..], GetsPane(i, launch));
      if launch(i, st.flow[k].name).Some? {
        assert next.starts + rest == st.starts + ([k] + rest);
      }
    }
  }

  /**
   * Launching the tasks at ascending positions `ks` appends to `starts`, in
   * order, exactly the listed positions whose launch gave a pane.
   */
  lemma LaunchEachStarts(st: Loop, ks: seq<nat>, i: nat, now: Time, launch: Launcher)
    requires InRange(ks, |st.flow|) && Ascending(ks)
    ensures var r := LaunchEach(st, ks, i, now, launch);
      && |st.starts| <= |r.starts| && r.starts[..|st.starts|] == st.starts
      && Ascending(r.starts[|st.starts|..])
      && (forall k :: k in r.starts[|st.starts|..] <==> k in ks && launch(i, st.flow[k].name).Some?)
  {
    LaunchEachAppends(st, ks, i, now, launch);
    WhereAscending(st.flow, ks, GetsPane(i, launch));
    var r := LaunchEach(st, ks, i, now, launch);
    var added := Where(st.flow, ks, GetsPane(i, launch));
    assert r.starts[|st.starts|..] == added;
    assert r.starts[..|st.starts|] == st.starts;
  }

  /**
   * Launching the tasks at ascending positions `ks`: a listed task is launched
   * once, an unlisted one is left alone, and the positions whose launch gave a
   * pane are appended to `starts`, in order.
   */
  lemma LaunchEachEffect(st: Loop, ks: seq<nat>, i: nat, now: Time, launch: Launcher)
    requires InRange(ks, |st.flow|) && Ascending(ks)
    ensures var r := LaunchEach(st, ks, i, now, launch);
      && (forall k :: 0 <= k < |st.flow| ==>
            r.flow[k] == if k in ks then Launched(st.flow[k], i, now, launch) else st.flow[k])
      && |st.starts| <= |r.starts| && r.starts[..|st.starts|] == st.starts
      && Ascending(r.starts[|st.starts|..])
      && (forall k :: k in r.starts[|st.starts|..] <==> k in ks && launch(i, st.flow[k].name).Some?)
  {
    LaunchEachFlow(st, ks, i, now, launch);
    LaunchEachStarts(st, ks, i, now, launch);
  }

  /**
   * The position of the task a completion event for `name` settles: the one
   * the search over `incomplete + failed` stops at.
   */
  function Target(flow: seq<TaskState>, rs: RunStatus, name: string): (r: Option<nat>)
    requires WellFormed(rs, |flow|)
    ensures r.Some? ==> r.value < |flow| && (r.value in rs.incomplete || r.value in rs.failed) && flow[r.value].name == name
  {
    var cands := rs.incomplete + rs.failed;
    match FirstNamed(flow, cands, name)
    case None => None
    case Some(m) => Some(cands[m])
  }

  /** An event settles no task exactly when no incomplete or failed task has its name. */
  lemma TargetNone(flow: seq<TaskState>, rs: RunStatus, name: string)
    requires WellFormed(rs, |flow|)
    ensures Target(flow, rs, name).None? <==>
      forall k :: (k in rs.incomplete || k in rs.failed) ==> flow[k].name != name
  {
    var cands := rs.incomplete + rs.failed;
    if FirstNamed(flow, cands, name).None? {
      forall k | k in rs.incomplete || k in rs.failed ensures flow[k].name != name {
        assert k in cands;
        var a :| 0 <= a < |cands| && cands[a] == k;
      }
    }
  }

  /** An event for a name some incomplete task has settles the first such task. */
  lemma TargetFirstIncomplete(flow: seq<TaskState>, rs: RunStatus, name: string, j: nat)
    requires WellFormed(rs, |flow|)
    requires j in rs.incomplete && flow[j].name == name
    ensures var r := Target(flow, rs, name);
      r.Some? && r.value in rs.incomplete && r.value <= j
  {
    var cands := rs.incomplete + rs.failed;
    var n := |rs.incomplete|;
    var a :| 0 <= a < n && rs.incomplete[a] == j;
    assert cands[a] == j;
    var m := FirstNamed(flow, cands, name).value;
    assert m <= a;
    assert cands[m] == rs.incomplete[m];
    if m < a { assert rs.incomplete[m] < rs.incomplete[a]; }
  }

  /**
   * An event for a name no incomplete task has, but some failed task has,
   * settles the first such failed task.
   */
  lemma TargetFirstFailed(flow: seq<TaskState>, rs: RunStatus, name: string, j: nat)
    requires WellFormed(rs, |flow|)
    requires forall k :: k in rs.incomplete ==> flow[k].name != name
    requires j in rs.failed && flow[j].name == name
    ensures var r := Target(flow, rs, name);
      r.Some? && r.value in rs.failed && r.value <= j
  {
    var cands := rs.incomplete + rs.failed;
    var n := |rs.incomplete|;
    var a :| 0 <= a < |rs.failed| && rs.failed[a] == j;
    assert cands[n + a] == j;
    var m := FirstNamed(flow, cands, name).value;
    assert forall b :: 0 <= b < n ==> flow[cands[b]].name != name by {
      forall b | 0 <= b < n ensures flow[cands[b]].name != name { assert cands[b] == rs.incomplete[b]; }
    }
    assert cands[m] == rs.failed[m - n];
    if m < n + a { assert rs.failed[m - n] < rs.failed[a]; }
  }

  /** The poll part of an iteration, in terms of the task an event settles. */
  lemma PollEffect(st1: Loop, rs: RunStatus, i: nat, tick: Tick)
    requires WellFormed(rs, |st1.flow|)
    ensures var o := Poll(st1, rs, i, tick);
      && o.st.starts == st1.starts
      && (tick.delivery.None? ==> o.st.flow == st1.flow && o.st.lastDone == st1.lastDone)
      && (tick.delivery.Some? ==>
            var ev := tick.delivery.value;
            && o.st.lastDone == i && o.st.sweeps == st1.sweeps
            && (Target(st1.flow, rs, ev.name).None? ==> o.st.flow == st1.flow && o == Settle(o.st))
            && (Target(st1.flow, rs, ev.name).Some? ==>
                  var k := Target(st1.flow, rs, ev.name).value;
                  var c := AfterComplete(st1.flow[k], ev.returnCode, tick.now);
                  o.st.flow == st1.flow[k := c.task] &&
                  o == (if c.raised then Stop(Raised, o.st) else Settle(o.st))))
  {
    match tick.delivery {
      case None =>
        var rest := if (i - st1.lastDone) % 20 == 19 then st1.(sweeps := st1.sweeps + [i]) else st1;
        assert Poll(st1, rs, i, tick) in {Stop(Returned(|rs.failed| == 0), st1), Settle(rest)};
      case Some(ev) =>
        var cands := rs.incomplete + rs.failed;
        match FirstNamed(st1.flow, cands, ev.name) {
          case None =>
            assert Poll(st1, rs, i, tick) == Settle(st1.(lastDone := i));
          case Some(m) =>
            var c := AfterComplete(st1.flow[cands[m]], ev.returnCode, tick.now);
            var st2 := st1.(flow := st1.flow[cands[m] := c.task], lastDone := i);
            assert Poll(st1, rs, i, tick) == if c.raised then Stop(Raised, st2) else Settle(st2);
        }
    }
  }

  /** The poll part of an iteration that receives an event, in terms of the task the event settles. */
  lemma PollEvent(st1: Loop, rs: RunStatus, i: nat, tick: Tick)
    requires WellFormed(rs, |st1.flow|) && tick.delivery.Some?
    ensures var o := Poll(st1, rs, i, tick);
      var ev := tick.delivery.value;
      var target := Target(st1.flow, rs, ev.name);
      && o.st.lastDone == i && |o.st.flow| == |st1.flow|
      && (forall k :: 0 <= k < |st1.flow| && (target.None? || k != target.value) ==> o.st.flow[k] == st1.flow[k])
      && (target.Some? ==>
            o.st.flow[target.value] == AfterComplete(st1.flow[target.value], ev.returnCode, tick.now).task)
      && (o.Stop? <==> (target.Some? && PyText.PyInt(ev.returnCode).None?) || ReportRaises(o.st.flow))
      && (o.Stop? ==> o.verdict == Raised)
  {
    var o := Poll(st1, rs, i, tick);
    var ev := tick.delivery.value;
    var cands := rs.incomplete + rs.failed;
    match FirstNamed(st1.flow, cands, ev.name) {
      case None =>
        assert o == Settle(st1.(lastDone := i));
      case Some(m) =>
        var c := AfterComplete(st1.flow[cands[m]], ev.returnCode, tick.now);
        var st2 := st1.(flow := st1.flow[cands[m] := c.task], lastDone := i);
        assert o == if c.raised then Stop(Raised, st2) else Settle(st2);
    }
  }

  /**
   * An iteration that receives an event sets `last_done` to its number and, of
   * the tasks as its launches left them, changes only the one `Target` names,
   * which it completes with the event's code. It stops exactly when that code
   * does not convert or the table cannot be built, and then as Raised.
   */
  lemma EventSettlesTarget(st: Loop, i: nat, tick: Tick, launch: Launcher)
    requires tick.delivery.Some?
    ensures var o := Step(st, i, tick, launch);
      var rs := GetRunStatus(st.flow);
      var st1 := LaunchEach(st, rs.runnable, i, tick.now, launch);
      var ev := tick.delivery.value;
      var target := Target(st1.flow, rs, ev.name);
      && o.st.lastDone == i && |o.st.flow| == |st.flow|
      && (forall k :: 0 <= k < |st.flow| && (target.None? || k != target.value) ==> o.st.flow[k] == st1.flow[k])
      && (target.Some? ==>
            o.st.flow[target.value] == AfterComplete(st1.flow[target.value], ev.returnCode, tick.now).task)
      && (o.Stop? <==> (target.Some? && PyText.PyInt(ev.returnCode).None?) || ReportRaises(o.st.flow))
      && (o.Stop? ==> o.verdict == Raised)
  {
    var rs := GetRunStatus(st.flow);
    var st1 := LaunchEach(st, rs.runnable, i, tick.now, launch);
    assert Step(st, i, tick, launch) == Poll(st1, rs, i, tick);
    PollEvent(st1, rs, i, tick);
  }

  /** Names, commands and dependencies: what the loop never changes in a task. */
  predicate SameTask(a: TaskState, b: TaskState)
  {
    a.name == b.name && a.command == b.command && a.depends == b.depends
  }

  /**
   * The poll part of an iteration records no start, starts and unstarts no task,
   * keeps names, commands and dependencies, and changes only an incomplete or
   * failed task.
   */
  lemma PollKeeps(st1: Loop, rs: RunStatus, i: nat, tick: Tick)
    requires WellFormed(rs, |st1.flow|)
    ensures var o := Poll(st1, rs, i, tick);
      && o.st.starts == st1.starts && |o.st.flow| == |st1.flow|
      && forall k :: 0 <= k < |st1.flow| ==>
           && SameTask(st1.flow[k], o.st.flow[k]) && o.st.flow[k].started == st1.flow[k].started
           && (o.st.flow[k] == st1.flow[k] || k in rs.incomplete || k in rs.failed)
  {
    PollEffect(st1, rs, i, tick);
    if tick.delivery.Some? {
      var ev := tick.delivery.value;
      var target := Target(st1.flow, rs, ev.name);
      if target.Some? {
        var c := AfterComplete(st1.flow[target.value], ev.returnCode, tick.now);
        assert SameTask(st1.flow[target.value], c.task) && c.task.started == st1.flow[target.value].started;
      }
    }
  }

  /** `StepStarts`, for any well-formed lists the iteration works from. */
  lemma IterationStarts(st: Loop, rs: RunStatus, i: nat, tick: Tick, launch: Launcher)
    requires WellFormed(rs, |st.flow|)
    ensures var o := Poll(LaunchEach(st, rs.runnable, i, tick.now, launch), rs, i, tick);
      && |o.st.flow| == |st.flow|
      && |st.starts| <= |o.st.starts| && o.st.starts[..|st.starts|] == st.starts
      && Ascending(Added(st, o.st))
      && (forall k :: k in Added(st, o.st) <==> k in rs.runnable && launch(i, st.flow[k].name).Some?)
      && (forall k :: k in Added(st, o.st) ==> k < |st.flow| && o.st.flow[k].started)
  {
    var st1 := LaunchEach(st, rs.runnable, i, tick.now, launch);
    LaunchEachEffect(st, rs.runnable, i, tick.now, launch);
    PollKeeps(st1, rs, i, tick);
    var o := Poll(st1, rs, i, tick);
    assert Added(st, o.st) == st1.starts[|st.starts|..];
    forall k | k in Added(st, o.st) ensures k < |st.flow| && o.st.flow[k].started {
      assert k in rs.runnable;
      assert st1.flow[k].started;
    }
  }

  /**
   * The tasks one iteration starts are exactly the runnable ones whose launch
   * gave a pane, recorded in flow order, and they are STARTED afterwards.
   */
  lemma StepStarts(st: Loop, i: nat, tick: Tick, launch: Launcher)
    ensures var o := Step(st, i, tick, launch);
      var rs := GetRunStatus(st.flow);
      && |o.st.flow| == |st.flow|
      && |st.starts| <= |o.st.starts| && o.st.starts[..|st.starts|] == st.starts
      && Ascending(Added(st, o.st))
      && (forall k :: k in Added(st, o.st) <==>
            k in rs.runnable && launch(i, st.flow[k].name).Some?)
      && (forall k :: k in Added(st, o.st) ==> k < |st.flow| && o.st.flow[k].started)
  {
    var rs := GetRunStatus(st.flow);
    assert Step(st, i, tick, launch) == Poll(LaunchEach(st, rs.runnable, i, tick.now, launch), rs, i, tick);
    IterationStarts(st, rs, i, tick, launch);
  }

  /** `StepKeeps`, for lists whose runnable tasks are incomplete and which leave SUCCEEDED tasks out. */
  lemma IterationKeeps(st: Loop, rs: RunStatus, i: nat, tick: Tick, launch: Launcher)
    requires WellFormed(rs, |st.flow|)
    requires forall k :: k in rs.runnable ==> k in rs.incomplete
    requires forall k :: 0 <= k < |st.flow| && StatusOf(st.flow[k]) == Succeeded ==> k !in rs.incomplete && k !in rs.failed
    ensures var o := Poll(LaunchEach(st, rs.runnable, i, tick.now, launch), rs, i, tick);
      && |o.st.flow| == |st.flow| && |st.starts| <= |o.st.starts|
      && (forall k :: 0 <= k < |st.flow| ==> SameTask(st.flow[k], o.st.flow[k]))
      && (forall k :: 0 <= k < |st.flow| && st.flow[k].started ==> o.st.flow[k].started)
      && (forall k :: 0 <= k < |st.flow| && o.st.flow[k].started ==>
            st.flow[k].started || k in Added(st, o.st))
      && (forall k :: 0 <= k < |st.flow| && StatusOf(st.flow[k]) == Succeeded ==> o.st.flow[k] == st.flow[k])
  {
    var st1 := LaunchEach(st, rs.runnable, i, tick.now, launch);
    LaunchEachEffect(st, rs.runnable, i, tick.now, launch);
    PollKeeps(st1, rs, i, tick);
    var o := Poll(st1, rs, i, tick);
    assert Added(st, o.st) == st1.starts[|st.starts|..];
    forall k | 0 <= k < |st.flow|
      ensures SameTask(st.flow[k], o.st.flow[k])
      ensures st.flow[k].started ==> o.st.flow[k].started
      ensures o.st.flow[k].started ==> st.flow[k].started || k in Added(st, o.st)
      ensures StatusOf(st.flow[k]) == Succeeded ==> o.st.flow[k] == st.flow[k]
    {
      if k in rs.runnable {
        assert st1.flow[k] == Launched(st.flow[k], i, tick.now, launch);
      } else {
        assert st1.flow[k] == st.flow[k];
      }
    }
  }

  /**
   * What one iteration keeps: no task becomes started except those it starts,
   * no started task becomes unstarted, no task changes name, command or
   * dependencies, and a SUCCEEDED task is left as it was.
   */
  lemma StepKeeps(st: Loop, i: nat, tick: Tick, launch: Launcher)
    ensures var o := Step(st, i, tick, launch);
      && |o.st.flow| == |st.flow| && |st.starts| <= |o.st.starts|
      && (forall k :: 0 <= k < |st.flow| ==> SameTask(st.flow[k], o.st.flow[k]))
      && (forall k :: 0 <= k < |st.flow| && st.flow[k].started ==> o.st.flow[k].started)
      && (forall k :: 0 <= k < |st.flow| && o.st.flow[k].started ==>
            st.flow[k].started || k in Added(st, o.st))
      && (forall k :: 0 <= k < |st.flow| && StatusOf(st.flow[k]) == Succeeded ==> o.st.flow[k] == st.flow[k])
  {
    var rs := GetRunStatus(st.flow);
    assert Step(st, i, tick, launch) == Poll(LaunchEach(st, rs.runnable, i, tick.now, launch), rs, i, tick);
    IterationKeeps(st, rs, i, tick, launch);
  }

  /**
   * A task is started in an iteration exactly when it is PENDING, every
   * dependency that names a task of the flow has SUCCEEDED, and its launch
   * gives a pane. A task not started before ends the iteration started exactly
   * when it is recorded as started in it, so a failed launch leaves it unstarted.
   */
  lemma StartsOnlyWhenReady(st: Loop, i: nat, tick: Tick, launch: Launcher, k: nat)
    requires k < |st.flow|
    ensures k in Added(st, Step(st, i, tick, launch).st) <==>
      StatusOf(st.flow[k]) == Pending && DependenciesMet(st.flow, st.flow[k]) &&
      launch(i, st.flow[k].name).Some?
    ensures |Step(st, i, tick, launch).st.flow| == |st.flow|
    ensures !st.flow[k].started ==>
      (Step(st, i, tick, launch).st.flow[k].started <==> k in Added(st, Step(st, i, tick, launch).st))
  {
    StepStarts(st, i, tick, launch);
    StepKeeps(st, i, tick, launch);
    Membership(st.flow, k);
  }

  /**
   * What holds of every state of a run, relative to the flow it started from:
   * recorded starts are distinct positions of tasks that were not started at
   * the beginning and are started now; every task started now was started at
   * the beginning or is recorded; names, commands and dependencies are as they
   * were; a task SUCCEEDED at the beginning is unchanged and never started.
   */
  predicate Tracked(init: seq<TaskState>, st: Loop)
  {
    && |st.flow| == |init|
    && NoRepeat(st.starts)
    && (forall m :: 0 <= m < |st.starts| ==>
          st.starts[m] < |init| && !init[st.starts[m]].started && st.flow[st.starts[m]].started)
    && (forall k :: 0 <= k < |init| ==> SameTask(init[k], st.flow[k]))
    && (forall k :: 0 <= k < |init| && init[k].started ==> st.flow[k].started)
    && (forall k :: 0 <= k < |init| && st.flow[k].started ==> init[k].started || k in st.starts)
    && (forall k :: 0 <= k < |init| && StatusOf(init[k]) == Succeeded ==> st.flow[k] == init[k] && k !in st.starts)
  }

  /**
   * What one iteration does to the tasks, relative to the state it began in:
   * it only appends to `starts`, in flow order, tasks that were neither started
   * nor completed and are started now; it starts no other task and unstarts
   * none; it keeps names, commands and dependencies; it leaves SUCCEEDED tasks alone.
   */
  predicate Advance(st: Loop, o: Loop)
  {
    && |o.flow| == |st.flow|
    && |st.starts| <= |o.starts| && o.starts[..|st.starts|] == st.starts
    && Ascending(Added(st, o))
    && (forall k :: k in Added(st, o) ==>
          k < |st.flow| && !st.flow[k].started && !st.flow[k].completed && o.flow[k].started)
    && (forall k :: 0 <= k < |st.flow| ==> SameTask(st.flow[k], o.flow[k]))
    && (forall k :: 0 <= k < |st.flow| && st.flow[k].started ==> o.flow[k].started)
    && (forall k :: 0 <= k < |st.flow| && o.flow[k].started ==> st.flow[k].started || k in Added(st, o))
    && (forall k :: 0 <= k < |st.flow| && StatusOf(st.flow[k]) == Succeeded ==> o.flow[k] == st.flow[k])
  }

  lemma StepAdvances(st: Loop, i: nat, tick: Tick, launch: Launcher)
    ensures Advance(st, Step(st, i, tick, launch).st)
  {
    StepStarts(st, i, tick, launch);
    StepKeeps(st, i, tick, launch);
    var o := Step(st, i, tick, launch).st;
    var rs := GetRunStatus(st.flow);
    forall k | k in Added(st, o) ensures !st.flow[k].started && !st.flow[k].completed {
      assert k in rs.runnable;
    }
  }

  /** Appending fresh positions without repeats keeps a list free of repeats. */
  lemma AppendNoRepeat(a: seq<nat>, b: seq<nat>)
    requires NoRepeat(a) && Ascending(b) && forall k :: k in b ==> k !in a
    ensures NoRepeat(a + b)
  {
    var c := a + b;
    forall x, y | 0 <= x < y < |c| ensures c[x] != c[y] {
      if y >= |a| {
        assert c[y] == b[y - |a|] && c[y] in b;
        if x >= |a| {
          assert c[x] == b[x - |a|];
        } else {
          assert c[x] in a;
        }
      }
    }
  }

  /** An iteration keeps the run invariant. */
  lemma AdvanceTracked(init: seq<TaskState>, st: Loop, o: Loop)
    requires Tracked(init, st) && Advance(st, o)
    ensures Tracked(init, o)
  {
    var n := |st.starts|;
    var added := Added(st, o);
    assert o.starts == st.starts + added;
    forall k | k in added ensures k !in st.starts {
    }
    AppendNoRepeat(st.starts, added);
    forall m | 0 <= m < |o.starts|
      ensures o.starts[m] < |init| && !init[o.starts[m]].started && o.flow[o.starts[m]].started
    {
      if m >= n {
        assert o.starts[m] in added;
      } else {
        assert o.starts[m] == st.starts[m];
      }
    }
    forall k | 0 <= k < |init| && StatusOf(init[k]) == Succeeded ensures k !in o.starts {
      assert k !in added;
    }
    forall k | 0 <= k < |init| && o.flow[k].started ensures init[k].started || k in o.starts {
      assert st.flow[k].started || k in added;
    }
  }

  lemma StepTracked(init: seq<TaskState>, st: Loop, i: nat, tick: Tick, launch: Launcher)
    requires Tracked(init, st)
    ensures Tracked(init, Step(st, i, tick, launch).st)
  {
    StepAdvances(st, i, tick, launch);
    AdvanceTracked(init, st, Step(st, i, tick, launch).st);
  }

  /** The run invariant holds from iteration `i` to the end of the run. */
  lemma {:induction false} RunFromTracked(init: seq<TaskState>, st: Loop, ticks: seq<Tick>, i: nat, launch: Launcher)
    requires Tracked(init, st)
    ensures Tracked(init, RunFrom(st, ticks, i, launch).last)
    decreases |ticks| - i
  {
    if i < |ticks| {
      StepTracked(init, st, i, ticks[i], launch);
      match Step(st, i, ticks[i], launch)
      case Next(st') => RunFromTracked(init, st', ticks, i + 1, launch);
      case Stop(_, _) =>
    }
  }

  /**
   * Over a whole run, each task is started at most once, only if it was not
   * started when the run began; a task ends the run started exactly when it
   * began started or the run started it; and names, commands and dependencies
   * are never changed.
   */
  lemma StartedAtMostOnce(flow: seq<TaskState>, ticks: seq<Tick>, launch: Launcher)
    ensures var f := Run(flow, ticks, launch).last;
      && |f.flow| == |flow| && NoRepeat(f.starts)
      && (forall m :: 0 <= m < |f.starts| ==> f.starts[m] < |flow| && !flow[f.starts[m]].started)
      && (forall k :: 0 <= k < |flow| ==> (f.flow[k].started <==> flow[k].started || k in f.starts))
      && (forall k :: 0 <= k < |flow| ==> SameTask(flow[k], f.flow[k]))
  {
    RunFromTracked(flow, Loop(flow, 0, [], []), ticks, 0, launch);
    var f := Run(flow, ticks, launch).last;
    forall k | 0 <= k < |flow| && k in f.starts ensures f.flow[k].started {
      var m :| 0 <= m < |f.starts| && f.starts[m] == k;
    }
  }

  /** A task that had SUCCEEDED when the run began is never started and never changed. */
  lemma SucceededUntouched(flow: seq<TaskState>, ticks: seq<Tick>, launch: Launcher)
    ensures var f := Run(flow, ticks, launch).last;
      |f.flow| == |flow| &&
      forall k :: 0 <= k < |flow| && StatusOf(flow[k]) == Succeeded ==> f.flow[k] == flow[k] && k !in f.starts
  {
    RunFromTracked(flow, Loop(flow, 0, [], []), ticks, 0, launch);
  }

  /** The poll part of an iteration returns exactly on a timeout with nothing runnable or running and idle panes. */
  lemma PollReturns(st1: Loop, rs: RunStatus, i: nat, tick: Tick)
    requires WellFormed(rs, |st1.flow|)
    ensures var o := Poll(st1, rs, i, tick);
      && (o.Stop? && o.verdict.Returned? <==>
            tick.delivery.None? && tick.panesIdle && rs.runnable == [] && rs.running == [])
      && (o.Stop? && o.verdict.Returned? ==> o.st == st1 && (o.verdict.success <==> rs.failed == []))
  {
    var o := Poll(st1, rs, i, tick);
    match tick.delivery {
      case None =>
        if |rs.runnable| == 0 && |rs.running| == 0 && tick.panesIdle {
          assert o == Stop(Returned(|rs.failed| == 0), st1);
        } else {
          var rest := if (i - st1.lastDone) % 20 == 19 then st1.(sweeps := st1.sweeps + [i]) else st1;
          assert o == Settle(rest);
        }
      case Some(ev) =>
        var cands := rs.incomplete + rs.failed;
        match FirstNamed(st1.flow, cands, ev.name) {
          case None =>
            assert o == Settle(st1.(lastDone := i));
          case Some(m) =>
            var c := AfterComplete(st1.flow[cands[m]], ev.returnCode, tick.now);
            var st2 := st1.(flow := st1.flow[cands[m] := c.task], lastDone := i);
            assert o == if c.raised then Stop(Raised, st2) else Settle(st2);
        }
    }
  }

  /**
   * An iteration returns exactly on a timeout when nothing is runnable or
   * running and every other pane is dead; it then changes no task, and it
   * reports success exactly when every task's code is 0.
   */
  lemma StepReturns(st: Loop, i: nat, tick: Tick, launch: Launcher)
    ensures var o := Step(st, i, tick, launch);
      var rs := GetRunStatus(st.flow);
      && (o.Stop? && o.verdict.Returned? <==>
            tick.delivery.None? && tick.panesIdle && rs.runnable == [] && rs.running == [])
      && (o.Stop? && o.verdict.Returned? ==>
            && o.st.flow == st.flow
            && (o.verdict.success <==> forall k :: 0 <= k < |st.flow| ==> st.flow[k].returnCode == Some(0)))
  {
    var rs := GetRunStatus(st.flow);
    var st1 := LaunchEach(st, rs.runnable, i, tick.now, launch);
    assert Step(st, i, tick, launch) == Poll(st1, rs, i, tick);
    PollReturns(st1, rs, i, tick);
    NoFailedIffAllZero(st.flow);
    if rs.runnable == [] {
      assert st1 == st;
    }
  }

  /** Where the run returns, nothing is runnable or running, and success means every code is 0. */
  lemma {:induction false} RunFromReturns(st: Loop, ticks: seq<Tick>, i: nat, launch: Launcher)
    ensures var f := RunFrom(st, ticks, i, launch);
      f.verdict.Returned? ==>
        var rs := GetRunStatus(f.last.flow);
        && rs.runnable == [] && rs.running == []
        && (f.verdict.success <==> forall k :: 0 <= k < |f.last.flow| ==> f.last.flow[k].returnCode == Some(0))
    decreases |ticks| - i
  {
    if i < |ticks| {
      StepReturns(st, i, ticks[i], launch);
      match Step(st, i, ticks[i], launch)
      case Next(st') => RunFromReturns(st', ticks, i + 1, launch);
      case Stop(_, _) =>
    }
  }

  /**
   * `traverse` returns only when no task is runnable or running, and it returns
   * True exactly when every task of the flow has return code 0.
   */
  lemma RunReturns(flow: seq<TaskState>, ticks: seq<Tick>, launch: Launcher)
    ensures var f := Run(flow, ticks, launch);
      f.verdict.Returned? ==>
        var rs := GetRunStatus(f.last.flow);
        && rs.runnable == [] && rs.running == []
        && (f.verdict.success <==> forall k :: 0 <= k < |f.last.flow| ==> f.last.flow[k].returnCode == Some(0))
  {
    RunFromReturns(Loop(flow, 0, [], []), ticks, 0, launch);
  }

  /** Only completed tasks carry a return code: true of fresh tasks, and kept by the loop. */
  predicate CodesSettled(flow: seq<TaskState>)
  {
    forall k :: 0 <= k < |flow| && flow[k].returnCode.Some? ==> flow[k].completed
  }

  lemma StepSettled(st: Loop, i: nat, tick: Tick, launch: Launcher)
    requires CodesSettled(st.flow)
    ensures CodesSettled(Step(st, i, tick, launch).st.flow)
  {
    var rs := GetRunStatus(st.flow);
    LaunchEachEffect(st, rs.runnable, i, tick.now, launch);
    var st1 := LaunchEach(st, rs.runnable, i, tick.now, launch);
    forall k | 0 <= k < |st1.flow| && st1.flow[k].returnCode.Some? ensures st1.flow[k].completed {
      assert st1.flow[k] == st.flow[k] || st1.flow[k] == Launched(st.flow[k], i, tick.now, launch);
    }
    PollEffect(st1, rs, i, tick);
  }

  lemma {:induction false} RunFromSettled(st: Loop, ticks: seq<Tick>, i: nat, launch: Launcher)
    requires CodesSettled(st.flow)
    ensures CodesSettled(RunFrom(st, ticks, i, launch).last.flow)
    decreases |ticks| - i
  {
    if i < |ticks| {
      StepSettled(st, i, ticks[i], launch);
      match Step(st, i, ticks[i], launch)
      case Next(st') => RunFromSettled(st', ticks, i + 1, launch);
      case Stop(_, _) =>
    }
  }

  /**
   * Starting from tasks that carry a code only once completed, `traverse`
   * returns True exactly when every task has SUCCEEDED.
   */
  lemma SuccessMeansAllSucceeded(flow: seq<TaskState>, ticks: seq<Tick>, launch: Launcher)
    requires CodesSettled(flow)
    ensures var f := Run(flow, ticks, launch);
      f.verdict.Returned? ==>
        (f.verdict.success <==> forall k :: 0 <= k < |f.last.flow| ==> StatusOf(f.last.flow[k]) == Succeeded)
  {
    RunReturns(flow, ticks, launch);
    RunFromSettled(Loop(flow, 0, [], []), ticks, 0, launch);
  }

  /** `last_done` at iteration `i`: the last earlier iteration whose poll delivered an event, or 0. */
  function LastDelivery(ticks: seq<Tick>, i: nat): (r: nat)
    requires i <= |ticks|
    ensures r == 0 || (r < i && ticks[r].delivery.Some?)
    ensures forall j :: r < j < i ==> ticks[j].delivery.None?
  {
    if i == 0 then 0
    else if ticks[i - 1].delivery.Some? then i - 1
    else LastDelivery(ticks, i - 1)
  }

  /** Iteration `s` timed out when `(s - last_done) % 20 == 19`: the iterations that kill dead panes. */
  predicate Quiet(ticks: seq<Tick>, s: nat)
    requires s < |ticks|
  {
    ticks[s].delivery.None? && (s - LastDelivery(ticks, s)) % 20 == 19
  }

  /** The quiet iterations before `n`, in order. */
  function QuietIterations(ticks: seq<Tick>, n: nat): (r: seq<nat>)
    requires n <= |ticks|
    ensures forall s: nat :: s in r <==> s < n && Quiet(ticks, s)
  {
    if n == 0 then [] else QuietIterations(ticks, n - 1) + (if Quiet(ticks, n - 1) then [n - 1] else [])
  }

  /** The loop's `last_done` and sweeps, as the ticks before iteration `i` determine them. */
  predicate SweepTracked(ticks: seq<Tick>, st: Loop, i: nat)
  {
    i <= |ticks| && st.lastDone == LastDelivery(ticks, i) && st.sweeps == QuietIterations(ticks, i)
  }

  /** What the poll part of an iteration does to `last_done` and to the sweeps. */
  lemma PollBookkeeping(st1: Loop, rs: RunStatus, i: nat, tick: Tick)
    requires WellFormed(rs, |st1.flow|)
    ensures var o := Poll(st1, rs, i, tick);
      var swept := st1.sweeps + (if (i - st1.lastDone) % 20 == 19 then [i] else []);
      && (tick.delivery.Some? ==> o.st.lastDone == i && o.st.sweeps == st1.sweeps)
      && (tick.delivery.None? ==> o.st.lastDone == st1.lastDone)
      && (tick.delivery.None? && o.Next? ==> o.st.sweeps == swept)
      && (tick.delivery.None? && o.Stop? ==> o.st.sweeps == st1.sweeps || o.st.sweeps == swept)
      && (o.Stop? ==> o.verdict != Unfinished)
  {
    match tick.delivery {
      case None =>
        var rest := if (i - st1.lastDone) % 20 == 19 then st1.(sweeps := st1.sweeps + [i]) else st1;
        assert Poll(st1, rs, i, tick) in {Stop(Returned(|rs.failed| == 0), st1), Settle(rest)};
      case Some(ev) =>
        var cands := rs.incomplete + rs.failed;
        match FirstNamed(st1.flow, cands, ev.name) {
          case None =>
            assert Poll(st1, rs, i, tick) == Settle(st1.(lastDone := i));
          case Some(m) =>
            var c := AfterComplete(st1.flow[cands[m]], ev.returnCode, tick.now);
            var st2 := st1.(flow := st1.flow[cands[m] := c.task], lastDone := i);
            assert Poll(st1, rs, i, tick) == if c.raised then Stop(Raised, st2) else Settle(st2);
        }
    }
  }

  /** Every listed iteration is a quiet one. */
  predicate QuietOnly(ticks: seq<Tick>, sweeps: seq<nat>)
  {
    forall s: nat :: s in sweeps ==> s < |ticks| && Quiet(ticks, s)
  }

  /** `StepSweeps` for the poll part of the iteration, which does the bookkeeping. */
  lemma PollSweeps(ticks: seq<Tick>, st1: Loop, rs: RunStatus, i: nat)
    requires i < |ticks| && SweepTracked(ticks, st1, i) && WellFormed(rs, |st1.flow|)
    ensures var o := Poll(st1, rs, i, ticks[i]);
      && (o.Next? ==> SweepTracked(ticks, o.st, i + 1))
      && (o.Stop? ==> QuietOnly(ticks, o.st.sweeps) && o.verdict != Unfinished)
  {
    var tick := ticks[i];
    var o := Poll(st1, rs, i, tick);
    PollBookkeeping(st1, rs, i, tick);
    QuietStep(ticks, i);
    var extra: seq<nat> := if Quiet(ticks, i) then [i] else [];
    if tick.delivery.Some? {
      assert !Quiet(ticks, i);
      assert o.st.sweeps == QuietIterations(ticks, i + 1);
    } else {
      assert ((i - st1.lastDone) % 20 == 19) == Quiet(ticks, i);
      assert o.st.sweeps == st1.sweeps || o.st.sweeps == st1.sweeps + extra;
      assert o.Next? ==> o.st.sweeps == st1.sweeps + extra;
    }
    assert QuietOnly(ticks, st1.sweeps + extra);
  }

  lemma StepSweeps(ticks: seq<Tick>, st: Loop, i: nat, launch: Launcher)
    requires i < |ticks| && SweepTracked(ticks, st, i)
    ensures var o := Step(st, i, ticks[i], launch);
      && (o.Next? ==> SweepTracked(ticks, o.st, i + 1))
      && (o.Stop? ==> QuietOnly(ticks, o.st.sweeps) && o.verdict != Unfinished)
  {
    var rs := GetRunStatus(st.flow);
    var st1 := LaunchEach(st, rs.runnable, i, ticks[i].now, launch);
    assert Step(st, i, ticks[i], launch) == Poll(st1, rs, i, ticks[i]);
    PollSweeps(ticks, st1, rs, i);
  }

  /** How `last_done` and the quiet iterations move on by one iteration. */
  lemma QuietStep(ticks: seq<Tick>, i: nat)
    requires i < |ticks|
    ensures LastDelivery(ticks, i + 1) == if ticks[i].delivery.Some? then i else LastDelivery(ticks, i)
    ensures QuietIterations(ticks, i + 1) == QuietIterations(ticks, i) + (if Quiet(ticks, i) then [i] else [])
    ensures Quiet(ticks, i) <==> ticks[i].delivery.None? && (i - LastDelivery(ticks, i)) % 20 == 19
  {
  }

  lemma {:induction false} RunFromSweeps(ticks: seq<Tick>, st: Loop, i: nat, launch: Launcher)
    requires SweepTracked(ticks, st, i)
    ensures var f := RunFrom(st, ticks, i, launch);
      && QuietOnly(ticks, f.last.sweeps)
      && (f.verdict == Unfinished ==> f.last.sweeps == QuietIterations(ticks, |ticks|))
    decreases |ticks| - i
  {
    if i < |ticks| {
      StepSweeps(ticks, st, i, launch);
      var o := Step(st, i, ticks[i], launch);
      if o.Next? {
        RunFromSweeps(ticks, o.st, i + 1, launch);
        assert RunFrom(st, ticks, i, launch) == RunFrom(o.st, ticks, i + 1, launch);
      } else {
        assert RunFrom(st, ticks, i, launch) == Final(o.verdict, o.st);
      }
    } else {
      assert i == |ticks|;
    }
  }

  /**
   * Dead panes are killed only at iterations that timed out with
   * `(i - last_done) % 20 == 19`; and in a run that neither returns nor raises,
   * at every such iteration.
   */
  lemma SweepsOnlyWhenQuiet(flow: seq<TaskState>, ticks: seq<Tick>, launch: Launcher)
    ensures var f := Run(flow, ticks, launch);
      && QuietOnly(ticks, f.last.sweeps)
      && (f.verdict == Unfinished ==> f.last.sweeps == QuietIterations(ticks, |ticks|))
  {
    RunFromSweeps(ticks, Loop(flow, 0, [], []), 0, launch);
  }
}

