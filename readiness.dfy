/**
 * `get_run_status`: the split of a flow into runnable, running, incomplete and
 * failed tasks. Each list is represented by the positions, in flow order, of the
 * tasks it holds.
 */
module Readiness {
  import opened Wrappers
  import opened Tasks

  /** Every position in `ks` is a position of a flow of length `n`. */
  predicate InRange(ks: seq<nat>, n: nat)
  {
    forall m :: 0 <= m < |ks| ==> ks[m] < n
  }

  /** Strictly increasing positions: a sub-list of the flow, in flow order, without repeats. */
  predicate Ascending(ks: seq<nat>)
  {
    forall a, b :: 0 <= a < b < |ks| ==> ks[a] < ks[b]
  }

  /** The positions `0, 1, ..., n - 1`: the flow itself. */
  function Range(n: nat): (r: seq<nat>)
    ensures |r| == n && forall m :: 0 <= m < n ==> r[m] == m
  {
    seq(n, m => m)
  }

  /** The head of a list of positions, and the rest of it; in an ascending list the rest lies above the head. */
  lemma AscendingTail(ks: seq<nat>)
    requires |ks| > 0
    ensures forall q :: q in ks <==> q == ks[0] || q in ks[1..]
    ensures Ascending(ks) ==> Ascending(ks[1..]) && forall q :: q in ks[1..] ==> ks[0] < q
  {
    forall q | q in ks ensures q == ks[0] || q in ks[1..] {
      var a :| 0 <= a < |ks| && ks[a] == q;
      if a > 0 { assert ks[1..][a - 1] == q; }
    }
    if Ascending(ks) {
      forall q | q in ks[1..] ensures ks[0] < q {
        var a :| 0 <= a < |ks| - 1 && ks[1..][a] == q;
        assert ks[a + 1] == q;
      }
    }
  }

  /** A list comprehension `[task for task in ks if keep(task)]`. */
  function Where(flow: seq<TaskState>, ks: seq<nat>, keep: TaskState -> bool): (r: seq<nat>)
    requires InRange(ks, |flow|)
    ensures InRange(r, |flow|) && |r| <= |ks|
    ensures forall k :: k in r <==> k in ks && keep(flow[k])
  {
    if ks == [] then []
    else
      AscendingTail(ks);
      var rest := Where(flow, ks[1..], keep);
      if keep(flow[ks[0]]) then [ks[0]] + rest else rest
  }

  /** The comprehension keeps the order of the list it filters. */
  lemma {:induction false} WhereAscending(flow: seq<TaskState>, ks: seq<nat>, keep: TaskState -> bool)
    requires InRange(ks, |flow|) && Ascending(ks)
    ensures Ascending(Where(flow, ks, keep))
    decreases |ks|
  {
    if ks != [] {
      AscendingTail(ks);
      var rest := Where(flow, ks[1..], keep);
      WhereAscending(flow, ks[1..], keep);
      if keep(flow[ks[0]]) {
        var r := [ks[0]] + rest;
        forall a, b | 0 <= a < b < |r| ensures r[a] < r[b] {
          assert r[b] == rest[b - 1] && rest[b - 1] in ks[1..];
          if a > 0 { assert r[a] == rest[a - 1]; }
        }
      }
    }
  }

  /** `{t.name for t in tasks}`. */
  function Names(flow: seq<TaskState>, ks: seq<nat>): (r: set<string>)
    requires InRange(ks, |flow|)
    ensures forall m :: 0 <= m < |ks| ==> flow[ks[m]].name in r
    ensures forall x :: x in r ==> exists m :: 0 <= m < |ks| && flow[ks[m]].name == x
  {
    set m | 0 <= m < |ks| :: flow[ks[m]].name
  }

  datatype RunStatus = RunStatus(runnable: seq<nat>, running: seq<nat>, incomplete: seq<nat>, failed: seq<nat>)

  /** The four lists are all ascending positions of the flow. */
  predicate WellFormed(rs: RunStatus, n: nat)
  {
    && InRange(rs.runnable, n) && Ascending(rs.runnable)
    && InRange(rs.running, n) && Ascending(rs.running)
    && InRange(rs.incomplete, n) && Ascending(rs.incomplete)
    && InRange(rs.failed, n) && Ascending(rs.failed)
  }

  /**
   * `get_run_status(flow)`. `failed` keeps every task whose code is not 0, which
   * includes every task still without a code; `runnable` keeps the not-started
   * incomplete tasks none of whose dependencies names an incomplete or failed task.
   */
  function GetRunStatus(flow: seq<TaskState>): (rs: RunStatus)
    ensures WellFormed(rs, |flow|)
    ensures forall k :: k in rs.incomplete <==> 0 <= k < |flow| && !flow[k].completed
    ensures forall k :: k in rs.failed <==> 0 <= k < |flow| && flow[k].returnCode != Some(0)
    ensures forall k :: k in rs.running <==> k in rs.incomplete && flow[k].started
    ensures forall k :: k in rs.runnable <==>
      (k in rs.incomplete && !flow[k].started &&
       flow[k].depends !! (Names(flow, rs.incomplete) + Names(flow, rs.failed)))
  {
    var all := Range(|flow|);
    assert forall k :: k in all <==> 0 <= k < |flow| by {
      forall k | 0 <= k < |flow| ensures k in all { assert all[k] == k; }
    }
    var incomplete := Where(flow, all, (t: TaskState) => !t.completed);
    var failed := Where(flow, all, (t: TaskState) => t.returnCode != Some(0));
    var blocked := Names(flow, incomplete) + Names(flow, failed);
    var running := Where(flow, incomplete, (t: TaskState) => t.started);
    var runnable := Where(flow, incomplete, (t: TaskState) => !t.started && t.depends !! blocked);
    assert Ascending(all);
    WhereAscending(flow, all, (t: TaskState) => !t.completed);
    WhereAscending(flow, all, (t: TaskState) => t.returnCode != Some(0));
    WhereAscending(flow, incomplete, (t: TaskState) => t.started);
    WhereAscending(flow, incomplete, (t: TaskState) => !t.started && t.depends !! blocked);
    RunStatus(runnable, running, incomplete, failed)
  }

  /** Every task named as a dependency of `t` has succeeded; names that match no task impose nothing. */
  predicate DependenciesMet(flow: seq<TaskState>, t: TaskState)
  {
    forall j :: 0 <= j < |flow| && flow[j].name in t.depends ==> StatusOf(flow[j]) == Succeeded
  }

  /** A task is runnable exactly when it is PENDING and every dependency naming a task of the flow has SUCCEEDED. */
  lemma {:induction false} RunnableIffReady(flow: seq<TaskState>, k: nat)
    requires k < |flow|
    ensures k in GetRunStatus(flow).runnable <==> StatusOf(flow[k]) == Pending && DependenciesMet(flow, flow[k])
  {
    var rs := GetRunStatus(flow);
    var blocked := Names(flow, rs.incomplete) + Names(flow, rs.failed);
    var t := flow[k];
    if !DependenciesMet(flow, t) {
      var j :| 0 <= j < |flow| && flow[j].name in t.depends && StatusOf(flow[j]) != Succeeded;
      if !flow[j].completed {
        assert j in rs.incomplete;
        var m :| 0 <= m < |rs.incomplete| && rs.incomplete[m] == j;
      } else {
        assert j in rs.failed;
        var m :| 0 <= m < |rs.failed| && rs.failed[m] == j;
      }
      assert flow[j].name in blocked;
    } else {
      assert t.depends !! blocked by {
        forall x | x in blocked ensures x !in t.depends {
          if x in Names(flow, rs.incomplete) {
            var m :| 0 <= m < |rs.incomplete| && flow[rs.incomplete[m]].name == x;
            assert rs.incomplete[m] in rs.incomplete;
          } else {
            var m :| 0 <= m < |rs.failed| && flow[rs.failed[m]].name == x;
            assert rs.failed[m] in rs.failed;
          }
        }
      }
    }
  }

  /**
   * Which list a task lands in, in terms of its status: incomplete exactly when
   * PENDING or STARTED, failed exactly when its code is not 0 (FAILED, or not yet
   * completed without a code), running exactly when STARTED, and runnable exactly
   * when PENDING with every dependency that names a task of the flow SUCCEEDED.
   */
  lemma Membership(flow: seq<TaskState>, k: nat)
    requires k < |flow|
    ensures var rs := GetRunStatus(flow);
      && (k in rs.incomplete <==> StatusOf(flow[k]) in {Pending, Started})
      && (k in rs.failed <==> flow[k].returnCode != Some(0))
      && (k in rs.running <==> StatusOf(flow[k]) == Started)
      && (k in rs.runnable <==> StatusOf(flow[k]) == Pending && DependenciesMet(flow, flow[k]))
  {
    RunnableIffReady(flow, k);
  }

  /**
   * The partition facts of `get_run_status`: running and runnable tasks are
   * incomplete, no task is both running and runnable, every task not yet
   * completed without a code is also in `failed`, and a runnable task's
   * dependencies share no name with an incomplete or failed task.
   */
  lemma Partition(flow: seq<TaskState>)
    ensures var rs := GetRunStatus(flow);
      && (forall k :: k in rs.running ==> k in rs.incomplete)
      && (forall k :: k in rs.runnable ==> k in rs.incomplete)
      && (forall k :: !(k in rs.runnable && k in rs.running))
      && (forall k :: 0 <= k < |flow| && !flow[k].completed && flow[k].returnCode == None ==> k in rs.failed)
      && (forall k :: k in rs.runnable ==>
            flow[k].depends !! (Names(flow, rs.incomplete) + Names(flow, rs.failed)))
  {
  }

  /** Nothing is runnable while one of its dependencies names a task that has FAILED. */
  lemma FailedDependencyBlocks(flow: seq<TaskState>, k: nat, j: nat)
    requires k < |flow| && j < |flow|
    requires flow[j].name in flow[k].depends && StatusOf(flow[j]) == Failed
    ensures k !in GetRunStatus(flow).runnable
  {
    Membership(flow, k);
  }

  /** `not failed` holds exactly when every task of the flow has return code 0. */
  lemma {:induction false} NoFailedIffAllZero(flow: seq<TaskState>)
    ensures GetRunStatus(flow).failed == [] <==> forall k :: 0 <= k < |flow| ==> flow[k].returnCode == Some(0)
  {
    var rs := GetRunStatus(flow);
    if rs.failed != [] {
      assert rs.failed[0] in rs.failed;
    } else {
      forall k | 0 <= k < |flow|
        ensures flow[k].returnCode == Some(0)
      {
        Membership(flow, k);
      }
    }
  }
}
