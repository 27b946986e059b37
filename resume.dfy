/**
 * Resuming a flow: a run's tasks are saved with `task_repr`, loaded back by
 * `load`, and run again by `traverse`. What this guarantees across the save.
 */
module Resume {
  import opened Wrappers
  import opened Tasks
  import opened Scheduler
  import opened TraversalFacts
  import opened Persistence

  /**
   * A task that had SUCCEEDED when the flow was saved is loaded as it was (its
   * pane id aside), is never started by the resumed run, and ends it unchanged.
   */
  lemma SucceededNeverRerun(flow: seq<TaskState>, orders: seq<seq<string>>, env: Record,
                            ticks: seq<Tick>, launch: Launcher)
    requires |orders| == |flow| && forall k :: 0 <= k < |flow| ==> Enumerates(orders[k], flow[k].depends)
    ensures var loaded := LoadManifest(SaveManifest(flow, orders, env));
      && loaded.Ok? && |loaded.value.flow| == |flow|
      && var f := Run(loaded.value.flow, ticks, launch).last;
         |f.flow| == |flow| &&
         forall k :: 0 <= k < |flow| && StatusOf(flow[k]) == Succeeded ==>
           f.flow[k] == flow[k].(paneId := None) && k !in f.starts
  {
    ResumeManifest(flow, orders, env);
    var resumed := LoadManifest(SaveManifest(flow, orders, env)).value.flow;
    assert |resumed| == |flow| && forall k :: 0 <= k < |flow| ==> resumed[k] == Resumed(flow[k]);
    SucceededUntouched(resumed, ticks, launch);
    forall k | 0 <= k < |flow| && StatusOf(flow[k]) == Succeeded
      ensures resumed[k] == flow[k].(paneId := None) && StatusOf(resumed[k]) == Succeeded
    {
      assert resumed[k] == Resumed(flow[k]);
    }
  }

  /**
   * A task that had been started but had not SUCCEEDED when the flow was saved
   * is PENDING again after loading, and a resumed run may start it one more time.
   */
  lemma UnfinishedStartsAgain(flow: seq<TaskState>, orders: seq<seq<string>>, env: Record)
    requires |orders| == |flow| && forall k :: 0 <= k < |flow| ==> Enumerates(orders[k], flow[k].depends)
    ensures var loaded := LoadManifest(SaveManifest(flow, orders, env));
      && loaded.Ok? && |loaded.value.flow| == |flow|
      && forall k :: 0 <= k < |flow| && flow[k].started && StatusOf(flow[k]) != Succeeded ==>
           loaded.value.flow[k] == Fresh(flow[k].name, flow[k].command, flow[k].depends)
  {
    ResumeManifest(flow, orders, env);
  }

  /**
   * Resuming keeps "only completed tasks carry a code", so a resumed run that
   * returns reports success exactly when every task has SUCCEEDED.
   */
  lemma ResumedSuccess(flow: seq<TaskState>, orders: seq<seq<string>>, env: Record,
                       ticks: seq<Tick>, launch: Launcher)
    requires |orders| == |flow| && forall k :: 0 <= k < |flow| ==> Enumerates(orders[k], flow[k].depends)
    requires CodesSettled(flow)
    ensures var loaded := LoadManifest(SaveManifest(flow, orders, env));
      && loaded.Ok?
      && var f := Run(loaded.value.flow, ticks, launch);
         f.verdict.Returned? ==>
           (f.verdict.success <==> forall k :: 0 <= k < |f.last.flow| ==> StatusOf(f.last.flow[k]) == Succeeded)
  {
    ResumeManifest(flow, orders, env);
    var resumed := LoadManifest(SaveManifest(flow, orders, env)).value.flow;
    assert CodesSettled(resumed);
    SuccessMeansAllSucceeded(resumed, ticks, launch);
  }
}
