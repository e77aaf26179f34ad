/**
 Pipeline completion: a pipeline is finished when it holds a finished scrape
 task and a finished publish task.
 */
module Pipeline {
  import opened Rows
  import opened Tasks
  import opened Faults
  import opened Store

  /** The list holds a finished task of the given type. */
  ghost predicate HasFinished(ts: seq<Task>, kind: TaskType)
  {
    exists i :: 0 <= i < |ts| && ts[i].kind == kind && ts[i].status == Finished
  }

  /** The loop of `IsFinished`: one pass over the tasks raising the two flags. */
  function ScanFlags(ts: seq<Task>, scraped: bool, published: bool): (r: (bool, bool))
    ensures r.0 <==> scraped || HasFinished(ts, Scrape)
    ensures r.1 <==> published || HasFinished(ts, Publish)
    decreases |ts|
  {
    if |ts| == 0 then (scraped, published)
    else
      var rest := ts[1..];
      assert forall i :: 0 <= i < |rest| ==> rest[i] == ts[i + 1];
      if IsScrape(ts[0]) && Tasks.IsFinished(ts[0]) then ScanFlags(rest, true, published)
      else if IsPublish(ts[0]) && Tasks.IsFinished(ts[0]) then ScanFlags(rest, scraped, true)
      else ScanFlags(rest, scraped, published)
  }

  /** The verdict over a loaded task list. */
  function Complete(ts: seq<Task>): (r: bool)
    ensures r <==> HasFinished(ts, Scrape) && HasFinished(ts, Publish)
  {
    var flags := ScanFlags(ts, false, false);
    flags.0 && flags.1
  }

  /** What `IsFinished` returns: the flag and whether the store failed. */
  datatype Verdict = Verdict(finished: bool, failed: bool)

  /** `Pipeline.IsFinished`: loads the pipeline's own tasks and checks both types. */
  function IsFinished(db: Db, faults: Faults, pipelineId: nat): (r: Verdict)
    ensures r.failed <==> AllTasksOfPipeline(pipelineId) in faults
    ensures r.failed ==> !r.finished
    ensures !r.failed ==>
      (r.finished <==>
         (exists i :: 0 <= i < |db.tasks| && db.tasks[i] == Task(pipelineId, Scrape, Finished))
         && (exists j :: 0 <= j < |db.tasks| && db.tasks[j] == Task(pipelineId, Publish, Finished)))
  {
    match PipelineTasks(db, faults, pipelineId)
    case None => Verdict(false, true)
    case Some(ts) =>
      var r := Verdict(Complete(ts), false);
      assert HasFinished(ts, Scrape) <==> Task(pipelineId, Scrape, Finished) in db.tasks;
      assert HasFinished(ts, Publish) <==> Task(pipelineId, Publish, Finished) in db.tasks;
      r
  }

  /** A pipeline with no task, or with only one of the two types finished, is not finished. */
  lemma NotFinishedWithoutBothTypes(ts: seq<Task>)
    ensures |ts| == 0 ==> !Complete(ts)
    ensures !HasFinished(ts, Scrape) || !HasFinished(ts, Publish) ==> !Complete(ts)
  {
  }

  /** The verdict depends neither on the order of the tasks nor on their multiplicity. */
  lemma {:induction false} CompleteIgnoresOrder(ts1: seq<Task>, ts2: seq<Task>)
    requires forall t :: t in ts1 <==> t in ts2
    ensures Complete(ts1) == Complete(ts2)
  {
    forall kind: TaskType ensures HasFinished(ts1, kind) == HasFinished(ts2, kind) {
      if HasFinished(ts1, kind) {
        var i :| 0 <= i < |ts1| && ts1[i].kind == kind && ts1[i].status == Finished;
        assert ts1[i] in ts2;
      }
      if HasFinished(ts2, kind) {
        var i :| 0 <= i < |ts2| && ts2[i].kind == kind && ts2[i].status == Finished;
        assert ts2[i] in ts1;
      }
    }
  }

  /** Adding unfinished tasks of either type changes nothing. */
  lemma {:induction false} CompleteIgnoresUnfinished(ts: seq<Task>, extra: seq<Task>)
    requires forall j :: 0 <= j < |extra| ==> extra[j].status != Finished
    ensures Complete(ts + extra) == Complete(ts)
  {
    var all := ts + extra;
    assert forall j :: |ts| <= j < |all| ==> all[j] == extra[j - |ts|];
    forall kind: TaskType ensures HasFinished(all, kind) == HasFinished(ts, kind) {
      if HasFinished(all, kind) {
        var i :| 0 <= i < |all| && all[i].kind == kind && all[i].status == Finished;
        assert all[i] == ts[i];
      }
      if HasFinished(ts, kind) {
        var i :| 0 <= i < |ts| && ts[i].kind == kind && ts[i].status == Finished;
        assert all[i] == ts[i];
      }
    }
  }
}
