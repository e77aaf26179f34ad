/**
 The repository-level invariants the five loops share, and their
 preservation by every tick of every loop in any interleaving: a Publish task
 leaves `Waiting` only after its pipeline's Scrape task finished, a finished
 Scrape task has left a post for its pipeline, and no task status moves
 backwards.
 */
module Lifecycle {
  import opened Rows
  import opened Tasks
  import opened Faults
  import opened Store
  import Template
  import Completion = Pipeline
  import PipelineScheduler
  import TaskScheduler
  import Scrapper
  import Publisher

  ghost predicate HasPost(db: Db, pipelineId: nat)
  {
    exists j :: 0 <= j < |db.posts| && db.posts[j].pipelineId == pipelineId
  }

  /** Every finished Scrape task has a post in its pipeline. */
  ghost predicate ScrapedHavePosts(db: Db)
  {
    forall i :: 0 <= i < |db.tasks| && db.tasks[i].kind == Scrape && db.tasks[i].status == Finished ==>
      HasPost(db, db.tasks[i].pipelineId)
  }

  /** A Publish task that has left `Waiting` has a finished Scrape sibling. */
  ghost predicate PublishAfterScrape(db: Db)
  {
    forall i :: 0 <= i < |db.tasks| && db.tasks[i].kind == Publish && db.tasks[i].status != Waiting ==>
      Task(db.tasks[i].pipelineId, Scrape, Finished) in db.tasks
  }

  ghost predicate Consistent(db: Db)
  {
    && Template.WellFormed(db.templates)
    && ScrapedHavePosts(db)
    && PublishAfterScrape(db)
  }

  /** `db2` keeps every task of `db1` in place with a status at least as far along. */
  ghost predicate Forward(db1: Db, db2: Db)
  {
    && |db1.tasks| <= |db2.tasks|
    && forall i :: 0 <= i < |db1.tasks| ==>
         db2.tasks[i].pipelineId == db1.tasks[i].pipelineId && db2.tasks[i].kind == db1.tasks[i].kind
         && Rank(db1.tasks[i].status) <= Rank(db2.tasks[i].status)
  }

  /** One tick of one loop, with the variant of the code it runs. */
  datatype Worker =
    | PipelineReconciler(q: LastQuery)
    | TaskReconciler(tq: LastQuery, probe: TaskScheduler.Probe)
    | ScrapePromotion
    | ScrapeExecution(scrapeEnv: Scrapper.Env)
    | PublishPromotion
    | PublishExecution(rule: Publisher.Rule, publishEnv: Publisher.Env)

  /** The database after one tick of `w`; a failed listing changes nothing, and
      a panic keeps the writes made before it. Only the task reconciler creates
      tasks. */
  function Step(w: Worker, db: Db, faults: Faults): (r: Db)
    requires Template.WellFormed(db.templates)
    ensures r.templates == db.templates && r.projects == db.projects && r.subscriptions == db.subscriptions
    ensures !w.TaskReconciler? ==> |r.tasks| == |db.tasks|
  {
    match w
    case PipelineReconciler(q) => PipelineScheduler.Tick(q, db, faults).db
    case TaskReconciler(tq, probe) => TaskScheduler.Tick(tq, probe, db, faults).db
    case ScrapePromotion =>
      (match Scrapper.WaitingPass(db, faults)
       case None => db
       case Some(d) => d)
    case ScrapeExecution(env) =>
      (match Scrapper.ReadyPass(db, faults, env)
       case None => db
       case Some(o) => o.db)
    case PublishPromotion =>
      (match Publisher.WaitingPass(db, faults)
       case None => db
       case Some(o) => o.db)
    case PublishExecution(rule, env) =>
      (match Publisher.ReadyPass(rule, env, db, faults)
       case None => db
       case Some(p) => p.outcome.db)
  }

  // ---------------------------------------------------------- helpers

  /** Tasks of one kind that a pass does not touch keep their rows. */
  lemma KindKept(db1: Db, db2: Db, kind: TaskType)
    requires |db1.tasks| <= |db2.tasks|
    requires forall i :: 0 <= i < |db1.tasks| && db1.tasks[i].kind == kind ==> db2.tasks[i] == db1.tasks[i]
    ensures forall t :: t in db1.tasks && t.kind == kind ==> t in db2.tasks
  {
    forall t | t in db1.tasks && t.kind == kind
      ensures t in db2.tasks
    {
      var i :| 0 <= i < |db1.tasks| && db1.tasks[i] == t;
      assert db2.tasks[i] == t;
    }
  }

  lemma PostsKept(db1: Db, db2: Db)
    requires |db1.posts| <= |db2.posts| && db2.posts[..|db1.posts|] == db1.posts
    ensures forall pl :: HasPost(db1, pl) ==> HasPost(db2, pl)
  {
    forall pl | HasPost(db1, pl)
      ensures HasPost(db2, pl)
    {
      var j :| 0 <= j < |db1.posts| && db1.posts[j].pipelineId == pl;
      assert db2.posts[j] == db2.posts[..|db1.posts|][j];
    }
  }

  // ---------------------------------------------------------- the scrape execution pass

  /** One scrape keeps every finished Scrape task's post, and the task it
      finishes has the post it just created. */
  lemma ScrapeTaskKeepsPosts(db: Db, faults: Faults, env: Scrapper.Env, taskId: nat)
    requires taskId < |db.tasks| && ScrapedHavePosts(db)
    ensures ScrapedHavePosts(Scrapper.ScrapeTask(db, faults, env, taskId).db)
  {
    var o := Scrapper.ScrapeTask(db, faults, env, taskId);
    Scrapper.ThePostIsTheDigest(db, faults, env, taskId);
    if |o.db.posts| > |db.posts| {
      assert o.db.posts[..|db.posts|] == db.posts;
      assert o.db.posts[|db.posts|].pipelineId == db.tasks[taskId].pipelineId;
    }
    PostsKept(db, o.db);
  }

  lemma {:induction false} ScrapeEachKeepsPosts(db: Db, faults: Faults, env: Scrapper.Env, ids: seq<nat>)
    requires forall k :: 0 <= k < |ids| ==> ids[k] < |db.tasks|
    requires ScrapedHavePosts(db)
    ensures ScrapedHavePosts(Scrapper.ScrapeEach(db, faults, env, ids).db)
    decreases |ids|
  {
    if |ids| > 0 {
      ScrapeTaskKeepsPosts(db, faults, env, ids[0]);
      match Scrapper.ScrapeTask(db, faults, env, ids[0]) {
        case Crashed(d) =>
        case Completed(d) =>
          assert forall k :: 0 <= k < |ids[1..]| ==> ids[1..][k] == ids[k + 1];
          ScrapeEachKeepsPosts(d, faults, env, ids[1..]);
      }
    }
  }

  // ---------------------------------------------------------- preservation

  /** A tick that changes no task status or post, or only appends waiting tasks. */
  lemma ReconcilersKeepConsistent(w: Worker, db: Db, faults: Faults)
    requires w.PipelineReconciler? || w.TaskReconciler?
    requires Consistent(db)
    ensures Consistent(Step(w, db, faults))
  {
    var r := Step(w, db, faults);
    if w.PipelineReconciler? {
      assert r.tasks == db.tasks && r.posts == db.posts;
    } else {
      assert r.tasks[..|db.tasks|] == db.tasks && r.posts == db.posts;
      assert forall i :: 0 <= i < |db.tasks| ==> r.tasks[i] == db.tasks[i];
      KindKept(db, r, Scrape);
    }
  }

  /** Finished Scrape tasks keep their rows when a pass changes only unfinished ones. */
  lemma FinishedScrapesKept(db1: Db, db2: Db)
    requires |db1.tasks| <= |db2.tasks|
    requires forall i :: 0 <= i < |db1.tasks| && db1.tasks[i].status == Finished ==> db2.tasks[i] == db1.tasks[i]
    ensures forall t :: t in db1.tasks && t.kind == Scrape && t.status == Finished ==> t in db2.tasks
  {
    forall t | t in db1.tasks && t.kind == Scrape && t.status == Finished
      ensures t in db2.tasks
    {
      var i :| 0 <= i < |db1.tasks| && db1.tasks[i] == t;
      assert db2.tasks[i] == t;
    }
  }

  lemma ScrapePromotionKeepsConsistent(db: Db, faults: Faults)
    requires Consistent(db)
    ensures Consistent(Step(ScrapePromotion, db, faults))
  {
    var r := Step(ScrapePromotion, db, faults);
    KindKept(db, r, Publish);
    FinishedScrapesKept(db, r);
  }

  lemma ScrapeExecutionKeepsConsistent(env: Scrapper.Env, db: Db, faults: Faults)
    requires Consistent(db)
    ensures Consistent(Step(ScrapeExecution(env), db, faults))
  {
    var r := Step(ScrapeExecution(env), db, faults);
    match Filter(db, faults, Scrape, Ready) {
      case None =>
      case Some(ids) =>
        assert forall k :: 0 <= k < |ids| ==> ids[k] in ids;
        ScrapeEachKeepsPosts(db, faults, env, ids);
    }
    KindKept(db, r, Publish);
    FinishedScrapesKept(db, r);
  }

  lemma PublishKeepsConsistent(w: Worker, db: Db, faults: Faults)
    requires w.PublishPromotion? || w.PublishExecution?
    requires Consistent(db)
    ensures Consistent(Step(w, db, faults))
  {
    KindKept(db, Step(w, db, faults), Scrape);
  }

  /** Every tick of every loop keeps the invariants. */
  lemma StepKeepsConsistent(w: Worker, db: Db, faults: Faults)
    requires Consistent(db)
    ensures Consistent(Step(w, db, faults))
  {
    match w {
      case PipelineReconciler(_) => ReconcilersKeepConsistent(w, db, faults);
      case TaskReconciler(_, _) => ReconcilersKeepConsistent(w, db, faults);
      case ScrapePromotion => ScrapePromotionKeepsConsistent(db, faults);
      case ScrapeExecution(env) => ScrapeExecutionKeepsConsistent(env, db, faults);
      case PublishPromotion => PublishKeepsConsistent(w, db, faults);
      case PublishExecution(_, _) => PublishKeepsConsistent(w, db, faults);
    }
  }

  /** No tick moves a task backwards or changes what it is. */
  lemma StepMovesForward(w: Worker, db: Db, faults: Faults)
    requires Template.WellFormed(db.templates)
    ensures Forward(db, Step(w, db, faults))
  {
    var r := Step(w, db, faults);
    match w {
      case PipelineReconciler(q) =>
      case TaskReconciler(tq, probe) =>
        assert forall i :: 0 <= i < |db.tasks| ==> r.tasks[i] == r.tasks[..|db.tasks|][i];
      case ScrapePromotion =>
      case ScrapeExecution(env) =>
      case PublishPromotion =>
      case PublishExecution(rule, env) =>
    }
  }

  /** Any interleaving of ticks, each with its own faults. */
  function Interleave(db: Db, ticks: seq<(Worker, Faults)>): (r: Db)
    requires Template.WellFormed(db.templates)
    ensures r.templates == db.templates
    decreases |ticks|
  {
    if |ticks| == 0 then db
    else Interleave(Step(ticks[0].0, db, ticks[0].1), ticks[1..])
  }

  lemma {:induction false} InterleavingKeepsConsistent(db: Db, ticks: seq<(Worker, Faults)>)
    requires Consistent(db)
    ensures Consistent(Interleave(db, ticks))
    ensures Forward(db, Interleave(db, ticks))
    decreases |ticks|
  {
    if |ticks| > 0 {
      var d := Step(ticks[0].0, db, ticks[0].1);
      StepKeepsConsistent(ticks[0].0, db, ticks[0].1);
      StepMovesForward(ticks[0].0, db, ticks[0].1);
      InterleavingKeepsConsistent(d, ticks[1..]);
    }
  }

  // ---------------------------------------------------------- the scrape-only check

  /** Every task-reconciler tick of the schedule runs the check as written. */
  ghost predicate ScrapeProbeOnly(ticks: seq<(Worker, Faults)>)
  {
    forall k :: 0 <= k < |ticks| && ticks[k].0.TaskReconciler? ==> ticks[k].0.probe == TaskScheduler.ProbeScrape
  }

  /** No tick gives pipeline `pl` a publish task when the task reconciler
      checks for `Scrape` only. */
  lemma ScrapeProbeStepAddsNoPublish(w: Worker, db: Db, faults: Faults, pl: nat)
    requires Template.WellFormed(db.templates)
    requires w.TaskReconciler? ==> w.probe == TaskScheduler.ProbeScrape
    requires !TaskScheduler.HasTask(db, pl, Publish)
    ensures !TaskScheduler.HasTask(Step(w, db, faults), pl, Publish)
  {
    var r := Step(w, db, faults);
    if w.TaskReconciler? {
      TaskScheduler.ScrapeProbeTickAddsNoPublish(w.tq, db, faults, pl, {});
    } else {
      StepMovesForward(w, db, faults);
    }
  }

  /** As written, a pipeline without a publish task never gets one, whatever
      the loops do in whatever order, so it never finishes and the pipeline
      reconciler never gives its project another pipeline. */
  lemma {:induction false} ScrapeProbeNeverFinishes(db: Db, ticks: seq<(Worker, Faults)>, pl: nat, later: Faults)
    requires Template.WellFormed(db.templates)
    requires ScrapeProbeOnly(ticks)
    requires !TaskScheduler.HasTask(db, pl, Publish)
    ensures !TaskScheduler.HasTask(Interleave(db, ticks), pl, Publish)
    ensures !Completion.IsFinished(Interleave(db, ticks), later, pl).finished
    decreases |ticks|
  {
    var r := Interleave(db, ticks);
    if |ticks| > 0 {
      ScrapeProbeStepAddsNoPublish(ticks[0].0, db, ticks[0].1, pl);
      assert ScrapeProbeOnly(ticks[1..]) by {
        assert forall k :: 0 <= k < |ticks[1..]| ==> ticks[1..][k] == ticks[k + 1];
      }
      ScrapeProbeNeverFinishes(Step(ticks[0].0, db, ticks[0].1), ticks[1..], pl, later);
    }
    assert Task(pl, Publish, Finished) !in r.tasks;
  }

  /** In a consistent database, the post lookup of a ready Publish task never
      comes back empty: the no-post branch of the execution pass is reached only
      through a lookup error. */
  lemma ReadyPublishFindsItsPost(db: Db, faults: Faults, taskId: nat)
    requires Consistent(db)
    requires taskId < |db.tasks| && db.tasks[taskId].kind == Publish && db.tasks[taskId].status == Ready
    ensures !PostOf(db, faults, db.tasks[taskId].pipelineId).Absent?
  {
    var pl := db.tasks[taskId].pipelineId;
    assert Task(pl, Scrape, Finished) in db.tasks;
    var s :| 0 <= s < |db.tasks| && db.tasks[s] == Task(pl, Scrape, Finished);
    assert HasPost(db, pl);
  }
}
