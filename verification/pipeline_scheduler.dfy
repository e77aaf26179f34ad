/**
 The pipeline reconciler: on each tick, every enabled project whose newest
 pipeline is missing or finished gets a new pipeline.

 The query answering "the project's newest pipeline" is a parameter: the
 per-project query the loop relies on, or the query as the store writes it,
 which ignores the project and answers the newest pipeline of the whole table.
 */
module PipelineScheduler {
  import opened Rows
  import opened Tasks
  import opened Faults
  import opened Store
  import Completion = Pipeline

  /** Pipeline `i` holds a finished scrape task and a finished publish task. */
  ghost predicate Done(db: Db, i: nat)
  {
    Task(i, Scrape, Finished) in db.tasks && Task(i, Publish, Finished) in db.tasks
  }

  /** The reconciler's rule, stated over the database: a project needs a new
      pipeline when it has none, or when its newest one is done, and the
      queries that establish this do not fail. */
  ghost predicate NeedsPipeline(db: Db, faults: Faults, p: nat)
  {
    && LastPipeline(p) !in faults
    && ((forall j :: 0 <= j < |db.pipelines| ==> db.pipelines[j].projectId != p)
        || exists i: nat :: NewestOf(db, p, i) && AllTasksOfPipeline(i) !in faults && Done(db, i))
  }

  /** Creates a pipeline; a failed insert returns nil and the log line after it
      dereferences it. */
  function Spawn(db: Db, faults: Faults, projectId: nat): (o: Outcome)
    ensures o.Crashed? <==> InsertPipeline(projectId) in faults
    ensures o.Crashed? ==> o.db == db
    ensures o.Completed? ==> o.db == db.(pipelines := db.pipelines + [Pipeline(projectId)])
  {
    match CreatePipeline(db, faults, projectId)
    case None => Crashed(db)
    case Some(next) => Completed(next)
  }

  /** The per-project query and the completion check decide exactly `NeedsPipeline`. */
  lemma LastDecides(db: Db, faults: Faults, p: nat)
    ensures Last(db, faults, p).LookupError? ==> !NeedsPipeline(db, faults, p)
    ensures Last(db, faults, p).Absent? ==> NeedsPipeline(db, faults, p)
    ensures Last(db, faults, p).Found? ==>
              var v := Completion.IsFinished(db, faults, Last(db, faults, p).value);
              (NeedsPipeline(db, faults, p) <==> !v.failed && v.finished)
  {
    var r := Last(db, faults, p);
    if r.Found? {
      var i := r.value;
      assert NewestOf(db, p, i);
      forall i': nat | NewestOf(db, p, i') ensures i' == i {
        assert db.pipelines[i].projectId == p && db.pipelines[i'].projectId == p;
      }
      var v := Completion.IsFinished(db, faults, i);
      if !v.failed && v.finished {
        var a :| 0 <= a < |db.tasks| && db.tasks[a] == Task(i, Scrape, Finished);
        var b :| 0 <= b < |db.tasks| && db.tasks[b] == Task(i, Publish, Finished);
        assert Done(db, i);
      }
      if NeedsPipeline(db, faults, p) {
        assert db.pipelines[i].projectId == p;
        var i': nat :| NewestOf(db, p, i') && AllTasksOfPipeline(i') !in faults && Done(db, i');
        assert i' == i;
        var a :| 0 <= a < |db.tasks| && db.tasks[a] == Task(i, Scrape, Finished);
        var b :| 0 <= b < |db.tasks| && db.tasks[b] == Task(i, Publish, Finished);
      }
    }
  }

  /** One iteration of the per-project loop. */
  function ReconcileProject(q: LastQuery, db: Db, faults: Faults, projectId: nat): (o: Outcome)
    ensures o.db.(pipelines := db.pipelines) == db
    ensures o.db.pipelines == db.pipelines || o.db.pipelines == db.pipelines + [Pipeline(projectId)]
    ensures o.Crashed? ==> o.db == db && InsertPipeline(projectId) in faults
    ensures q == PerProject ==>
              (o.Crashed? <==> NeedsPipeline(db, faults, projectId) && InsertPipeline(projectId) in faults)
    ensures q == PerProject ==>
              (o.db.pipelines != db.pipelines <==> NeedsPipeline(db, faults, projectId)
                                                   && InsertPipeline(projectId) !in faults)
  {
    LastDecides(db, faults, projectId);
    match LastOf(q, db, faults, projectId)
    case LookupError => Completed(db)
    case Absent => Spawn(db, faults, projectId)
    case Found(pl) =>
      var v := Completion.IsFinished(db, faults, pl);
      if v.failed || !v.finished then Completed(db)
      else Spawn(db, faults, projectId)
  }

  /** The loop over the enabled projects, in id order; a crash ends the tick. */
  function ReconcileAll(q: LastQuery, db: Db, faults: Faults, ids: seq<nat>): (o: Outcome)
    ensures o.db.(pipelines := db.pipelines) == db
    ensures |db.pipelines| <= |o.db.pipelines| <= |db.pipelines| + |ids|
    ensures o.db.pipelines[..|db.pipelines|] == db.pipelines
    ensures forall k :: |db.pipelines| <= k < |o.db.pipelines| ==> o.db.pipelines[k].projectId in ids
    decreases |ids|
  {
    if |ids| == 0 then Completed(db)
    else
      match ReconcileProject(q, db, faults, ids[0])
      case Crashed(d) => Crashed(d)
      case Completed(d) =>
        var o := ReconcileAll(q, d, faults, ids[1..]);
        assert forall x :: x in ids[1..] ==> x in ids;
        assert o.db.pipelines[..|d.pipelines|] == d.pipelines;
        assert forall k :: |db.pipelines| <= k < |d.pipelines| ==> o.db.pipelines[k] == d.pipelines[k];
        o
  }

  /** One tick of the reconcile loop. A failed project listing skips the tick. */
  function Tick(q: LastQuery, db: Db, faults: Faults): (o: Outcome)
    ensures AllEnabledProjects in faults ==> o == Completed(db)
    ensures o.db.(pipelines := db.pipelines) == db
    ensures |db.pipelines| <= |o.db.pipelines| && o.db.pipelines[..|db.pipelines|] == db.pipelines
    ensures forall k :: |db.pipelines| <= k < |o.db.pipelines| ==>
              var p := o.db.pipelines[k].projectId; p < |db.projects| && db.projects[p].enabled
  {
    match AllEnabled(db, faults)
    case None => Completed(db)
    case Some(ids) => ReconcileAll(q, db, faults, ids)
  }

  /** The loop: one tick per entry of `schedule` (the faults of that tick); the
      end of the schedule is the stop signal, a crash ends the process. */
  function Run(q: LastQuery, db: Db, schedule: seq<Faults>): (o: Outcome)
    ensures o.db.(pipelines := db.pipelines) == db
    ensures |db.pipelines| <= |o.db.pipelines| && o.db.pipelines[..|db.pipelines|] == db.pipelines
    ensures forall k :: |db.pipelines| <= k < |o.db.pipelines| ==>
              var p := o.db.pipelines[k].projectId; p < |db.projects| && db.projects[p].enabled
    decreases |schedule|
  {
    if |schedule| == 0 then Completed(db)
    else
      match Tick(q, db, schedule[0])
      case Crashed(d) => Crashed(d)
      case Completed(d) =>
        var o := Run(q, d, schedule[1..]);
        assert o.db.pipelines[..|d.pipelines|] == d.pipelines;
        assert forall k :: |db.pipelines| <= k < |d.pipelines| ==> o.db.pipelines[k] == d.pipelines[k];
        o
  }

  // ------------------------------------------------------------- the plan

  /** The pipelines a tick is meant to append: one per project of `ids` that
      needs one, judged on the database as the tick found it. */
  ghost function Planned(db: Db, faults: Faults, ids: seq<nat>): (r: seq<Pipeline>)
    ensures forall k :: 0 <= k < |r| ==> r[k].projectId in ids && NeedsPipeline(db, faults, r[k].projectId)
  {
    if |ids| == 0 then []
    else
      var rest := Planned(db, faults, ids[1..]);
      assert forall x :: x in ids[1..] ==> x in ids;
      if NeedsPipeline(db, faults, ids[0]) then [Pipeline(ids[0])] + rest else rest
  }

  /** Whether project `p` needs a pipeline does not depend on pipelines of
      other projects appended after it. */
  lemma NeedsPipelineIgnoresOthers(db: Db, faults: Faults, p: nat, extra: seq<Pipeline>)
    requires forall j :: 0 <= j < |extra| ==> extra[j].projectId != p
    ensures NeedsPipeline(db.(pipelines := db.pipelines + extra), faults, p) == NeedsPipeline(db, faults, p)
  {
    var d := db.(pipelines := db.pipelines + extra);
    LastWhereIgnoresAppended(db.pipelines, extra, BelongsTo(p));
    assert Last(d, faults, p) == Last(db, faults, p);
    LastDecides(db, faults, p);
    LastDecides(d, faults, p);
  }

  /** No planned insert fails. */
  ghost predicate PlanInsertsSucceed(db: Db, faults: Faults, ids: seq<nat>)
  {
    forall p :: p in ids && NeedsPipeline(db, faults, p) ==> InsertPipeline(p) !in faults
  }

  /** With the per-project query, the projects do not interfere: the loop
      appends exactly the planned pipelines, in id order, whatever pipelines of
      other projects were appended before. */
  lemma {:induction false} ReconcileAllFollowsPlan(db: Db, faults: Faults, ids: seq<nat>, extra: seq<Pipeline>)
    requires Increasing(ids)
    requires forall j :: 0 <= j < |extra| ==> extra[j].projectId !in ids
    requires PlanInsertsSucceed(db, faults, ids)
    ensures ReconcileAll(PerProject, db.(pipelines := db.pipelines + extra), faults, ids)
            == Completed(db.(pipelines := db.pipelines + extra + Planned(db, faults, ids)))
    decreases |ids|
  {
    var d := db.(pipelines := db.pipelines + extra);
    if |ids| == 0 {
      assert db.pipelines + extra + [] == db.pipelines + extra;
    } else {
      var p := ids[0];
      var rest := ids[1..];
      assert forall x :: x in rest ==> x in ids;
      assert Increasing(rest);
      assert p !in rest by {
        forall k | 0 <= k < |rest| ensures rest[k] != p { assert ids[k + 1] > ids[0]; }
      }
      assert forall j :: 0 <= j < |extra| ==> extra[j].projectId != p;
      NeedsPipelineIgnoresOthers(db, faults, p, extra);
      var o := ReconcileProject(PerProject, d, faults, p);
      if NeedsPipeline(db, faults, p) {
        var extra' := extra + [Pipeline(p)];
        assert o == Completed(d.(pipelines := d.pipelines + [Pipeline(p)]));
        assert d.pipelines + [Pipeline(p)] == db.pipelines + extra';
        assert forall j :: 0 <= j < |extra'| ==> extra'[j].projectId !in rest;
        ReconcileAllFollowsPlan(db, faults, rest, extra');
        assert Planned(db, faults, ids) == [Pipeline(p)] + Planned(db, faults, rest);
        ConcatAssociates(db.pipelines, extra, [Pipeline(p)]);
        ConcatAssociates(db.pipelines + extra, [Pipeline(p)], Planned(db, faults, rest));
      } else {
        assert o == Completed(d);
        assert forall j :: 0 <= j < |extra| ==> extra[j].projectId !in rest;
        ReconcileAllFollowsPlan(db, faults, rest, extra);
        assert Planned(db, faults, ids) == Planned(db, faults, rest);
      }
    }
  }

  /** A tick with the per-project query appends exactly the planned pipelines. */
  lemma TickFollowsPlan(db: Db, faults: Faults)
    requires AllEnabled(db, faults).Some?
    requires PlanInsertsSucceed(db, faults, AllEnabled(db, faults).value)
    ensures Tick(PerProject, db, faults)
            == Completed(db.(pipelines := db.pipelines + Planned(db, faults, AllEnabled(db, faults).value)))
  {
    var ids := AllEnabled(db, faults).value;
    ReconcileAllFollowsPlan(db, faults, ids, []);
    assert db.pipelines + [] == db.pipelines;
    assert db.(pipelines := db.pipelines + []) == db;
  }

  /** The plan holds one pipeline for each needy project of `ids` and none for the others. */
  lemma {:induction false} PlannedCount(db: Db, faults: Faults, ids: seq<nat>, p: nat)
    requires Increasing(ids)
    ensures multiset(Planned(db, faults, ids))[Pipeline(p)]
            == if p in ids && NeedsPipeline(db, faults, p) then 1 else 0
    decreases |ids|
  {
    if |ids| > 0 {
      var rest := ids[1..];
      assert Increasing(rest);
      assert ids[0] !in rest by {
        forall k | 0 <= k < |rest| ensures rest[k] != ids[0] { assert ids[k + 1] > ids[0]; }
      }
      assert forall x :: x in ids <==> x == ids[0] || x in rest;
      PlannedCount(db, faults, rest, p);
      if NeedsPipeline(db, faults, ids[0]) {
        assert Planned(db, faults, ids) == [Pipeline(ids[0])] + Planned(db, faults, rest);
      }
    }
  }

  /** Each enabled project that needs a pipeline gets exactly one this tick;
      every other project gets none. */
  lemma TickGivesOnePipelineToEachNeedyProject(db: Db, faults: Faults, p: nat)
    requires AllEnabledProjects !in faults
    requires PlanInsertsSucceed(db, faults, AllEnabled(db, faults).value)
    ensures Tick(PerProject, db, faults).Completed?
    ensures multiset(Tick(PerProject, db, faults).db.pipelines)[Pipeline(p)]
            == multiset(db.pipelines)[Pipeline(p)]
               + if p < |db.projects| && db.projects[p].enabled && NeedsPipeline(db, faults, p) then 1 else 0
  {
    var ids := AllEnabled(db, faults).value;
    TickFollowsPlan(db, faults);
    PlannedCount(db, faults, ids, p);
  }

  /** A pipeline appended for `p` after the existing ones holds no task yet, so
      `p` does not need another one: at most one pipeline per project is in flight. */
  lemma FreshPipelineIsNotDone(db: Db, faults: Faults, p: nat, extra: seq<Pipeline>)
    requires TasksReferencePipelines(db)
    requires exists k :: 0 <= k < |extra| && extra[k].projectId == p
    ensures !NeedsPipeline(db.(pipelines := db.pipelines + extra), faults, p)
  {
    var d := db.(pipelines := db.pipelines + extra);
    var k :| 0 <= k < |extra| && extra[k].projectId == p;
    assert d.pipelines[|db.pipelines| + k].projectId == p;
    forall i: nat | NewestOf(d, p, i) ensures !Done(d, i) {
      assert i >= |db.pipelines| + k;
      assert Task(i, Scrape, Finished) !in d.tasks;
    }
  }

  /** After a tick that followed its plan, no listed project needs a pipeline. */
  lemma PlanLeavesNoNeed(db: Db, faults: Faults, ids: seq<nat>)
    requires TasksReferencePipelines(db)
    requires Increasing(ids)
    ensures var d := db.(pipelines := db.pipelines + Planned(db, faults, ids));
            forall p :: p in ids ==> !NeedsPipeline(d, faults, p)
  {
    var plan := Planned(db, faults, ids);
    var d := db.(pipelines := db.pipelines + plan);
    forall p | p in ids ensures !NeedsPipeline(d, faults, p) {
      if NeedsPipeline(db, faults, p) {
        PlannedCount(db, faults, ids, p);
        assert Pipeline(p) in multiset(plan);
        var k :| 0 <= k < |plan| && plan[k] == Pipeline(p);
        FreshPipelineIsNotDone(db, faults, p, plan);
      } else {
        assert forall j :: 0 <= j < |plan| ==> plan[j].projectId != p;
        NeedsPipelineIgnoresOthers(db, faults, p, plan);
      }
    }
  }

  /** A second tick with the same faults creates nothing: every project that
      got a pipeline now has an unfinished newest pipeline, and the others are
      judged exactly as before. */
  lemma TickIsIdempotent(db: Db, faults: Faults)
    requires TasksReferencePipelines(db)
    requires AllEnabled(db, faults).Some? ==> PlanInsertsSucceed(db, faults, AllEnabled(db, faults).value)
    ensures Tick(PerProject, db, faults).Completed?
    ensures Tick(PerProject, Tick(PerProject, db, faults).db, faults) == Tick(PerProject, db, faults)
  {
    if AllEnabledProjects !in faults {
      var ids := AllEnabled(db, faults).value;
      var plan := Planned(db, faults, ids);
      TickFollowsPlan(db, faults);
      var d := db.(pipelines := db.pipelines + plan);
      assert AllEnabled(d, faults) == AllEnabled(db, faults);
      PlanLeavesNoNeed(db, faults, ids);
      assert Planned(d, faults, ids) == [] by {
        PlannedIsEmpty(d, faults, ids);
      }
      TickFollowsPlan(d, faults);
      assert d.pipelines + [] == d.pipelines;
      assert d.(pipelines := d.pipelines + []) == d;
    }
  }

  /** Nobody needs a pipeline, so nothing is planned. */
  lemma {:induction false} PlannedIsEmpty(db: Db, faults: Faults, ids: seq<nat>)
    requires forall p :: p in ids ==> !NeedsPipeline(db, faults, p)
    ensures Planned(db, faults, ids) == []
    decreases |ids|
  {
    if |ids| > 0 {
      assert forall x :: x in ids[1..] ==> x in ids;
      PlannedIsEmpty(db, faults, ids[1..]);
    }
  }

  // ------------------------------------------- the query as the store writes it

  /** Two enabled projects and an empty pipeline table. */
  function TwoFreshProjects(): Db
  {
    Db([Project("a", "https://a.example/feed", true, 0), Project("b", "https://b.example/feed", true, 0)],
       [], [], [], [], [])
  }

  /** In any state of the two-project world both projects are listed, in id order. */
  lemma BothProjectsListed(db: Db)
    requires db.projects == TwoFreshProjects().projects
    ensures AllEnabled(db, {}) == Some([0, 1])
  {
    var r := AllEnabled(db, {}).value;
    assert 0 in r && 1 in r;
    assert forall k :: 0 <= k < |r| ==> r[k] < 2;
    assert r[0] < r[1];
    assert r == [0, 1];
  }

  /** With the whole-table query only the first project gets a pipeline. */
  lemma WholeTableLastServesOnlyTheFirstProject()
    ensures Tick(WholeTable, TwoFreshProjects(), {}) == Completed(TwoFreshProjects().(pipelines := [Pipeline(0)]))
  {
    var db := TwoFreshProjects();
    BothProjectsListed(db);
    var d0 := db.(pipelines := [Pipeline(0)]);
    assert ReconcileProject(WholeTable, db, {}, 0) == Completed(d0);
    assert Completion.IsFinished(d0, {}, 0).finished == false;
    assert ReconcileProject(WholeTable, d0, {}, 1) == Completed(d0);
    assert [0, 1][1..] == [1];
    assert ReconcileAll(WholeTable, d0, {}, [1]) == Completed(d0);
  }

  /** The per-project query gives both projects theirs. */
  lemma PerProjectLastServesBothProjects()
    ensures Tick(PerProject, TwoFreshProjects(), {})
            == Completed(TwoFreshProjects().(pipelines := [Pipeline(0), Pipeline(1)]))
  {
    var db := TwoFreshProjects();
    BothProjectsListed(db);
    PlanForTwoFreshProjects(db);
    TickFollowsPlan(db, {});
  }

  /** With no pipeline yet, both listed projects are planned one, in order. */
  lemma PlanForTwoFreshProjects(db: Db)
    requires db.pipelines == []
    ensures Planned(db, {}, [0, 1]) == [Pipeline(0), Pipeline(1)]
  {
    assert NeedsPipeline(db, {}, 0) && NeedsPipeline(db, {}, 1);
    assert [0, 1][1..] == [1];
    assert Planned(db, {}, [1]) == [Pipeline(1)] + Planned(db, {}, [1][1..]);
  }

  /** Worse, the second project is not served while the store answers: when
      every pipeline belongs to the first project, a tick with the whole-table
      query and no failing store call keeps it so, however the tasks have
      progressed. */
  ghost predicate OnlyFirstProjectServed(db: Db)
  {
    && db.projects == TwoFreshProjects().projects
    && forall j :: 0 <= j < |db.pipelines| ==> db.pipelines[j].projectId == 0
  }

  lemma WholeTableLastStarvesTheSecondProject(db: Db)
    requires OnlyFirstProjectServed(db) && TasksReferencePipelines(db)
    ensures Tick(WholeTable, db, {}).Completed?
    ensures OnlyFirstProjectServed(Tick(WholeTable, db, {}).db)
  {
    BothProjectsListed(db);
    assert [0, 1][1..] == [1];
    var d0 := ReconcileProject(WholeTable, db, {}, 0).db;
    if d0.pipelines != db.pipelines {
      var n := |db.pipelines|;
      assert LastAsWritten(d0, {}, 1) == Found(n);
      assert Task(n, Scrape, Finished) !in d0.tasks;
    }
    assert ReconcileProject(WholeTable, d0, {}, 1) == Completed(d0);
    assert ReconcileAll(WholeTable, d0, {}, [1]) == Completed(d0);
  }

  /** The starvation needs ticks in which every store call succeeds: a failed
      lookup for the first project skips it, and the second project, whose
      whole-table lookup still answers, gets a pipeline. */
  lemma FailedLookupLetsTheSecondProjectThrough()
    ensures OnlyFirstProjectServed(TwoFreshProjects())
    ensures Tick(WholeTable, TwoFreshProjects(), {LastPipeline(0)})
            == Completed(TwoFreshProjects().(pipelines := [Pipeline(1)]))
    ensures !OnlyFirstProjectServed(Tick(WholeTable, TwoFreshProjects(), {LastPipeline(0)}).db)
  {
    var db := TwoFreshProjects();
    var faults := {LastPipeline(0)};
    BothProjectsListed(db);
    assert AllEnabled(db, faults) == AllEnabled(db, {});
    assert ReconcileProject(WholeTable, db, faults, 0) == Completed(db);
    assert [0, 1][1..] == [1];
    var d1 := db.(pipelines := [Pipeline(1)]);
    assert ReconcileProject(WholeTable, db, faults, 1) == Completed(d1);
    assert ReconcileAll(WholeTable, d1, faults, [1][1..]) == Completed(d1);
    assert d1.pipelines[0].projectId == 1;
  }
}
