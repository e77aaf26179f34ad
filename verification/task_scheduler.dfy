/**
 The task reconciler: on each tick, the newest pipeline of every enabled
 project gets one `Waiting` task of each type it lacks.

 Two choices are parameters. The type the existence check of the loop looks
 up: the loop's own type, as the loop evidently means, or always `Scrape`, as
 the check is written. And the query answering "the project's newest
 pipeline": the per-project query, or the query as the store writes it, which
 answers the newest pipeline of the whole table (the same query the pipeline
 reconciler uses).
 */
module TaskScheduler {
  import opened Rows
  import opened Tasks
  import opened Faults
  import opened Store
  import Completion = Pipeline
  import PipelineScheduler

  /** Which type the existence check of the loop looks up. */
  datatype Probe = ProbeScrape | ProbeOwnType

  function Probed(probe: Probe, kind: TaskType): TaskType
  {
    match probe
    case ProbeScrape => Scrape
    case ProbeOwnType => kind
  }

  /** Pipeline `pl` holds a task of type `kind`. */
  ghost predicate HasTask(db: Db, pl: nat, kind: TaskType)
  {
    exists i :: 0 <= i < |db.tasks| && db.tasks[i].pipelineId == pl && db.tasks[i].kind == kind
  }

  /** No pipeline holds two tasks of the same type. */
  ghost predicate UniqueTasks(db: Db)
  {
    forall i, j :: 0 <= i < j < |db.tasks| ==>
      !(db.tasks[i].pipelineId == db.tasks[j].pipelineId && db.tasks[i].kind == db.tasks[j].kind)
  }

  /** `db2` is `db1` with tasks appended and nothing else changed. */
  ghost predicate TasksAppended(db1: Db, db2: Db)
  {
    && db2.(tasks := db1.tasks) == db1
    && |db1.tasks| <= |db2.tasks|
    && db2.tasks[..|db1.tasks|] == db1.tasks
  }

  lemma HasTaskKept(db1: Db, db2: Db, pl: nat, kind: TaskType)
    requires TasksAppended(db1, db2)
    ensures HasTask(db1, pl, kind) ==> HasTask(db2, pl, kind)
  {
    if HasTask(db1, pl, kind) {
      var i :| 0 <= i < |db1.tasks| && db1.tasks[i].pipelineId == pl && db1.tasks[i].kind == kind;
      assert db2.tasks[i] == db2.tasks[..|db1.tasks|][i];
    }
  }

  lemma TasksAppendedChains(db1: Db, db2: Db, db3: Db)
    requires TasksAppended(db1, db2) && TasksAppended(db2, db3)
    ensures TasksAppended(db1, db3)
  {
    assert forall i :: 0 <= i < |db1.tasks| ==> db3.tasks[i] == db3.tasks[..|db2.tasks|][i];
  }

  /** Creates a task; a failed insert returns nil and the log line after it
      dereferences it. */
  function Spawn(db: Db, faults: Faults, pl: nat, kind: TaskType): (o: Outcome)
    ensures o.Crashed? <==> InsertTask(pl, kind) in faults
    ensures o.Crashed? ==> o.db == db
    ensures o.Completed? ==> o.db == db.(tasks := db.tasks + [Task(pl, kind, Waiting)])
  {
    match CreateTask(db, faults, pl, kind)
    case None => Crashed(db)
    case Some(next) => Completed(next)
  }

  /** The loop over the task types for pipeline `pl`: look the type up, create
      it when the lookup finds no row. A failed lookup skips the type. */
  function ReconcileKinds(probe: Probe, db: Db, faults: Faults, pl: nat, kinds: seq<TaskType>): (o: Outcome)
    ensures TasksAppended(db, o.db)
    ensures |o.db.tasks| <= |db.tasks| + |kinds|
    ensures forall i :: |db.tasks| <= i < |o.db.tasks| ==>
              o.db.tasks[i].pipelineId == pl && o.db.tasks[i].status == Waiting && o.db.tasks[i].kind in kinds
    ensures o.Crashed? ==> exists k :: k in kinds && InsertTask(pl, k) in faults
    ensures probe == ProbeOwnType && UniqueTasks(db) ==> UniqueTasks(o.db)
    ensures probe == ProbeOwnType && o.Completed? ==>
              forall k :: k in kinds ==> HasTask(o.db, pl, k) || GetTaskByType(pl, k) in faults
    decreases |kinds|
  {
    if |kinds| == 0 then Completed(db)
    else
      var k := kinds[0];
      var rest := kinds[1..];
      assert forall x :: x in kinds <==> x == k || x in rest;
      match GetByType(db, faults, pl, Probed(probe, k))
      case Absent =>
        (match Spawn(db, faults, pl, k)
         case Crashed(d) => Crashed(d)
         case Completed(d) =>
           var o := ReconcileKinds(probe, d, faults, pl, rest);
           assert d.tasks[|db.tasks|] == Task(pl, k, Waiting);
           assert HasTask(d, pl, k);
           HasTaskKept(d, o.db, pl, k);
           TasksAppendedChains(db, d, o.db);
           assert forall i :: |db.tasks| <= i < |d.tasks| ==> o.db.tasks[i] == o.db.tasks[..|d.tasks|][i];
           o)
      case Found(t) =>
        var o := ReconcileKinds(probe, db, faults, pl, rest);
        assert probe == ProbeOwnType ==> HasTask(db, pl, k);
        HasTaskKept(db, o.db, pl, k);
        o
      case LookupError =>
        ReconcileKinds(probe, db, faults, pl, rest)
  }

  /** The newest pipeline of `p`, as `q` answers it, has every type, or the
      lookup of that type fails. */
  ghost predicate Covered(q: LastQuery, db: Db, faults: Faults, p: nat)
  {
    LastOf(q, db, faults, p).Found? ==>
      forall k :: k in TaskTypes ==>
        HasTask(db, LastOf(q, db, faults, p).value, k) || GetTaskByType(LastOf(q, db, faults, p).value, k) in faults
  }

  /** One iteration of the per-project loop: nothing without a newest pipeline. */
  function ReconcileProject(q: LastQuery, probe: Probe, db: Db, faults: Faults, p: nat): (o: Outcome)
    ensures TasksAppended(db, o.db)
    ensures !LastOf(q, db, faults, p).Found? ==> o == Completed(db)
    ensures forall i :: |db.tasks| <= i < |o.db.tasks| ==>
              o.db.tasks[i].status == Waiting && LastOf(q, db, faults, p) == Found(o.db.tasks[i].pipelineId)
    ensures probe == ProbeOwnType && UniqueTasks(db) ==> UniqueTasks(o.db)
    ensures probe == ProbeOwnType && o.Completed? ==> Covered(q, o.db, faults, p)
  {
    match LastOf(q, db, faults, p)
    case Found(pl) =>
      var o := ReconcileKinds(probe, db, faults, pl, TaskTypes);
      assert o.db.pipelines == db.pipelines;
      assert LastOf(q, o.db, faults, p) == LastOf(q, db, faults, p);
      o
    case _ => Completed(db)
  }

  /** Appended tasks keep a project covered. */
  lemma CoveredKept(q: LastQuery, db1: Db, db2: Db, faults: Faults, p: nat)
    requires TasksAppended(db1, db2)
    ensures Covered(q, db1, faults, p) ==> Covered(q, db2, faults, p)
  {
    assert db2.pipelines == db1.pipelines;
    assert LastOf(q, db2, faults, p) == LastOf(q, db1, faults, p);
    if LastOf(q, db1, faults, p).Found? {
      forall k | k in TaskTypes {
        HasTaskKept(db1, db2, LastOf(q, db1, faults, p).value, k);
      }
    }
  }

  /** The loop over the enabled projects, in the order listed; a crash ends the tick. */
  function ReconcileAll(q: LastQuery, probe: Probe, db: Db, faults: Faults, ids: seq<nat>): (o: Outcome)
    ensures TasksAppended(db, o.db)
    ensures NewInNewest(q, db, o.db, faults, ids)
    ensures probe == ProbeOwnType && UniqueTasks(db) ==> UniqueTasks(o.db)
    ensures probe == ProbeOwnType && o.Completed? ==> forall p :: p in ids ==> Covered(q, o.db, faults, p)
    decreases |ids|
  {
    if |ids| == 0 then Completed(db)
    else
      var p := ids[0];
      var rest := ids[1..];
      assert forall x :: x in ids <==> x == p || x in rest;
      match ReconcileProject(q, probe, db, faults, p)
      case Crashed(d) => Crashed(d)
      case Completed(d) =>
        var o := ReconcileAll(q, probe, d, faults, rest);
        TasksAppendedChains(db, d, o.db);
        NewTasksStayNewest(q, db, d, o.db, faults, ids);
        CoveredKept(q, d, o.db, faults, p);
        o
  }

  /** `q` answers pipeline `pl` as the newest pipeline of some project of `ids`. */
  ghost predicate AnsweredFor(q: LastQuery, db: Db, faults: Faults, ids: seq<nat>, pl: nat)
  {
    exists p :: p in ids && LastOf(q, db, faults, p) == Found(pl)
  }

  /** The tasks `o` has beyond those of `db` wait in the pipeline `q` answers
      for a project of `ids`. */
  ghost predicate NewInNewest(q: LastQuery, db: Db, o: Db, faults: Faults, ids: seq<nat>)
  {
    forall i :: |db.tasks| <= i < |o.tasks| ==>
      o.tasks[i].status == Waiting && AnsweredFor(q, db, faults, ids, o.tasks[i].pipelineId)
  }

  /** The tasks one project's iteration appends, and those the later iterations
      append, are all in a pipeline `q` answers for a listed project. */
  lemma NewTasksStayNewest(q: LastQuery, db: Db, d: Db, o: Db, faults: Faults, ids: seq<nat>)
    requires |ids| > 0
    requires TasksAppended(db, d) && TasksAppended(d, o)
    requires forall i :: |db.tasks| <= i < |d.tasks| ==>
               d.tasks[i].status == Waiting && LastOf(q, db, faults, ids[0]) == Found(d.tasks[i].pipelineId)
    requires NewInNewest(q, d, o, faults, ids[1..])
    ensures NewInNewest(q, db, o, faults, ids)
  {
    assert d.pipelines == db.pipelines;
    forall i | |db.tasks| <= i < |o.tasks|
      ensures o.tasks[i].status == Waiting && AnsweredFor(q, db, faults, ids, o.tasks[i].pipelineId)
    {
      var pl := o.tasks[i].pipelineId;
      if i < |d.tasks| {
        assert o.tasks[i] == o.tasks[..|d.tasks|][i];
        assert ids[0] in ids && LastOf(q, db, faults, ids[0]) == Found(pl);
      } else {
        assert o.tasks[i].status == Waiting && AnsweredFor(q, d, faults, ids[1..], pl);
        var p :| p in ids[1..] && LastOf(q, d, faults, p) == Found(pl);
        assert LastOf(q, db, faults, p) == LastOf(q, d, faults, p);
        assert p in ids;
      }
    }
  }

  /** One tick of the reconcile loop. A failed project listing skips the tick.
      Every new task waits in the pipeline the query answers for an enabled
      project: with the per-project query, that project's newest pipeline;
      with the query as written, the newest pipeline of the whole table. */
  function Tick(q: LastQuery, probe: Probe, db: Db, faults: Faults): (o: Outcome)
    ensures AllEnabledProjects in faults ==> o == Completed(db)
    ensures TasksAppended(db, o.db)
    ensures forall i :: |db.tasks| <= i < |o.db.tasks| ==> o.db.tasks[i].status == Waiting
    ensures q == PerProject ==>
              forall i :: |db.tasks| <= i < |o.db.tasks| ==> NewestOfEnabled(db, o.db.tasks[i].pipelineId)
    ensures q == WholeTable ==>
              forall i :: |db.tasks| <= i < |o.db.tasks| ==> o.db.tasks[i].pipelineId == |db.pipelines| - 1
    ensures TasksReferencePipelines(db) ==> TasksReferencePipelines(o.db)
    ensures probe == ProbeOwnType && UniqueTasks(db) ==> UniqueTasks(o.db)
  {
    match AllEnabled(db, faults)
    case None => Completed(db)
    case Some(ids) =>
      var o := ReconcileAll(q, probe, db, faults, ids);
      assert forall i :: 0 <= i < |db.tasks| ==> o.db.tasks[i] == o.db.tasks[..|db.tasks|][i];
      NewTasksAreAnswered(q, db, o.db, faults, ids);
      o
  }

  /** Pipeline `pl` is the newest pipeline of an enabled project. */
  ghost predicate NewestOfEnabled(db: Db, pl: nat)
  {
    exists p :: 0 <= p < |db.projects| && db.projects[p].enabled && NewestOf(db, p, pl)
  }

  /** What the answer of each query means for the new tasks of a tick. */
  lemma NewTasksAreAnswered(q: LastQuery, db: Db, o: Db, faults: Faults, ids: seq<nat>)
    requires NewInNewest(q, db, o, faults, ids)
    requires forall p :: p in ids <==> 0 <= p < |db.projects| && db.projects[p].enabled
    ensures forall i :: |db.tasks| <= i < |o.tasks| ==> o.tasks[i].pipelineId < |db.pipelines|
    ensures q == PerProject ==>
              forall i :: |db.tasks| <= i < |o.tasks| ==> NewestOfEnabled(db, o.tasks[i].pipelineId)
    ensures q == WholeTable ==>
              forall i :: |db.tasks| <= i < |o.tasks| ==> o.tasks[i].pipelineId == |db.pipelines| - 1
  {
    forall i | |db.tasks| <= i < |o.tasks|
      ensures o.tasks[i].pipelineId < |db.pipelines|
      ensures q == PerProject ==> NewestOfEnabled(db, o.tasks[i].pipelineId)
      ensures q == WholeTable ==> o.tasks[i].pipelineId == |db.pipelines| - 1
    {
      var pl := o.tasks[i].pipelineId;
      assert AnsweredFor(q, db, faults, ids, pl);
      var p :| p in ids && LastOf(q, db, faults, p) == Found(pl);
      assert 0 <= p < |db.projects| && db.projects[p].enabled;
      match q {
        case PerProject =>
          assert Last(db, faults, p) == Found(pl);
          assert NewestOf(db, p, pl);
        case WholeTable =>
          assert LastAsWritten(db, faults, p) == Found(pl);
      }
    }
  }

  // -------------------------------------------------------------- properties

  /** The tasks a pipeline lacks, in the order of `TaskTypes`. */
  ghost function Missing(db: Db, pl: nat): seq<Task>
  {
    MissingOf(db, pl, Scrape) + MissingOf(db, pl, Publish)
  }

  /** No lookup or insert of pipeline `pl`'s tasks fails. */
  ghost predicate TaskCallsSucceed(faults: Faults, pl: nat)
  {
    forall k: TaskType :: GetTaskByType(pl, k) !in faults && InsertTask(pl, k) !in faults
  }

  /** The rest of the loop after a prefix of the types, unless the prefix crashed. */
  function AndThen(probe: Probe, o: Outcome, faults: Faults, pl: nat, kinds: seq<TaskType>): Outcome
  {
    match o
    case Crashed(_) => o
    case Completed(d) => ReconcileKinds(probe, d, faults, pl, kinds)
  }

  /** The loop over `a + b` is the loop over `a` followed by the loop over `b`. */
  lemma {:induction false} KindsCompose(probe: Probe, db: Db, faults: Faults, pl: nat, a: seq<TaskType>, b: seq<TaskType>)
    ensures ReconcileKinds(probe, db, faults, pl, a + b)
            == AndThen(probe, ReconcileKinds(probe, db, faults, pl, a), faults, pl, b)
    decreases |a|
  {
    if |a| == 0 {
      assert a + b == b;
    } else {
      assert (a + b)[0] == a[0];
      assert (a + b)[1..] == a[1..] + b;
      match GetByType(db, faults, pl, Probed(probe, a[0]))
      case Absent =>
        match Spawn(db, faults, pl, a[0]) {
          case Crashed(_) =>
          case Completed(d) => KindsCompose(probe, d, faults, pl, a[1..], b);
        }
      case Found(_) => KindsCompose(probe, db, faults, pl, a[1..], b);
      case LookupError => KindsCompose(probe, db, faults, pl, a[1..], b);
    }
  }

  /** The task `pl` lacks of type `kind`, if any. */
  ghost function MissingOf(db: Db, pl: nat, kind: TaskType): seq<Task>
  {
    if HasTask(db, pl, kind) then [] else [Task(pl, kind, Waiting)]
  }

  /** Checking its own type, one iteration creates the type exactly when it is missing. */
  lemma OwnTypeIteration(db: Db, faults: Faults, pl: nat, kind: TaskType)
    requires GetTaskByType(pl, kind) !in faults && InsertTask(pl, kind) !in faults
    ensures ReconcileKinds(ProbeOwnType, db, faults, pl, [kind])
            == Completed(db.(tasks := db.tasks + MissingOf(db, pl, kind)))
  {
    assert [kind][1..] == [];
    if HasTask(db, pl, kind) {
      var i :| 0 <= i < |db.tasks| && db.tasks[i].pipelineId == pl && db.tasks[i].kind == kind;
      assert !GetByType(db, faults, pl, kind).Absent?;
      assert db.tasks + [] == db.tasks;
    } else {
      assert GetByType(db, faults, pl, kind).Absent?;
    }
  }

  /** Appending the missing Scrape task neither adds nor hides a Publish task. */
  lemma ScrapeTaskHidesNoPublish(db: Db, pl: nat)
    ensures HasTask(db.(tasks := db.tasks + MissingOf(db, pl, Scrape)), pl, Publish) == HasTask(db, pl, Publish)
  {
    var d := db.(tasks := db.tasks + MissingOf(db, pl, Scrape));
    if HasTask(d, pl, Publish) {
      var i :| 0 <= i < |d.tasks| && d.tasks[i].pipelineId == pl && d.tasks[i].kind == Publish;
      assert i < |db.tasks| && db.tasks[i] == d.tasks[i];
    }
    if HasTask(db, pl, Publish) {
      var i :| 0 <= i < |db.tasks| && db.tasks[i].pipelineId == pl && db.tasks[i].kind == Publish;
      assert d.tasks[i] == db.tasks[i];
    }
  }

  /** Checking each type itself, the loop appends exactly the missing types. */
  lemma OwnTypeProbeAppendsTheMissingTypes(db: Db, faults: Faults, pl: nat)
    requires TaskCallsSucceed(faults, pl)
    ensures ReconcileKinds(ProbeOwnType, db, faults, pl, TaskTypes)
            == Completed(db.(tasks := db.tasks + Missing(db, pl)))
  {
    assert TaskTypes == [Scrape] + [Publish];
    KindsCompose(ProbeOwnType, db, faults, pl, [Scrape], [Publish]);
    OwnTypeIteration(db, faults, pl, Scrape);
    var d := db.(tasks := db.tasks + MissingOf(db, pl, Scrape));
    OwnTypeIteration(d, faults, pl, Publish);
    ScrapeTaskHidesNoPublish(db, pl);
    ConcatAssociates(db.tasks, MissingOf(db, pl, Scrape), MissingOf(db, pl, Publish));
  }

  /** Checking always for `Scrape`, the loop never creates a publish task: the
      publish iteration finds the scrape task the scrape iteration found or
      created, and a failed lookup fails for both iterations alike. */
  lemma {:induction false} ScrapeProbeCreatesOnlyScrape(db: Db, faults: Faults, pl: nat)
    ensures var o := ReconcileKinds(ProbeScrape, db, faults, pl, TaskTypes);
            forall i :: |db.tasks| <= i < |o.db.tasks| ==> o.db.tasks[i] == Task(pl, Scrape, Waiting)
  {
    assert TaskTypes[1..] == [Publish];
    assert [Publish][1..] == [];
    match GetByType(db, faults, pl, Scrape)
    case Absent =>
      if InsertTask(pl, Scrape) !in faults {
        var d := db.(tasks := db.tasks + [Task(pl, Scrape, Waiting)]);
        assert d.tasks[|db.tasks|].pipelineId == pl && d.tasks[|db.tasks|].kind == Scrape;
        assert GetByType(d, faults, pl, Scrape).Found?;
        assert ReconcileKinds(ProbeScrape, db, faults, pl, TaskTypes) == Completed(d);
      }
    case Found(_) =>
      assert ReconcileKinds(ProbeScrape, db, faults, pl, TaskTypes) == Completed(db);
    case LookupError =>
      assert ReconcileKinds(ProbeScrape, db, faults, pl, TaskTypes) == Completed(db);
  }

  /** As written, a pipeline that already holds a scrape task gets nothing, not
      even the publish task it lacks. */
  lemma ScrapedPipelineGetsNothing(db: Db, faults: Faults, pl: nat)
    requires HasTask(db, pl, Scrape)
    ensures ReconcileKinds(ProbeScrape, db, faults, pl, TaskTypes) == Completed(db)
  {
    assert TaskTypes[1..] == [Publish];
    assert [Publish][1..] == [];
    var i :| 0 <= i < |db.tasks| && db.tasks[i].pipelineId == pl && db.tasks[i].kind == Scrape;
    assert !GetByType(db, faults, pl, Scrape).Absent?;
  }

  /** On a fresh pipeline the reconciler as written creates the scrape task
      only; checking each type itself creates both, scrape first. */
  lemma FreshPipelineTasks(db: Db, faults: Faults, pl: nat)
    requires TaskCallsSucceed(faults, pl)
    requires forall i :: 0 <= i < |db.tasks| ==> db.tasks[i].pipelineId != pl
    ensures ReconcileKinds(ProbeScrape, db, faults, pl, TaskTypes)
            == Completed(db.(tasks := db.tasks + [Task(pl, Scrape, Waiting)]))
    ensures ReconcileKinds(ProbeOwnType, db, faults, pl, TaskTypes)
            == Completed(db.(tasks := db.tasks + [Task(pl, Scrape, Waiting), Task(pl, Publish, Waiting)]))
  {
    OwnTypeProbeAppendsTheMissingTypes(db, faults, pl);
    assert !HasTask(db, pl, Scrape) && !HasTask(db, pl, Publish);
    assert Missing(db, pl) == [Task(pl, Scrape, Waiting), Task(pl, Publish, Waiting)];
    ScrapeProbeCreatesOnlyScrape(db, faults, pl);
    assert GetByType(db, faults, pl, Scrape).Absent?;
    var o := ReconcileKinds(ProbeScrape, db, faults, pl, TaskTypes);
    assert o.Completed?;
    assert |o.db.tasks| == |db.tasks| + 1 by {
      assert TaskTypes[1..] == [Publish];
      var d := db.(tasks := db.tasks + [Task(pl, Scrape, Waiting)]);
      assert d.tasks[|db.tasks|].pipelineId == pl && d.tasks[|db.tasks|].kind == Scrape;
      assert GetByType(d, faults, pl, Scrape).Found?;
      assert [Publish][1..] == [];
    }
    assert o.db.tasks == db.tasks + [Task(pl, Scrape, Waiting)] by {
      assert o.db.tasks[..|db.tasks|] == db.tasks;
      assert o.db.tasks[|db.tasks|] == Task(pl, Scrape, Waiting);
    }
  }

  /** As written, a tick gives no pipeline a publish task it lacks, so such a
      pipeline is not finished after it. `Lifecycle.ScrapeProbeNeverFinishes`
      carries this over every schedule of the loops. */
  lemma ScrapeProbeTickAddsNoPublish(q: LastQuery, db: Db, faults: Faults, pl: nat, later: Faults)
    requires !HasTask(db, pl, Publish)
    ensures var o := Tick(q, ProbeScrape, db, faults);
            !HasTask(o.db, pl, Publish) && !Completion.IsFinished(o.db, later, pl).finished
  {
    var o := Tick(q, ProbeScrape, db, faults);
    ScrapeProbeTickCreatesOnlyScrape(q, db, faults);
    forall i | 0 <= i < |o.db.tasks| ensures !(o.db.tasks[i].pipelineId == pl && o.db.tasks[i].kind == Publish) {
      if i < |db.tasks| {
        assert o.db.tasks[i] == o.db.tasks[..|db.tasks|][i];
      }
    }
    assert Task(pl, Publish, Finished) !in o.db.tasks;
  }

  /** A whole tick as written creates only scrape tasks. */
  lemma ScrapeProbeTickCreatesOnlyScrape(q: LastQuery, db: Db, faults: Faults)
    ensures var o := Tick(q, ProbeScrape, db, faults);
            forall i :: |db.tasks| <= i < |o.db.tasks| ==> o.db.tasks[i].kind == Scrape
  {
    match AllEnabled(db, faults) {
      case None =>
        assert Tick(q, ProbeScrape, db, faults) == Completed(db);
      case Some(ids) =>
        assert Tick(q, ProbeScrape, db, faults) == ReconcileAll(q, ProbeScrape, db, faults, ids);
        ScrapeProbeAllCreatesOnlyScrape(q, db, faults, ids);
    }
  }

  lemma {:induction false} ScrapeProbeAllCreatesOnlyScrape(q: LastQuery, db: Db, faults: Faults, ids: seq<nat>)
    ensures var o := ReconcileAll(q, ProbeScrape, db, faults, ids);
            forall i :: |db.tasks| <= i < |o.db.tasks| ==> o.db.tasks[i].kind == Scrape
    decreases |ids|
  {
    if |ids| > 0 {
      var o1 := ReconcileProject(q, ProbeScrape, db, faults, ids[0]);
      var d := o1.db;
      if LastOf(q, db, faults, ids[0]).Found? {
        var pl := LastOf(q, db, faults, ids[0]).value;
        assert o1 == ReconcileKinds(ProbeScrape, db, faults, pl, TaskTypes);
        ScrapeProbeCreatesOnlyScrape(db, faults, pl);
      } else {
        assert o1 == Completed(db);
      }
      assert forall i :: |db.tasks| <= i < |d.tasks| ==> d.tasks[i].kind == Scrape;
      var o := ReconcileAll(q, ProbeScrape, db, faults, ids);
      if o1.Completed? {
        assert o == ReconcileAll(q, ProbeScrape, d, faults, ids[1..]);
        ScrapeProbeAllCreatesOnlyScrape(q, d, faults, ids[1..]);
        forall i | |db.tasks| <= i < |o.db.tasks| ensures o.db.tasks[i].kind == Scrape {
          if i < |d.tasks| {
            assert o.db.tasks[i] == o.db.tasks[..|d.tasks|][i];
          }
        }
      } else {
        assert o == o1;
      }
    }
  }

  /** When every listed project is covered, the loop changes nothing. */
  lemma {:induction false} CoveredProjectsAreLeftAlone(q: LastQuery, db: Db, faults: Faults, ids: seq<nat>)
    requires forall p :: p in ids ==> Covered(q, db, faults, p)
    ensures ReconcileAll(q, ProbeOwnType, db, faults, ids) == Completed(db)
    decreases |ids|
  {
    if |ids| > 0 {
      CoveredProjectIsLeftAlone(q, db, faults, ids[0]);
      assert forall x :: x in ids[1..] ==> x in ids;
      CoveredProjectsAreLeftAlone(q, db, faults, ids[1..]);
    }
  }

  /** One covered project's iteration changes nothing. */
  lemma CoveredProjectIsLeftAlone(q: LastQuery, db: Db, faults: Faults, p: nat)
    requires Covered(q, db, faults, p)
    ensures ReconcileProject(q, ProbeOwnType, db, faults, p) == Completed(db)
  {
    if LastOf(q, db, faults, p).Found? {
      var pl := LastOf(q, db, faults, p).value;
      assert TaskTypes[1..] == [Publish];
      assert [Publish][1..] == [];
      assert Scrape in TaskTypes && Publish in TaskTypes;
      if GetTaskByType(pl, Scrape) !in faults {
        var i :| 0 <= i < |db.tasks| && db.tasks[i].pipelineId == pl && db.tasks[i].kind == Scrape;
        assert !GetByType(db, faults, pl, Scrape).Absent?;
      }
      if GetTaskByType(pl, Publish) !in faults {
        var i :| 0 <= i < |db.tasks| && db.tasks[i].pipelineId == pl && db.tasks[i].kind == Publish;
        assert !GetByType(db, faults, pl, Publish).Absent?;
      }
      assert ReconcileKinds(ProbeOwnType, db, faults, pl, TaskTypes) == Completed(db);
    }
  }

  /** A second tick with the same faults creates nothing. */
  lemma OwnTypeTickIsIdempotent(q: LastQuery, db: Db, faults: Faults)
    ensures var o := Tick(q, ProbeOwnType, db, faults);
            o.Completed? ==> Tick(q, ProbeOwnType, o.db, faults) == o
  {
    var o := Tick(q, ProbeOwnType, db, faults);
    if o.Completed? && AllEnabledProjects !in faults {
      var ids := AllEnabled(db, faults).value;
      assert o.db.projects == db.projects;
      assert AllEnabled(o.db, faults) == AllEnabled(db, faults);
      CoveredProjectsAreLeftAlone(q, o.db, faults, ids);
    }
  }

  // ------------------------------------------- the query as the store writes it

  /** The two-project world once each project has a pipeline, with no task yet. */
  function TwoPipelines(): Db
  {
    PipelineScheduler.TwoFreshProjects().(pipelines := [Pipeline(0), Pipeline(1)])
  }

  /** A database shaped like `TwoPipelines()`: two enabled projects with one
      pipeline each, listed in that order, and no task. */
  ghost predicate TwoPipelinesShape(db: Db)
  {
    && db.pipelines == [Pipeline(0), Pipeline(1)]
    && db.tasks == []
    && AllEnabled(db, {}) == Some([0, 1])
  }

  lemma TwoPipelinesHasTheShape()
    ensures TwoPipelinesShape(TwoPipelines())
  {
    PipelineScheduler.BothProjectsListed(TwoPipelines());
  }

  /** A tick over the two listed projects is the first iteration, then the second. */
  lemma TwoIterations(q: LastQuery, probe: Probe, db: Db, d: Db, e: Db)
    requires AllEnabled(db, {}) == Some([0, 1])
    requires ReconcileProject(q, probe, db, {}, 0) == Completed(d)
    requires ReconcileProject(q, probe, d, {}, 1) == Completed(e)
    ensures Tick(q, probe, db, {}) == Completed(e)
  {
    assert [0, 1][1..] == [1];
    assert [1][1..] == [];
    assert Tick(q, probe, db, {}) == ReconcileAll(q, probe, d, {}, [1]);
    assert ReconcileAll(q, probe, e, {}, []) == Completed(e);
  }

  /** The per-project query gives each project's pipeline both tasks. */
  lemma PerProjectLastServesBothPipelines()
    ensures Tick(PerProject, ProbeOwnType, TwoPipelines(), {})
            == Completed(TwoPipelines().(tasks := [Task(0, Scrape, Waiting), Task(0, Publish, Waiting),
                                                   Task(1, Scrape, Waiting), Task(1, Publish, Waiting)]))
  {
    TwoPipelinesHasTheShape();
    PerProjectServesBoth(TwoPipelines());
  }

  lemma PerProjectServesBoth(db: Db)
    requires TwoPipelinesShape(db)
    ensures Tick(PerProject, ProbeOwnType, db, {})
            == Completed(db.(tasks := [Task(0, Scrape, Waiting), Task(0, Publish, Waiting),
                                       Task(1, Scrape, Waiting), Task(1, Publish, Waiting)]))
  {
    var d := db.(tasks := [Task(0, Scrape, Waiting), Task(0, Publish, Waiting)]);
    var e := d.(tasks := [Task(0, Scrape, Waiting), Task(0, Publish, Waiting),
                          Task(1, Scrape, Waiting), Task(1, Publish, Waiting)]);
    PerProjectServesTheFirst(db);
    PerProjectServesTheSecond(d);
    TwoIterations(PerProject, ProbeOwnType, db, d, e);
  }

  lemma PerProjectServesTheFirst(db: Db)
    requires db.pipelines == [Pipeline(0), Pipeline(1)] && db.tasks == []
    ensures ReconcileProject(PerProject, ProbeOwnType, db, {}, 0)
            == Completed(db.(tasks := [Task(0, Scrape, Waiting), Task(0, Publish, Waiting)]))
  {
    assert NewestOf(db, 0, 0);
    assert Last(db, {}, 0) == Found(0);
    OwnTypeProbeAppendsTheMissingTypes(db, {}, 0);
    assert Missing(db, 0) == [Task(0, Scrape, Waiting), Task(0, Publish, Waiting)];
  }

  lemma PerProjectServesTheSecond(d: Db)
    requires d.pipelines == [Pipeline(0), Pipeline(1)]
    requires d.tasks == [Task(0, Scrape, Waiting), Task(0, Publish, Waiting)]
    ensures ReconcileProject(PerProject, ProbeOwnType, d, {}, 1)
            == Completed(d.(tasks := [Task(0, Scrape, Waiting), Task(0, Publish, Waiting),
                                      Task(1, Scrape, Waiting), Task(1, Publish, Waiting)]))
  {
    assert Last(d, {}, 1) == Found(1);
    OwnTypeProbeAppendsTheMissingTypes(d, {}, 1);
    assert !HasTask(d, 1, Scrape) && !HasTask(d, 1, Publish);
    assert Missing(d, 1) == [Task(1, Scrape, Waiting), Task(1, Publish, Waiting)];
    assert d.tasks + Missing(d, 1) == [Task(0, Scrape, Waiting), Task(0, Publish, Waiting),
                                       Task(1, Scrape, Waiting), Task(1, Publish, Waiting)];
  }

  /** With the whole-table query both iterations reconcile the newest pipeline
      of the table, so the first project's pipeline gets no task. */
  lemma WholeTableLastSkipsTheFirstPipeline()
    ensures Tick(WholeTable, ProbeOwnType, TwoPipelines(), {})
            == Completed(TwoPipelines().(tasks := [Task(1, Scrape, Waiting), Task(1, Publish, Waiting)]))
  {
    TwoPipelinesHasTheShape();
    WholeTableServesOnlyTheNewest(TwoPipelines());
  }

  lemma WholeTableServesOnlyTheNewest(db: Db)
    requires TwoPipelinesShape(db)
    ensures Tick(WholeTable, ProbeOwnType, db, {})
            == Completed(db.(tasks := [Task(1, Scrape, Waiting), Task(1, Publish, Waiting)]))
  {
    var d := db.(tasks := [Task(1, Scrape, Waiting), Task(1, Publish, Waiting)]);
    assert ReconcileProject(WholeTable, ProbeOwnType, db, {}, 0) == Completed(d) by {
      OwnTypeProbeAppendsTheMissingTypes(db, {}, 1);
      assert Missing(db, 1) == [Task(1, Scrape, Waiting), Task(1, Publish, Waiting)];
    }
    OwnTypeProbeAppendsTheMissingTypes(d, {}, 1);
    assert d.tasks[0].kind == Scrape && d.tasks[1].kind == Publish;
    assert HasTask(d, 1, Scrape) && HasTask(d, 1, Publish);
    assert d.tasks + Missing(d, 1) == d.tasks;
    TwoIterations(WholeTable, ProbeOwnType, db, d, d);
  }

  /** The loop exactly as written, with both the whole-table query and the
      scrape-only check: one scrape task for the second project's pipeline,
      nothing for the first. */
  lemma AsWrittenTaskLoopGivesOneScrapeTask()
    ensures Tick(WholeTable, ProbeScrape, TwoPipelines(), {})
            == Completed(TwoPipelines().(tasks := [Task(1, Scrape, Waiting)]))
  {
    TwoPipelinesHasTheShape();
    AsWrittenGivesOneScrapeTask(TwoPipelines());
  }

  lemma AsWrittenGivesOneScrapeTask(db: Db)
    requires TwoPipelinesShape(db)
    ensures Tick(WholeTable, ProbeScrape, db, {}) == Completed(db.(tasks := [Task(1, Scrape, Waiting)]))
  {
    var d := db.(tasks := [Task(1, Scrape, Waiting)]);
    assert ReconcileProject(WholeTable, ProbeScrape, db, {}, 0) == Completed(d) by {
      FreshPipelineTasks(db, {}, 1);
    }
    assert d.tasks[0].pipelineId == 1 && d.tasks[0].kind == Scrape;
    ScrapedPipelineGetsNothing(d, {}, 1);
    TwoIterations(WholeTable, ProbeScrape, db, d, d);
  }
}
