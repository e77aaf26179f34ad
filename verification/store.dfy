/**
 The database the orchestration loops share, and the queries they make.

 Each table is a sequence whose index is the row's serial id. Every query can
 fail with a store error when its call is in the tick's fault set.
 */
module Store {
  import opened Rows
  import opened Tasks
  import opened Faults
  import Template

  datatype Project = Project(name: string, feedUrl: string, enabled: bool, updatedAt: int)

  datatype Pipeline = Pipeline(projectId: nat)

  datatype PostItem = PostItem(title: string, link: string, content: string)

  /** A post: the digest of one pipeline. `updatedAt` is the checkpoint of the next scrape. */
  datatype Post = Post(pipelineId: nat, title: string, content: string, items: seq<PostItem>, updatedAt: int)

  datatype Subscription = Subscription(projectId: nat, email: string)

  datatype Db = Db(
    projects: seq<Project>,
    pipelines: seq<Pipeline>,
    tasks: seq<Task>,
    posts: seq<Post>,
    subscriptions: seq<Subscription>,
    templates: Template.Table)

  /** How a tick ended: it ran to its end, or a nil dereference panicked the
      process. The writes made before the panic stay in the database. */
  datatype Outcome = Completed(db: Db) | Crashed(db: Db)

  /** Every task points at an existing pipeline. */
  ghost predicate TasksReferencePipelines(db: Db)
  {
    forall i :: 0 <= i < |db.tasks| ==> db.tasks[i].pipelineId < |db.pipelines|
  }

  /** `db2` differs from `db1` at most in the status of existing tasks. */
  ghost predicate OnlyStatusesChanged(db1: Db, db2: Db)
  {
    && db2.(tasks := db1.tasks) == db1
    && |db2.tasks| == |db1.tasks|
    && forall i :: 0 <= i < |db1.tasks| ==>
         db2.tasks[i].pipelineId == db1.tasks[i].pipelineId && db2.tasks[i].kind == db1.tasks[i].kind
  }

  // ---------------------------------------------------------------- projects

  function IsEnabled(p: Project): bool { p.enabled }

  /** `Projects.AllEnabled`: the ids of the enabled projects, in id order. */
  function AllEnabled(db: Db, faults: Faults): (r: Option<seq<nat>>)
    ensures r.None? <==> AllEnabledProjects in faults
    ensures r.Some? ==> Increasing(r.value)
    ensures r.Some? ==> forall p :: p in r.value <==> 0 <= p < |db.projects| && db.projects[p].enabled
  {
    if AllEnabledProjects in faults then None else Some(IndicesWhere(db.projects, IsEnabled))
  }

  /** The project that owns a task, through the task's pipeline. A dangling
      reference is answered as a lookup error. */
  function ProjectOfTask(db: Db, faults: Faults, taskId: nat): (r: Lookup<nat>)
    ensures !r.Absent?
    ensures r.Found? <==> GetProjectByTask(taskId) !in faults && taskId < |db.tasks|
                          && db.tasks[taskId].pipelineId < |db.pipelines|
                          && db.pipelines[db.tasks[taskId].pipelineId].projectId < |db.projects|
    ensures r.Found? ==> r.value == db.pipelines[db.tasks[taskId].pipelineId].projectId
  {
    if GetProjectByTask(taskId) in faults || taskId >= |db.tasks| then LookupError
    else
      var pl := db.tasks[taskId].pipelineId;
      if pl >= |db.pipelines| || db.pipelines[pl].projectId >= |db.projects| then LookupError
      else Found(db.pipelines[pl].projectId)
  }

  // --------------------------------------------------------------- pipelines

  function BelongsTo(projectId: nat): Pipeline -> bool
  {
    (p: Pipeline) => p.projectId == projectId
  }

  /** Pipeline `i` is the newest pipeline of project `p`. */
  ghost predicate NewestOf(db: Db, p: nat, i: nat)
  {
    && i < |db.pipelines|
    && db.pipelines[i].projectId == p
    && forall j :: i < j < |db.pipelines| ==> db.pipelines[j].projectId != p
  }

  /** `ProjectPipelines.Last`, as intended: the project's newest pipeline. */
  function Last(db: Db, faults: Faults, projectId: nat): (r: Lookup<nat>)
    ensures r.LookupError? <==> LastPipeline(projectId) in faults
    ensures r.Found? ==> NewestOf(db, projectId, r.value)
    ensures r.Absent? <==> LastPipeline(projectId) !in faults
                           && forall j :: 0 <= j < |db.pipelines| ==> db.pipelines[j].projectId != projectId
  {
    if LastPipeline(projectId) in faults then LookupError
    else match LastWhere(db.pipelines, BelongsTo(projectId))
      case None => Absent
      case Some(i) => Found(i)
  }

  /** `ProjectPipelines.Last` as the query is written: the newest pipeline of
      the whole table, whatever its project. */
  function LastAsWritten(db: Db, faults: Faults, projectId: nat): (r: Lookup<nat>)
    ensures r.LookupError? <==> LastPipeline(projectId) in faults
    ensures r.Found? ==> r.value == |db.pipelines| - 1
    ensures r.Absent? <==> LastPipeline(projectId) !in faults && |db.pipelines| == 0
  {
    if LastPipeline(projectId) in faults then LookupError
    else if |db.pipelines| == 0 then Absent
    else Found(|db.pipelines| - 1)
  }

  /** Which query answers `ProjectPipelines.Last`: the per-project query the
      loops rely on, or the query as the store writes it. */
  datatype LastQuery = PerProject | WholeTable

  function LastOf(q: LastQuery, db: Db, faults: Faults, projectId: nat): (r: Lookup<nat>)
    ensures r.LookupError? <==> LastPipeline(projectId) in faults
    ensures r.Found? ==> r.value < |db.pipelines|
  {
    match q
    case PerProject => Last(db, faults, projectId)
    case WholeTable => LastAsWritten(db, faults, projectId)
  }

  /** `ProjectPipelines.Create`: appends a pipeline of the project. */
  function CreatePipeline(db: Db, faults: Faults, projectId: nat): (r: Option<Db>)
    ensures r.None? <==> InsertPipeline(projectId) in faults
    ensures r.Some? ==> r.value.(pipelines := db.pipelines) == db
    ensures r.Some? ==> r.value.pipelines == db.pipelines + [Pipeline(projectId)]
  {
    if InsertPipeline(projectId) in faults then None
    else Some(db.(pipelines := db.pipelines + [Pipeline(projectId)]))
  }

  // ------------------------------------------------------------------- tasks

  function InPipeline(pipelineId: nat): Task -> bool
  {
    (t: Task) => t.pipelineId == pipelineId
  }

  function OfPipelineAndType(pipelineId: nat, kind: TaskType): Task -> bool
  {
    (t: Task) => t.pipelineId == pipelineId && t.kind == kind
  }

  function OfTypeAndStatus(kind: TaskType, status: TaskStatus): Task -> bool
  {
    (t: Task) => t.kind == kind && t.status == status
  }

  /** `PipelineTasks.All`: the tasks of one pipeline, in id order. */
  function PipelineTasks(db: Db, faults: Faults, pipelineId: nat): (r: Option<seq<Task>>)
    ensures r.None? <==> AllTasksOfPipeline(pipelineId) in faults
    ensures r.Some? ==> forall t :: t in r.value <==> t in db.tasks && t.pipelineId == pipelineId
  {
    if AllTasksOfPipeline(pipelineId) in faults then None
    else
      Some(Where(db.tasks, InPipeline(pipelineId)))
  }

  /** `PipelineTasks.GetByType`: the pipeline's task of that type; "no row" when
      there is none. */
  function GetByType(db: Db, faults: Faults, pipelineId: nat, kind: TaskType): (r: Lookup<nat>)
    ensures r.LookupError? <==> GetTaskByType(pipelineId, kind) in faults
    ensures r.Found? ==> r.value < |db.tasks|
                         && db.tasks[r.value].pipelineId == pipelineId && db.tasks[r.value].kind == kind
    ensures r.Absent? <==> GetTaskByType(pipelineId, kind) !in faults
                           && forall j :: 0 <= j < |db.tasks| ==>
                                !(db.tasks[j].pipelineId == pipelineId && db.tasks[j].kind == kind)
  {
    if GetTaskByType(pipelineId, kind) in faults then LookupError
    else match FirstWhere(db.tasks, OfPipelineAndType(pipelineId, kind))
      case None => Absent
      case Some(i) => Found(i)
  }

  /** `PipelineTasks.Create`: appends a `Waiting` task of that type to the pipeline. */
  function CreateTask(db: Db, faults: Faults, pipelineId: nat, kind: TaskType): (r: Option<Db>)
    ensures r.None? <==> InsertTask(pipelineId, kind) in faults
    ensures r.Some? ==> r.value.(tasks := db.tasks) == db
    ensures r.Some? ==> r.value.tasks == db.tasks + [Task(pipelineId, kind, Waiting)]
  {
    if InsertTask(pipelineId, kind) in faults then None
    else Some(db.(tasks := db.tasks + [NewTask(pipelineId, kind)]))
  }

  /** `Tasks.Filter`: ids, in id order, of the tasks of a type in a status. */
  function Filter(db: Db, faults: Faults, kind: TaskType, status: TaskStatus): (r: Option<seq<nat>>)
    ensures r.None? <==> FilterTasks(kind, status) in faults
    ensures r.Some? ==> Increasing(r.value)
    ensures r.Some? ==> forall i :: i in r.value <==>
                          0 <= i < |db.tasks| && db.tasks[i].kind == kind && db.tasks[i].status == status
  {
    if FilterTasks(kind, status) in faults then None
    else Some(IndicesWhere(db.tasks, OfTypeAndStatus(kind, status)))
  }

  /** `Task.Update`: writes the status column of one row and nothing else. An
      unknown id updates no row and is not an error. */
  function UpdateStatus(db: Db, faults: Faults, taskId: nat, status: TaskStatus): (r: Option<Db>)
    ensures r.None? <==> UpdateTask(taskId, status) in faults
    ensures r.Some? ==> OnlyStatusesChanged(db, r.value)
    ensures r.Some? ==> forall i :: 0 <= i < |db.tasks| && i != taskId ==> r.value.tasks[i] == db.tasks[i]
    ensures r.Some? && taskId < |db.tasks| ==> r.value.tasks[taskId].status == status
  {
    if UpdateTask(taskId, status) in faults then None
    else if taskId < |db.tasks| then Some(db.(tasks := db.tasks[taskId := db.tasks[taskId].(status := status)]))
    else Some(db)
  }

  // ------------------------------------------------------------------- posts

  function PostOfProject(db: Db, projectId: nat): Post -> bool
  {
    (p: Post) => p.pipelineId < |db.pipelines| && db.pipelines[p.pipelineId].projectId == projectId
  }

  function PostOfPipeline(pipelineId: nat): Post -> bool
  {
    (p: Post) => p.pipelineId == pipelineId
  }

  /** `ProjectPosts.Last`: the newest post of any pipeline of the project. */
  function LastPost(db: Db, faults: Faults, projectId: nat): (r: Lookup<Post>)
    ensures r.LookupError? <==> LastPostOfProject(projectId) in faults
    ensures r.Found? ==> r.value in db.posts && r.value.pipelineId < |db.pipelines|
                         && db.pipelines[r.value.pipelineId].projectId == projectId
    // newest: no later row is a post of the project
    ensures r.Found? ==> exists i :: 0 <= i < |db.posts| && db.posts[i] == r.value
                                     && forall j :: i < j < |db.posts| ==> !PostOfProject(db, projectId)(db.posts[j])
    ensures r.Absent? <==> LastPostOfProject(projectId) !in faults
                           && forall j :: 0 <= j < |db.posts| ==> !PostOfProject(db, projectId)(db.posts[j])
  {
    if LastPostOfProject(projectId) in faults then LookupError
    else match LastWhere(db.posts, PostOfProject(db, projectId))
      case None => Absent
      case Some(i) => Found(db.posts[i])
  }

  /** `PipelinePosts.Get`: the post of a pipeline. */
  function PostOf(db: Db, faults: Faults, pipelineId: nat): (r: Lookup<Post>)
    ensures r.LookupError? <==> GetPostByPipeline(pipelineId) in faults
    ensures r.Found? ==> r.value in db.posts && r.value.pipelineId == pipelineId
    ensures r.Absent? <==> GetPostByPipeline(pipelineId) !in faults
                           && forall j :: 0 <= j < |db.posts| ==> db.posts[j].pipelineId != pipelineId
  {
    if GetPostByPipeline(pipelineId) in faults then LookupError
    else match FirstWhere(db.posts, PostOfPipeline(pipelineId))
      case None => Absent
      case Some(i) => Found(db.posts[i])
  }

  /** `Post.Create`: appends the post. */
  function CreatePost(db: Db, faults: Faults, post: Post): (r: Option<Db>)
    ensures r.None? <==> InsertPost(post.pipelineId) in faults
    ensures r.Some? ==> r.value.(posts := db.posts) == db
    ensures r.Some? ==> r.value.posts == db.posts + [post]
  {
    if InsertPost(post.pipelineId) in faults then None
    else Some(db.(posts := db.posts + [post]))
  }

  // ----------------------------------------------------------- subscriptions

  function SubscribedTo(projectId: nat): Subscription -> bool
  {
    (s: Subscription) => s.projectId == projectId
  }

  /** `Subscriptions.All`: ids of the project's subscriptions, in id order. */
  function Subscriptions(db: Db, faults: Faults, projectId: nat): (r: Option<seq<nat>>)
    ensures r.None? <==> SubscriptionsOfProject(projectId) in faults
    ensures r.Some? ==> Increasing(r.value)
    ensures r.Some? ==> forall s :: s in r.value <==>
                          0 <= s < |db.subscriptions| && db.subscriptions[s].projectId == projectId
  {
    if SubscriptionsOfProject(projectId) in faults then None
    else Some(IndicesWhere(db.subscriptions, SubscribedTo(projectId)))
  }
}
