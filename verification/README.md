# Newsletter orchestration core, in Dafny

The newsletter service turns each enabled project's RSS feed into a periodic
e-mail digest. The work is split into **pipelines**, one per run per project.
Each pipeline holds two **tasks**, a Scrape task and a Publish task, that
move through the statuses `Waiting → Ready → Finished` (or `Failed`).

Four background loops share the database:

- the **pipeline reconciler** gives an enabled project a new pipeline when it
  has none or its newest one is finished;
- the **task reconciler** creates the tasks missing from each project's
  newest pipeline;
- the **scrape worker** readies waiting Scrape tasks. It then turns each
  ready one into a post: the HTML digest of the feed items published since
  the project's checkpoint;
- the **publish worker** readies a Publish task once its Scrape sibling has
  finished. It then e-mails the pipeline's post to every subscriber and
  records the outcome in the task's status.

Around them sit the feed-item filter, the digest HTML builder, and the
e-mail templates, including the `ActivateEmailTemplate` request.

Each loop body is modelled as one pure step (`Tick`, `WaitingPass`,
`ReadyPass`) over an immutable database value `Store.Db`. Tables are
sequences whose index is the row id. Every query, insert and update can fail:
a tick is given the set of calls that fail (`Faults.Faults`). A nil
dereference of the code is an explicit outcome: `Crashed`, `Panicked` or
`DeliveryPanicked`. Where the code departs from its evident intent, the step
takes a variant parameter, so both behaviours are stated and proved:

- `Store.LastQuery`: `WholeTable` or `PerProject`, taken by both reconcilers,
  which call the same query;
- `TaskScheduler.Probe`: `ProbeScrape` or `ProbeOwnType`;
- `Publisher.Rule`: `AsWritten` or `Intended`.

`Lifecycle` puts the loops together. It shows that any interleaving of
ticks keeps three things true: a Publish task leaves `Waiting` only after its
Scrape sibling finished; a finished Scrape task left a post; no status moves
backwards.

Files:

- `rows.dfy`: row search helpers.
- `task.dfy`: task types and statuses.
- `faults.dfy`: the failure oracle.
- `store.dfy`: tables and queries.
- `pipeline.dfy`: pipeline completion.
- `pipeline_scheduler.dfy` and `task_scheduler.dfy`: the two reconcilers.
- `feedreader.dfy`, `content.dfy` and `scrapper.dfy`: the scrape worker.
- `template.dfy` and `template_api.dfy`: e-mail templates.
- `publisher.dfy`: the publish worker.
- `lifecycle.dfy`: the whole system.

## Code that does not compile as written

The code is mid-refactor, and several call sites name functions, methods or
fields that do not exist. The model follows their evident intent:

- `pkg/publisher/watcher.go:103` calls `PipelinePosts.Last`, which does not
  exist. It is modelled as `PipelinePosts.Get` (`pkg/post/pipeline.go:15`).
  That query answers "no row" as a nil post without an error
  (`pkg/post/handler.go:103-124`).
- `pkg/scrapper/scrapper.go:91` passes `isFirst` to `ReadFrom`, which takes
  only the date limit (`pkg/scrapper/feedreader.go:28`). The flag is computed
  (`Scrapper.CheckpointOf`) but not passed.
- `pkg/scheduler/task.go:61-62` uses `pipeline.TaskTypes` and
  `pipeline.Scrape`. They are `task.TaskTypes` and `task.Scrape`.
- `pkg/scrapper/scrapper.go:66` and `pkg/publisher/watcher.go:116` call
  `project.NewProjects().GetByTaskID`, which is not defined. Both are
  modelled by the query `getProjectByTaskID` (`pkg/project/handler.go:91-110`),
  as `Store.ProjectOfTask`.
- `Projects.AllEnabled` calls `Where`, which calls `getProjectsWhere`
  (`pkg/project/projects.go:33`, `pkg/project/projects.go:51-53`); that
  function is not defined. The listing is modelled by the query
  `getEnabledProjects` (`pkg/project/handler.go:72-85`), as `Store.AllEnabled`.
- The `Project` struct (`pkg/project/project.go:11-16`) has no `Name`,
  `FeedURL` or `IsEnabled` field, and no `Pipelines()`, `Posts()` or
  `EmailTemplates()` method. They are used at `pkg/scheduler/pipeline.go:49`,
  `:58` and `:80`, `pkg/scheduler/task.go:50`, `pkg/scrapper/scrapper.go:72`,
  `:75` and `:114`, and `pkg/publisher/watcher.go:130`. The model gives a
  project the columns the project queries scan (`pkg/project/handler.go:143`)
  and reaches its pipelines, posts and templates through the per-project
  queries of those packages.
- The `Post` struct (`pkg/post/post.go:10-16`) has no `Content` field, yet
  `p.Content` is written at `pkg/scrapper/scrapper.go:128`, inserted at
  `pkg/post/handler.go:26` and scanned at `pkg/post/handler.go:68` and `:114`.
  The model follows the queries: a post carries its `content` column, which
  the scrape worker fills with the built page (`Scrapper.DigestPost`).

## Where the code contradicts itself

- The no-post branch of the execution pass (`pkg/publisher/watcher.go:104-113`)
  logs "Post not found for this Pipeline. Skipping." and sets the task
  `Failed`: a ready Publish task without a post is meant to fail. The query
  it calls answers "no row" as a nil post without an error, so the branch is
  taken only on a query error. The model follows the code
  (`Publisher.MissingPostAsWritten`) and proves the branch's evident intent
  under `Publisher.Rule.Intended` (`Publisher.MissingPostFailsTheTask`).
- The post record written by the scrape worker has only its pipeline id and
  its content (`pkg/post/handler.go:21`, `pkg/scrapper/scrapper.go:126-128`).
  The post queries read no title (`pkg/post/handler.go:82`). So a post, as
  the publish worker sees it, has an empty title. Its items are whatever the
  `post_items` table holds, and no modelled loop writes that table.

## Model

| member | source | states |
|---|---|---|
| Tasks.IsFinished | pkg/task/task.go:60-62 | finished is the one terminal status that is a success: highest in the progress order, neither `Failed` nor `Aborted` |
| Tasks.IsScrape | pkg/task/task.go:65-67 | a task is a Scrape task iff its type is the first the reconciler visits, and iff it is not a Publish task |
| Tasks.IsPublish | pkg/task/task.go:70-72 | a task is a Publish task iff its type is the last the reconciler visits |
| Tasks.NewTask | pkg/task/handler.go:21-27 | a created task has the requested pipeline and type and is not finished |
| Tasks.Rank | pkg/task/task.go:15-21 | the progress order of statuses: `Waiting` lowest, the three terminal statuses highest |
| Pipeline.ScanFlags | pkg/pipeline/pipeline.go:52-61 | the loop raises the scrape flag iff some task is a finished scrape, the publish flag iff some task is a finished publish |
| Pipeline.Complete | pkg/pipeline/pipeline.go:44-63 | the verdict over a task list is "a finished scrape and a finished publish are both present" |
| Pipeline.IsFinished | pkg/pipeline/pipeline.go:43-64 | a load error gives (false, error); otherwise finished iff the pipeline's own tasks include a finished Scrape and a finished Publish task |
| Pipeline.NotFinishedWithoutBothTypes | pkg/pipeline/pipeline.go:44-63 | an empty task list, or one with only one kind finished, is not finished |
| Pipeline.CompleteIgnoresOrder | pkg/pipeline/pipeline.go:52-61 | the verdict depends only on the set of tasks, not their order or multiplicity |
| Pipeline.CompleteIgnoresUnfinished | pkg/pipeline/pipeline.go:52-61 | extra unfinished tasks of either type do not change the verdict |
| Store.AllEnabled | pkg/project/handler.go:72-88 | the listing is the ids of exactly the enabled projects, in id order, or an error |
| Store.ProjectOfTask | pkg/project/handler.go:91-110 | the project is the one owning the task's pipeline; never "no row" |
| Store.Last | pkg/pipeline/project.go:34-37 | the project's newest pipeline, "no row" iff the project has none |
| Store.LastAsWritten | pkg/pipeline/handler.go:62-83 | the query as written: the newest pipeline of the whole table, whatever the project |
| Store.LastOf | pkg/pipeline/handler.go:62-83 | either query fails exactly when the lookup call fails, and a pipeline it finds exists |
| Store.CreatePipeline | pkg/pipeline/project.go:22-32 | appends one pipeline of the project and changes nothing else |
| Store.PipelineTasks | pkg/task/handler.go:69-73 | the loaded tasks are exactly the tasks of that pipeline |
| Store.GetByType | pkg/task/handler.go:40-67 | a matching task of that pipeline and type, "no row" iff there is none, an error iff the query fails |
| Store.CreateTask | pkg/task/pipeline.go:21-32 | appends a `Waiting` task of that pipeline and type |
| Store.Filter | pkg/task/handler.go:75-79 | ids, in order, of exactly the tasks of that type and status |
| Store.UpdateStatus | pkg/task/handler.go:119-147 | writes only the status of the one task; every other task and table is unchanged |
| Store.LastPost | pkg/post/handler.go:89-100 | the project's newest post: a post of one of its pipelines with no post of the project after it in the table; "no row" iff the project has none; an error iff the query fails |
| Store.PostOf | pkg/post/handler.go:79-87 | a post of that pipeline, "no row" iff there is none |
| Store.CreatePost | pkg/post/handler.go:12-38 | appends the post, or fails and leaves the table unchanged |
| Store.Subscriptions | pkg/subscription/handler.go:39-55 | ids, in order, of exactly the project's subscriptions |
| PipelineScheduler.Spawn | pkg/scheduler/pipeline.go:58-63 | a created pipeline is appended; a failed insert is the nil dereference of the log line |
| PipelineScheduler.LastDecides | pkg/scheduler/pipeline.go:49-77 | the per-project query and the completion check decide exactly whether the project needs a pipeline (none yet, or the newest done) |
| PipelineScheduler.ReconcileProject | pkg/scheduler/pipeline.go:47-85 | at most one pipeline, of that project; with the per-project query, one is added iff the project needs it and the insert succeeds |
| PipelineScheduler.ReconcileAll | pkg/scheduler/pipeline.go:46-86 | only pipelines are appended, at most one per listed project, each for a listed project |
| PipelineScheduler.Tick | pkg/scheduler/pipeline.go:39-86 | a failed listing creates nothing; every new pipeline belongs to an enabled project; existing pipelines are kept |
| PipelineScheduler.Run | pkg/scheduler/pipeline.go:28-89 | any number of ticks only appends pipelines of enabled projects |
| PipelineScheduler.NeedsPipelineIgnoresOthers | pkg/scheduler/pipeline.go:46-86 | a later project's new pipeline does not change whether an earlier one needs one |
| PipelineScheduler.ReconcileAllFollowsPlan | pkg/scheduler/pipeline.go:46-86 | with the per-project query the loop appends exactly one pipeline per needy listed project, in id order |
| PipelineScheduler.TickFollowsPlan | pkg/scheduler/pipeline.go:39-86 | a tick appends exactly the planned pipelines when no planned insert fails |
| PipelineScheduler.PlannedCount | pkg/scheduler/pipeline.go:46-86 | the plan holds one pipeline for each listed needy project and none for the others |
| PipelineScheduler.TickGivesOnePipelineToEachNeedyProject | pkg/scheduler/pipeline.go:55-85 | a project with no pipeline or a finished newest pipeline gets exactly one new pipeline; every other project gets none |
| PipelineScheduler.FreshPipelineIsNotDone | pkg/scheduler/pipeline.go:67-77 | a just-created pipeline is not finished, so its project needs no other |
| PipelineScheduler.PlanLeavesNoNeed | pkg/scheduler/pipeline.go:46-86 | after the planned pipelines are added, no listed project needs another |
| PipelineScheduler.TickIsIdempotent | pkg/scheduler/pipeline.go:39-86 | a second tick with the same faults creates nothing |
| PipelineScheduler.PlannedIsEmpty | pkg/scheduler/pipeline.go:67-77 | when no project needs a pipeline, nothing is planned |
| PipelineScheduler.BothProjectsListed | pkg/scheduler/pipeline.go:39-46 | two enabled projects are both listed, in the model's id order |
| PipelineScheduler.WholeTableLastServesOnlyTheFirstProject | pkg/pipeline/handler.go:70 | with the query as written, two fresh projects get only one pipeline, that of the project listed first |
| PipelineScheduler.PerProjectLastServesBothProjects | pkg/pipeline/project.go:34-37 | with the per-project query both projects get theirs |
| PipelineScheduler.WholeTableLastStarvesTheSecondProject | pkg/pipeline/handler.go:70 | with the query as written, once all pipelines are those of the project listed first, a tick in which no store call fails completes and keeps them so |
| PipelineScheduler.FailedLookupLetsTheSecondProjectThrough | pkg/pipeline/handler.go:70 | the starvation needs fault-free ticks: a failed lookup for the project listed first skips it, and the other project gets a pipeline |
| TaskScheduler.Spawn | pkg/scheduler/task.go:81-98 | a created task is appended; a failed insert is the nil dereference of the log line |
| TaskScheduler.ReconcileKinds | pkg/scheduler/task.go:61-99 | only `Waiting` tasks of the pipeline and of the visited types are appended, at most one per type; checking its own type, every type is present or its lookup failed, and no type is duplicated |
| TaskScheduler.ReconcileProject | pkg/scheduler/task.go:50-99 | when the query finds no pipeline (or fails) nothing changes; new tasks wait in the pipeline the query answers for the project; checking its own type, the project ends covered and no task is duplicated |
| TaskScheduler.ReconcileAll | pkg/scheduler/task.go:46-100 | every new task waits in a pipeline the query answers for a listed project; checking its own type, every listed project ends covered |
| TaskScheduler.Tick | pkg/scheduler/task.go:39-100 | a failed listing changes nothing; only `Waiting` tasks are appended; with the per-project query each is in the newest pipeline of an enabled project, with the query as written in the newest pipeline of the whole table; task references stay valid |
| TaskScheduler.NewTasksAreAnswered | pkg/scheduler/task.go:50 | the new tasks of a tick are in an existing pipeline: the newest of an enabled project under the per-project query, the newest of the table under the query as written |
| TaskScheduler.KindsCompose | pkg/scheduler/task.go:61-100 | the loop over two lists of types is the loop over the first followed by the loop over the second |
| TaskScheduler.OwnTypeIteration | pkg/scheduler/task.go:62-81 | checking its own type, an iteration creates the type exactly when it is missing |
| TaskScheduler.ScrapeTaskHidesNoPublish | pkg/scheduler/task.go:61-81 | appending a missing Scrape task neither adds nor hides a Publish task |
| TaskScheduler.OwnTypeProbeAppendsTheMissingTypes | pkg/scheduler/task.go:61-81 | checking each type itself, the loop appends exactly the missing types, Scrape then Publish |
| TaskScheduler.ScrapeProbeCreatesOnlyScrape | pkg/scheduler/task.go:61-81 | as written (always looking up Scrape), the loop creates nothing but a Scrape task |
| TaskScheduler.ScrapedPipelineGetsNothing | pkg/scheduler/task.go:61-74 | as written, a pipeline that holds a Scrape task gets no new task of any type |
| TaskScheduler.FreshPipelineTasks | pkg/scheduler/task.go:61-81 | on a fresh pipeline, as written only the Scrape task is created; checking each type, both are, in `TaskTypes` order |
| TaskScheduler.ScrapeProbeTickAddsNoPublish | pkg/scheduler/task.go:61-81 | as written, one tick gives no pipeline a Publish task it lacks, so after that tick the pipeline is still not finished |
| TaskScheduler.ScrapeProbeTickCreatesOnlyScrape | pkg/scheduler/task.go:39-100 | as written, a whole tick creates only Scrape tasks |
| TaskScheduler.CoveredProjectsAreLeftAlone | pkg/scheduler/task.go:61-99 | when every listed project's newest pipeline has both types, the loop changes nothing |
| TaskScheduler.OwnTypeTickIsIdempotent | pkg/scheduler/task.go:39-100 | checking each type itself, a second tick with the same faults creates nothing |
| TaskScheduler.TwoIterations | pkg/scheduler/task.go:46-48 | a tick over two listed projects is the first project's iteration followed by the second's |
| TaskScheduler.PerProjectLastServesBothPipelines | pkg/pipeline/project.go:34-37 | with the per-project query and the own-type check, two projects with one fresh pipeline each get a Scrape and a Publish task in each pipeline |
| TaskScheduler.WholeTableLastSkipsTheFirstPipeline | pkg/scheduler/task.go:50 | with the query as written, the same tick reconciles the table's newest pipeline for both projects: the first project's pipeline gets no task |
| TaskScheduler.AsWrittenTaskLoopGivesOneScrapeTask | pkg/scheduler/task.go:46-81 | the loop exactly as written (whole-table query, scrape-only check) gives the two pipelines a single Scrape task, in the second one |
| FeedReader.Copy | pkg/scrapper/feedreader.go:40-46 | a kept item copies title, description, content, link and date unchanged |
| FeedReader.Select | pkg/scrapper/feedreader.go:37-50 | the kept items are exactly the copies of the entries dated strictly after the limit, never more than the entries; an undated entry panics |
| FeedReader.ReadFrom | pkg/scrapper/feedreader.go:28-53 | a fetch or parse failure gives an empty list and an error; otherwise the selected items |
| FeedReader.SelectPreservesOrder | pkg/scrapper/feedreader.go:37-50 | filtering keeps feed order: filtering two halves and concatenating is filtering the whole |
| FeedReader.SingleEntry | pkg/scrapper/feedreader.go:39 | an entry is kept iff its date is strictly after the limit, so an entry at the checkpoint is not new |
| FeedReader.GetTitle | pkg/scrapper/feedreader.go:55-57 | the title, unchanged |
| FeedReader.GetContent | pkg/scrapper/feedreader.go:59-65 | the content, or the description when the content is empty |
| FeedReader.GetLink | pkg/scrapper/feedreader.go:67-69 | the link, unchanged |
| Content.AppendBlocks | pkg/post/content.go:33-41 | the accumulating loop equals the page so far followed by one block per item, in order |
| Content.Build | pkg/post/content.go:20-49 | an empty item list gives "" and an error; any other list gives header, one block per item, footer, and no error |
| Content.BlocksOfConcat | pkg/post/content.go:33-41 | each item contributes its own block, in input order |
| Content.AppendingAnItem | pkg/post/content.go:33-46 | one more item adds exactly its block just before the footer |
| Content.PageIsADocument | pkg/post/content.go:25-46 | a built page starts with `<html>\n` and ends with `</html>\n` |
| Scrapper.UpdateEach | pkg/scrapper/scrapper.go:45-53 | each listed task gets the status unless its write fails; a failed write does not stop the others |
| Scrapper.WaitingPass | pkg/scrapper/scrapper.go:38-56 | a listing error changes nothing; otherwise every waiting Scrape task becomes `Ready` unless its write fails, and nothing else changes |
| Scrapper.CheckpointOf | pkg/scrapper/scrapper.go:75-88 | the newest post's update time with isFirst false, else the project's update time with isFirst true; a lookup error skips |
| Scrapper.ContentItems | pkg/scrapper/scrapper.go:106-109 | one content item per feed item, in order |
| Scrapper.Gather | pkg/scrapper/scrapper.go:66-104 | a fresh harvest has the task's project and at least one item newer than its checkpoint; a failed project lookup skips |
| Scrapper.DigestPost | pkg/scrapper/scrapper.go:126-128 | the post is in the task's pipeline and stamped with the database clock |
| Scrapper.Commit | pkg/scrapper/scrapper.go:126-141 | the post is created iff its insert succeeds, and the task is finished only after the post was created |
| Scrapper.ScrapeTask | pkg/scrapper/scrapper.go:65-144 | at most one post, appended; a post iff the harvest is fresh and the insert succeeds; the task finishes only with a post; an undated entry panics |
| Scrapper.ScrapeEach | pkg/scrapper/scrapper.go:65-144 | only listed tasks change, and only to `Finished`; posts are only appended |
| Scrapper.ReadyPass | pkg/scrapper/scrapper.go:58-147 | a listing error changes nothing; only ready Scrape tasks change, and only to `Finished`; posts are only appended |
| Scrapper.FinishesOnlyWithAPost | pkg/scrapper/scrapper.go:96-141 | a ready task finishes iff there are new items and both writes succeed; an error or zero items leave it ready with no post |
| Scrapper.ThePostIsTheDigest | pkg/scrapper/scrapper.go:113-133 | the one post created is the digest of the new items for the task's pipeline |
| Scrapper.ScrapeAdvancesTheCheckpoint | pkg/scrapper/scrapper.go:81-88 | after a post is created, the project's next checkpoint is that post's time |
| Scrapper.DigestIsThePage | pkg/scrapper/scrapper.go:113-118 | the post's content is the page titled "The newsletter of " + project name, with one block per item |
| Scrapper.DigestListsTheItems | pkg/scrapper/scrapper.go:106-118 | the digest lists the blocks of the items in feed order |
| Scrapper.PassesMoveForward | pkg/scrapper/scrapper.go:38-147 | neither pass lowers any task's status |
| Template.ActiveCount | pkg/template/handler.go:98-117 | the number of active templates of a project; zero iff none is active |
| Template.New | pkg/template/template.go:33-35 | a new template is inactive and empty |
| Template.UpdateRow | pkg/template/handler.go:120-138 | the write sets name, is_active, subject and content of that row only |
| Template.SetActive | pkg/template/template.go:65-82 | the in-memory flag is set even when the write fails; the row is written only on success |
| Template.Activate | pkg/template/template.go:65-72 | the template becomes active, every other field is unchanged, and a successful write makes the row active |
| Template.Deactivate | pkg/template/template.go:75-82 | the template becomes inactive, every other field is unchanged, and a successful write makes the row inactive |
| Template.ActivateIsIdempotent | pkg/template/template.go:65-72 | activating twice gives the same template and table as activating once |
| Template.RenderSubject | pkg/template/template.go:90-92 | the subject goes through the same engine as the body: it is the body of the template whose content is the subject text |
| Template.RenderContent | pkg/template/template.go:85-87 | the body is the engine's answer for the content text alone, a render error (`None`) included |
| Template.RenderSelectsItsField | pkg/template/template.go:84-92 | the subject is rendered from the `Subject` field only, the body from the `Content` field only |
| Template.Get | pkg/template/project.go:23-25 | the row with that id, whatever the controller's project |
| Template.GetActive | pkg/template/project.go:28-39 | the project's first active template; an error, never "no row", when there is none or the query fails |
| Template.Add | pkg/template/project.go:42-51 | the created template is the controller's project's, inactive, with the given name, subject and content; a failed insert creates nothing |
| Template.CreateDefault | pkg/template/project.go:54-99 | adds an inactive "Default" template with the default subject and body; the number of active templates is unchanged |
| TemplateApi.ActivateEmailTemplate | pkg/template/api.go:200-254 | bad ids and a failed target lookup give 400 with nothing written; a failed or empty active lookup gives 500 with nothing written; a failed deactivating write gives 500 with nothing written; a failed activating write gives 500 with the current template left deactivated; 200 only with the target active |
| TemplateApi.ActivateEmailTemplateChecked | pkg/template/api.go:223-228 | an unknown template id is answered 400 before any write; a known id behaves as the handler |
| TemplateApi.ActiveCountAfterWrite | pkg/template/handler.go:120-138 | overwriting one row changes the active count by exactly that row's change |
| TemplateApi.SingleActiveIsTheOneFound | pkg/template/project.go:28-39 | with exactly one active template, it is the only one |
| TemplateApi.FailedActivationLeavesNoActiveTemplate | pkg/template/api.go:230-249 | from exactly one active template, a failing activating write answers 500 after the deactivation went through, leaving the project with no active template |
| TemplateApi.KeepsExactlyOneActive | pkg/template/api.go:230-249 | from exactly one active template, activating a template of the project answers 200 and leaves exactly one active, the target, even if it was already active |
| TemplateApi.UnknownTargetLeavesNoActiveTemplate | pkg/template/api.go:223-249 | as written, an unknown id deactivates the current template and then panics, leaving no active template |
| TemplateApi.UnknownTargetIsRejectedWhenChecked | pkg/template/api.go:223-228 | with the intended check, the same request is 400 and nothing is written |
| Publisher.Write | pkg/task/handler.go:119-147 | one status write; on failure the task is unchanged |
| Publisher.Promote | pkg/publisher/watcher.go:64-83 | a Publish task becomes `Ready` iff its Scrape sibling is finished and the write succeeds; a lookup error keeps it waiting; a missing sibling panics |
| Publisher.PromoteEach | pkg/publisher/watcher.go:57-84 | only listed tasks change, to `Ready`, and only with a finished Scrape sibling |
| Publisher.WaitingPass | pkg/publisher/watcher.go:50-87 | a listing error changes nothing; only waiting Publish tasks with a finished Scrape sibling become `Ready` |
| Publisher.UnsubscribeLink | pkg/publisher/watcher.go:187-192 | the link starts with `https://` and ends with `?token=` and the token |
| Publisher.UnsubscribeLinksAreDistinct | pkg/publisher/watcher.go:187-192 | distinct tokens give distinct links |
| Publisher.TemplateData | pkg/publisher/watcher.go:200-215 | the data has the post's title, the link, and one item per post item in order, with title, link and body copied |
| Publisher.Send | pkg/publisher/watcher.go:177-233 | an e-mail is delivered only if every step succeeds; it is from the publisher to "Reader" at the subscriber's address, with subject and body rendered from the template fields; a missing post panics |
| Publisher.DeliverAll | pkg/publisher/watcher.go:136-149 | a send panics iff some send does; without a panic, the e-mails sent are those of the delivered sends, one each, in subscriber order, so the delivery count is the number of delivered sends and equals the subscribers iff every send succeeded; with a panic nothing was delivered |
| Publisher.Collect | pkg/publisher/watcher.go:139-149 | the loop over the sends' answers: it panics iff one send panics, counts at most one e-mail per send, every subscriber iff every send delivered, and every e-mail counted was delivered |
| Publisher.CollectKeepsOrder | pkg/publisher/watcher.go:139-149 | without a panic, the e-mails counted are exactly those of the delivered sends, in the order of the sends |
| Publisher.CollectConcat | pkg/publisher/watcher.go:139-149 | a send that fails does not stop the loop: collecting two runs of sends is collecting the first then the second |
| Publisher.LaterSendsGoOn | pkg/publisher/watcher.go:139-149 | a failed send does not stop the loop: the e-mails of a list are those of its first part followed by those of the rest |
| Publisher.Settle | pkg/publisher/watcher.go:151-169 | the task is left unchanged, `Finished` or `Failed`; nothing else changes |
| Publisher.Execute | pkg/publisher/watcher.go:96-172 | only this task's status changes, to `Finished` or `Failed`; e-mails are sent only when its post was found |
| Publisher.PublishEach | pkg/publisher/watcher.go:96-172 | only listed tasks change, to `Finished` or `Failed` |
| Publisher.ReadyPass | pkg/publisher/watcher.go:89-175 | a listing error changes nothing; only ready Publish tasks change, to `Finished` or `Failed` |
| Publisher.ExecuteFansOut | pkg/publisher/watcher.go:136-169 | once everything is loaded, the e-mails are those of the fan-out, and the status is settled on whether all were delivered |
| Publisher.LoadFailureSendsNothing | pkg/publisher/watcher.go:116-134 | a project, subscription or template load failure leaves the task ready and sends nothing |
| Publisher.PostLookupErrorFailsTheTask | pkg/publisher/watcher.go:102-114 | a failed post lookup marks the task `Failed` and sends nothing |
| Publisher.FullDeliveryFinishes | pkg/publisher/watcher.go:151-171 | when every send succeeds, including with zero subscribers, the task ends `Finished` |
| Publisher.PartialDeliveryEndsFinished | pkg/publisher/watcher.go:151-169 | as written, a partial delivery ends `Finished`: the `Failed` write is overwritten |
| Publisher.PartialDeliveryEndsFailed | pkg/publisher/watcher.go:151-163 | with the intended rule, a partial delivery ends `Failed` |
| Publisher.IntendedStatusReportsDelivery | pkg/publisher/watcher.go:151-169 | with the intended rule, the task ends `Finished` iff every subscriber got the e-mail, and `Failed` otherwise |
| Publisher.MissingPostAsWritten | pkg/publisher/watcher.go:102-114 | as written, a missing post is not failed: with no subscriber the task ends `Finished`, otherwise the first send panics |
| Publisher.MissingPostFailsTheTask | pkg/publisher/watcher.go:102-114 | with the intended rule, a missing post marks the task `Failed` and nothing is sent |
| Publisher.SiblingErrorKeepsWaiting | pkg/publisher/watcher.go:66-70 | a failed sibling lookup leaves the Publish task waiting |
| Lifecycle.Step | pkg/scheduler/pipeline.go:28-89 | one tick of any of the six loop bodies (the pipeline reconciler here, the task reconciler at `pkg/scheduler/task.go:29`, the scrape passes at `pkg/scrapper/scrapper.go:38` and `:58`, the publish passes at `pkg/publisher/watcher.go:50` and `:89`) leaves templates, projects and subscriptions unchanged, and only the task reconciler adds tasks |
| Lifecycle.ReconcilersKeepConsistent | pkg/scheduler/task.go:61-99 | the reconcilers keep the invariants |
| Lifecycle.ScrapePromotionKeepsConsistent | pkg/scrapper/scrapper.go:38-56 | readying Scrape tasks keeps the invariants |
| Lifecycle.ScrapeExecutionKeepsConsistent | pkg/scrapper/scrapper.go:126-141 | a Scrape task finishes only after its post is created, so finished scrapes have posts |
| Lifecycle.PublishKeepsConsistent | pkg/publisher/watcher.go:64-81 | the publish passes keep the invariants: a Publish task leaves `Waiting` only with a finished Scrape sibling |
| Lifecycle.StepKeepsConsistent | pkg/publisher/watcher.go:64-81 | every tick of every loop keeps the invariants |
| Lifecycle.StepMovesForward | pkg/task/task.go:15-21 | no tick moves a task's status backwards or changes its pipeline or type |
| Lifecycle.InterleavingKeepsConsistent | pkg/scheduler/task.go:29-104 | any interleaving of ticks, each with its own failures, keeps the invariants and moves forward |
| Lifecycle.ScrapeProbeStepAddsNoPublish | pkg/scheduler/task.go:61-81 | while the task reconciler runs the check as written, no tick of any loop gives a pipeline a Publish task it lacks |
| Lifecycle.ScrapeProbeNeverFinishes | pkg/scheduler/task.go:61-81 | as written, over any schedule of the loops a pipeline without a Publish task never gets one and is never finished |
| Lifecycle.ReadyPublishFindsItsPost | pkg/publisher/watcher.go:102-114 | in a consistent database a ready Publish task's post lookup never answers "no row" |

## Left out

- SQL, connections and the process around the loops are not modelled. The
  database is the value `Store.Db`, and each query is a function over it that
  keeps the contract of the SQL it replaces.
- HTTP handlers and routing are left out, except `ActivateEmailTemplate`. Its
  path parameters arrive already parsed (`None` for a value `strconv.Atoi`
  rejects), and the reply is a status code, not a JSON body.
- Subscription token encryption (AES-CFB with scrypt) is a foreign library
  call. The token is an opaque function of the subscription id, and its
  failure is the `EncryptToken` fault.
- The mail transport (SendGrid) is left out. Its failure is the `SendEmail`
  fault.
- Template execution (`html/template`) is a foreign library call. It is a
  parameter `render` that may fail.
- Feed fetching and parsing (gofeed) are foreign library calls. The parsed
  entries are an input map from URL to entries, and times are integers.
- Goroutines, sleeps, stop channels and 60-second context timeouts are not
  modelled. The stop signal is the end of a tick schedule
  (`PipelineScheduler.Run`); the timeouts are part of the fetch and send
  failures.
- Configuration (viper) and logging are left out. The domain and sender
  address are fields of `Publisher.Env`.
- URL escaping of the host in the unsubscribe link is left out. The domain is
  assumed to need no escaping.
- Faults.Faults names a failing call by its arguments, so a call repeated
  within one tick gets the same answer both times. Transient failures that
  differ between two identical calls in one tick are not modelled.
- Store.CreatePost, Store.CreateTask: the insert logs with `log.Fatal`, which
  ends the process, where the model treats it as an ordinary failed insert.
  The database is the same either way; the model lets the rest of the pass
  go on.
- Store.ProjectOfTask: a task whose pipeline or project row is missing is
  answered as a lookup error. The query answers no row, and the caller
  dereferences nil. `Store.TasksReferencePipelines` rules this case out,
  and the reconcilers preserve it.
- Scrapper.DigestPost: the post record carries only its pipeline id and
  content, so the title is empty and the item list is empty. The `post_items`
  table is written by no modelled loop.
- Scrapper.ScrapeTask: the content builder's error branch
  (`pkg/scrapper/scrapper.go:118-122`) is unreachable, because the items are
  non-empty there. It is not modelled as a separate case.
- Publisher.UnsubscribeLink: the contract states the `https://` prefix and
  the `?token=<token>` suffix, not the host and path between them.
- Template.GetActive: when two templates of a project are active, the model
  returns the first in id order, whereas the SQL returns whichever row the
  database yields.
- Store.AllEnabled, Store.Filter, Store.Subscriptions: return their ids in id
  order. The queries have no `ORDER BY`, so the database may list the rows in
  any order; the model fixes one. The lemmas about two projects listed in
  order (`PipelineScheduler.BothProjectsListed` and those built on it) hold
  for that order.
- Store.LastPost: "newest" is the highest row index, where the SQL orders by
  creation time. Rows are appended in creation order, so the two agree.
- Deleting rows, and every other operation of the HTTP layer, is left out.
  The `Running` and `Aborted` statuses are declared but written by no loop.

## Findings

| source | as written | input that shows it | evidently intended | confidence | as-written member | corrected member |
|---|---|---|---|---|---|---|
| pkg/scheduler/task.go:62 | the existence check looks up `Scrape` for every type in `TaskTypes` | a fresh pipeline: the Scrape iteration creates the Scrape task, the Publish iteration then finds it and creates nothing; by `Lifecycle.ScrapeProbeNeverFinishes` that pipeline then never finishes | look up `taskType`, the loop variable | high, not executed | TaskScheduler.FreshPipelineTasks | TaskScheduler.OwnTypeProbeAppendsTheMissingTypes |
| pkg/publisher/watcher.go:151-169 | on partial delivery the task is set `Failed` and, with no `continue` after it, then `Finished` | two subscribers, one send fails, both status writes succeed: the task ends `Finished` | end `Failed` on partial delivery | high, not executed | Publisher.PartialDeliveryEndsFinished | Publisher.PartialDeliveryEndsFailed |
| pkg/pipeline/handler.go:70 | the "last pipeline of the project" query has no `WHERE project_id` | two enabled projects, empty pipeline table: after a tick only the project listed first has a pipeline, and the other gets none in any later tick in which no store call fails | filter by the project id the function receives | high, not executed | PipelineScheduler.WholeTableLastStarvesTheSecondProject | PipelineScheduler.TickGivesOnePipelineToEachNeedyProject |
| pkg/scheduler/task.go:50 | the task reconciler finds each project's pipeline with the same whole-table query | two enabled projects with one fresh pipeline each: a tick gives both tasks to the second project's pipeline and none to the first's | reconcile each project's own newest pipeline | high, not executed | TaskScheduler.WholeTableLastSkipsTheFirstPipeline | TaskScheduler.PerProjectLastServesBothPipelines |
| pkg/template/api.go:223-249 | `Get` answers no row as nil without an error; the handler deactivates the current template, then calls `Activate` on nil | one active template (id 0, project 7), request to activate id 5: template 0 is deactivated and the handler panics, leaving project 7 with no active template | answer 400 for an unknown id before writing | high, not executed | TemplateApi.UnknownTargetLeavesNoActiveTemplate | TemplateApi.ActivateEmailTemplateChecked |
| pkg/publisher/watcher.go:102-114 | the post query answers no row as nil without an error, so the `Failed` branch is not taken for a pipeline without a post | a ready Publish task whose pipeline has no post and whose project has no subscriber: the task ends `Finished`, having sent nothing | mark the task `Failed` when the pipeline has no post | medium, not executed: by `Lifecycle.ReadyPublishFindsItsPost` this state is reached only if a post is removed outside the loops | Publisher.MissingPostAsWritten | Publisher.MissingPostFailsTheTask |
