/**
 The scrape worker: a promotion pass moving waiting scrape tasks to `Ready`,
 and an execution pass turning each ready scrape task into a post holding the
 HTML digest of the feed items published since the project's checkpoint.
 */
module Scrapper {
  import opened Rows
  import opened Tasks
  import opened Faults
  import opened Store
  import opened FeedReader
  import Content

  /** What the worker reads outside the database: the parsed feed behind each
      URL (a URL missing from the map is a fetch or parse failure) and the
      database clock that stamps a new post. */
  datatype Env = Env(feeds: map<string, seq<Entry>>, now: int)

  // ------------------------------------------------------- promotion pass

  /** Writes `status` to each listed task in turn; a failed write skips that
      task only. */
  function UpdateEach(db: Db, faults: Faults, ids: seq<nat>, status: TaskStatus): (r: Db)
    ensures OnlyStatusesChanged(db, r)
    ensures forall i :: 0 <= i < |db.tasks| ==>
              r.tasks[i] == if i in ids && UpdateTask(i, status) !in faults
                            then db.tasks[i].(status := status) else db.tasks[i]
    decreases |ids|
  {
    if |ids| == 0 then db
    else
      var d := match UpdateStatus(db, faults, ids[0], status) case Some(d) => d case None => db;
      var r := UpdateEach(d, faults, ids[1..], status);
      assert forall x :: x in ids <==> x == ids[0] || x in ids[1..];
      r
  }

  /** `processWaitingTasks`: every waiting scrape task becomes ready, except
      those whose write fails; `None` when the task listing fails. */
  function WaitingPass(db: Db, faults: Faults): (r: Option<Db>)
    ensures r.None? <==> FilterTasks(Scrape, Waiting) in faults
    ensures r.Some? ==> OnlyStatusesChanged(db, r.value)
    ensures r.Some? ==> forall i :: 0 <= i < |db.tasks| ==>
              r.value.tasks[i] == if db.tasks[i].kind == Scrape && db.tasks[i].status == Waiting
                                     && UpdateTask(i, Ready) !in faults
                                  then db.tasks[i].(status := Ready) else db.tasks[i]
  {
    match Filter(db, faults, Scrape, Waiting)
    case None => None
    case Some(ids) => Some(UpdateEach(db, faults, ids, Ready))
  }

  // ------------------------------------------------------- execution pass

  /** The same tasks, each in the same pipeline with the same type; only
      statuses may differ. */
  ghost predicate SameTasks(db1: Db, db2: Db)
  {
    && |db2.tasks| == |db1.tasks|
    && forall i :: 0 <= i < |db1.tasks| ==>
         db2.tasks[i].pipelineId == db1.tasks[i].pipelineId && db2.tasks[i].kind == db1.tasks[i].kind
  }

  /** Every task of `db2` is the one of `db1`, or, for an id in `ids`, that
      task finished. */
  ghost predicate FinishedOnly(db1: Db, db2: Db, ids: seq<nat>)
  {
    && |db2.tasks| == |db1.tasks|
    && forall i :: 0 <= i < |db1.tasks| ==>
         db2.tasks[i] == db1.tasks[i] || (i in ids && db2.tasks[i] == db1.tasks[i].(status := Finished))
  }

  lemma FinishedOnlyChains(db: Db, d: Db, o: Db, ids: seq<nat>)
    requires |ids| > 0
    requires FinishedOnly(db, d, [ids[0]]) && FinishedOnly(d, o, ids[1..])
    requires SameTasks(db, d) && SameTasks(d, o)
    ensures FinishedOnly(db, o, ids) && SameTasks(db, o)
  {
    assert forall x :: x in ids[1..] ==> x in ids;
  }

  /** Where the scrape resumes. */
  datatype Checkpoint = Checkpoint(dateLimit: int, isFirst: bool)

  /** The checkpoint: the update time of the project's newest post, or the
      project's own update time when it has no post yet; `None` when the post
      lookup fails. */
  function CheckpointOf(project: Project, last: Lookup<Post>): (c: Option<Checkpoint>)
    ensures c.None? <==> last.LookupError?
    ensures c.Some? ==> (c.value.isFirst <==> last.Absent?)
    ensures c.Some? ==> c.value.dateLimit == if last.Found? then last.value.updatedAt else project.updatedAt
  {
    match last
    case LookupError => None
    case Absent => Some(Checkpoint(project.updatedAt, true))
    case Found(post) => Some(Checkpoint(post.updatedAt, false))
  }

  function FeedOf(env: Env, url: string): Option<seq<Entry>>
  {
    if url in env.feeds then Some(env.feeds[url]) else None
  }

  const TitlePrefix: string := "The newsletter of "

  /** A feed item seen through the builder's interface. */
  function ToContentItem(fi: FeedItem): Content.ContentItem
  {
    Content.ContentItem(GetTitle(fi), GetContent(fi), GetLink(fi))
  }

  function ContentItems(items: seq<FeedItem>): (r: seq<Content.ContentItem>)
    ensures |r| == |items|
    ensures forall k :: 0 <= k < |r| ==> r[k] == ToContentItem(items[k])
  {
    seq(|items|, k requires 0 <= k < |items| => ToContentItem(items[k]))
  }

  /** What the read phase of one task found. */
  datatype Harvest =
    | Skip                                      // a lookup or the feed failed, or nothing is new
    | Panic                                     // an entry without a date
    | Fresh(project: Project, items: seq<FeedItem>)

  /** The read phase of one ready task: its project, the checkpoint, the feed
      items newer than the checkpoint. */
  function Gather(db: Db, faults: Faults, env: Env, taskId: nat): (h: Harvest)
    ensures h.Fresh? ==> |h.items| > 0
    ensures h.Fresh? ==>
              exists pid :: ProjectOfTask(db, faults, taskId) == Found(pid) && pid < |db.projects|
                            && h.project == db.projects[pid]
                            && var c := CheckpointOf(h.project, LastPost(db, faults, pid));
                               c.Some? && ReadFrom(FeedOf(env, h.project.feedUrl), c.value.dateLimit)
                                          == Read(h.items, false)
    ensures !ProjectOfTask(db, faults, taskId).Found? ==> h.Skip?
  {
    match ProjectOfTask(db, faults, taskId)
    case Found(pid) =>
      var project := db.projects[pid];
      (match CheckpointOf(project, LastPost(db, faults, pid))
       case None => Skip
       case Some(cp) =>
         match ReadFrom(FeedOf(env, project.feedUrl), cp.dateLimit)
         case ReadPanicked => Panic
         case Read(items, failed) =>
           if failed || |items| == 0 then Skip else Fresh(project, items))
    case _ => Skip
  }

  /** The post a fresh harvest produces: the digest of the items under the
      title "The newsletter of <project name>". Only the pipeline id and the
      content are written; the database stamps the update time. */
  function DigestPost(pipelineId: nat, project: Project, items: seq<FeedItem>, now: int): (p: Post)
    requires |items| > 0
    ensures p.pipelineId == pipelineId && p.updatedAt == now
  {
    var html := Content.Build(TitlePrefix + project.name, ContentItems(items));
    Post(pipelineId, "", html.body, [], now)
  }

  /** The writes of one scrape: create the post, then mark the task finished.
      A failed write stops there. */
  function Commit(db: Db, faults: Faults, taskId: nat, post: Post): (r: Db)
    requires taskId < |db.tasks|
    ensures r.(posts := db.posts, tasks := db.tasks) == db
    ensures |r.tasks| == |db.tasks| && SameTasks(db, r)
    ensures forall i :: 0 <= i < |db.tasks| && i != taskId ==> r.tasks[i] == db.tasks[i]
    ensures r.tasks[taskId] == db.tasks[taskId] || r.tasks[taskId] == db.tasks[taskId].(status := Finished)
    ensures r.posts == db.posts || r.posts == db.posts + [post]
    ensures r.posts == db.posts + [post] <==> InsertPost(post.pipelineId) !in faults
    ensures r.tasks[taskId] != db.tasks[taskId] ==> r.posts == db.posts + [post] && UpdateTask(taskId, Finished) !in faults
  {
    match CreatePost(db, faults, post)
    case None => db
    case Some(d1) =>
      match UpdateStatus(d1, faults, taskId, Finished)
      case None => d1
      case Some(d2) => d2
  }

  /** One iteration of the execution pass: create the post, then mark the task
      finished. A failure at any step leaves the task ready. */
  function ScrapeTask(db: Db, faults: Faults, env: Env, taskId: nat): (o: Outcome)
    requires taskId < |db.tasks|
    ensures o.db.(posts := db.posts, tasks := db.tasks) == db
    ensures |o.db.tasks| == |db.tasks| && SameTasks(db, o.db)
    ensures forall i :: 0 <= i < |db.tasks| && i != taskId ==> o.db.tasks[i] == db.tasks[i]
    ensures o.db.tasks[taskId] == db.tasks[taskId] || o.db.tasks[taskId] == db.tasks[taskId].(status := Finished)
    ensures o.Crashed? <==> Gather(db, faults, env, taskId).Panic?
    ensures o.Crashed? ==> o.db == db
    ensures |db.posts| <= |o.db.posts| <= |db.posts| + 1 && o.db.posts[..|db.posts|] == db.posts
    ensures |o.db.posts| > |db.posts| <==>
              Gather(db, faults, env, taskId).Fresh? && InsertPost(db.tasks[taskId].pipelineId) !in faults
    ensures o.db.tasks[taskId] != db.tasks[taskId] ==>
              |o.db.posts| > |db.posts| && UpdateTask(taskId, Finished) !in faults
  {
    match Gather(db, faults, env, taskId)
    case Skip => Completed(db)
    case Panic => Crashed(db)
    case Fresh(project, items) =>
      var post := DigestPost(db.tasks[taskId].pipelineId, project, items, env.now);
      var r := Commit(db, faults, taskId, post);
      assert r.posts[..|db.posts|] == db.posts;
      Completed(r)
  }

  /** The execution pass over the listed tasks, in id order; a panic ends the process. */
  function ScrapeEach(db: Db, faults: Faults, env: Env, ids: seq<nat>): (o: Outcome)
    requires forall k :: 0 <= k < |ids| ==> ids[k] < |db.tasks|
    ensures o.db.(posts := db.posts, tasks := db.tasks) == db
    ensures SameTasks(db, o.db) && FinishedOnly(db, o.db, ids)
    ensures |db.posts| <= |o.db.posts| && o.db.posts[..|db.posts|] == db.posts
    decreases |ids|
  {
    if |ids| == 0 then Completed(db)
    else
      match ScrapeTask(db, faults, env, ids[0])
      case Crashed(d) => Crashed(d)
      case Completed(d) =>
        var o := ScrapeEach(d, faults, env, ids[1..]);
        assert o.db.(posts := db.posts, tasks := db.tasks) == db;
        assert FinishedOnly(db, d, [ids[0]]);
        FinishedOnlyChains(db, d, o.db, ids);
        PrefixChains(db.posts, d.posts, o.db.posts);
        o
  }

  /** `processReadyTasks`: `None` when the task listing fails. */
  function ReadyPass(db: Db, faults: Faults, env: Env): (r: Option<Outcome>)
    ensures r.None? <==> FilterTasks(Scrape, Ready) in faults
    ensures r.Some? ==> r.value.db.(posts := db.posts, tasks := db.tasks) == db
    ensures r.Some? ==> |db.posts| <= |r.value.db.posts| && r.value.db.posts[..|db.posts|] == db.posts
    ensures r.Some? ==> SameTasks(db, r.value.db)
    ensures r.Some? ==> forall i :: 0 <= i < |db.tasks| ==>
              r.value.db.tasks[i] == db.tasks[i]
              || (db.tasks[i].kind == Scrape && db.tasks[i].status == Ready
                  && r.value.db.tasks[i] == db.tasks[i].(status := Finished))
  {
    match Filter(db, faults, Scrape, Ready)
    case None => None
    case Some(ids) =>
      assert forall k :: 0 <= k < |ids| ==> ids[k] in ids;
      Some(ScrapeEach(db, faults, env, ids))
  }

  // ------------------------------------------------------------ properties

  /** A ready task finishes exactly when its harvest is fresh and both writes
      succeed; zero new items, a failed lookup or a failed feed leave it ready
      and create no post. */
  lemma FinishesOnlyWithAPost(db: Db, faults: Faults, env: Env, taskId: nat)
    requires taskId < |db.tasks| && db.tasks[taskId].status == Ready
    ensures var o := ScrapeTask(db, faults, env, taskId);
            o.db.tasks[taskId].status == Finished <==>
              Gather(db, faults, env, taskId).Fresh?
              && InsertPost(db.tasks[taskId].pipelineId) !in faults && UpdateTask(taskId, Finished) !in faults
    ensures Gather(db, faults, env, taskId).Skip? ==> ScrapeTask(db, faults, env, taskId) == Completed(db)
  {
  }

  /** The one post a scrape creates is the digest of the fresh items, in the task's pipeline. */
  lemma ThePostIsTheDigest(db: Db, faults: Faults, env: Env, taskId: nat)
    requires taskId < |db.tasks|
    ensures var o := ScrapeTask(db, faults, env, taskId);
            |o.db.posts| > |db.posts| ==>
              var h := Gather(db, faults, env, taskId);
              o.db.posts == db.posts + [DigestPost(db.tasks[taskId].pipelineId, h.project, h.items, env.now)]
  {
  }

  /** The next scrape of the project resumes at the new post's time: after a
      post is created, the project's newest post is that post. */
  lemma ScrapeAdvancesTheCheckpoint(db: Db, faults: Faults, env: Env, taskId: nat, pid: nat, later: Faults)
    requires taskId < |db.tasks|
    requires ProjectOfTask(db, faults, taskId) == Found(pid)
    requires LastPostOfProject(pid) !in later
    ensures var o := ScrapeTask(db, faults, env, taskId);
            |o.db.posts| > |db.posts| ==>
              CheckpointOf(o.db.projects[pid], LastPost(o.db, later, pid)) == Some(Checkpoint(env.now, false))
  {
    var o := ScrapeTask(db, faults, env, taskId);
    ThePostIsTheDigest(db, faults, env, taskId);
    if |o.db.posts| > |db.posts| {
      var n := |db.posts|;
      var p := o.db.posts[n];
      assert p.pipelineId == db.tasks[taskId].pipelineId && p.updatedAt == env.now;
      assert o.db.pipelines == db.pipelines;
      assert PostOfProject(o.db, pid)(p);
      assert LastWhere(o.db.posts, PostOfProject(o.db, pid)) == Some(n);
    }
  }

  /** The post's content is the page of the items under the title "The
      newsletter of <project name>": header, one block per item, footer. */
  lemma DigestIsThePage(pipelineId: nat, project: Project, items: seq<FeedItem>, now: int)
    requires |items| > 0
    ensures DigestPost(pipelineId, project, items, now).content
            == Content.Header(TitlePrefix + project.name) + Content.Blocks(ContentItems(items)) + Content.Footer
  {
  }

  /** The digest holds one block per new item, in feed order, and each item's
      body falls back to its description. */
  lemma DigestListsTheItems(pipelineId: nat, project: Project, a: seq<FeedItem>, b: seq<FeedItem>, now: int)
    requires |a| > 0 && |b| > 0
    ensures DigestPost(pipelineId, project, a + b, now).content
            == Content.Header(TitlePrefix + project.name)
               + (Content.Blocks(ContentItems(a)) + Content.Blocks(ContentItems(b)))
               + Content.Footer
  {
    var ca := ContentItems(a);
    var cb := ContentItems(b);
    assert ContentItems(a + b) == ca + cb;
    Content.BlocksOfConcat(ca, cb);
    var h := Content.Header(TitlePrefix + project.name);
    DigestIsThePage(pipelineId, project, a + b, now);
    assert DigestPost(pipelineId, project, a + b, now).content == h + Content.Blocks(ca + cb) + Content.Footer;
  }

  /** Statuses only move forward: no pass of the worker lowers a task's rank. */
  lemma PassesMoveForward(db: Db, faults: Faults, env: Env)
    ensures var r := WaitingPass(db, faults);
            r.Some? ==> forall i :: 0 <= i < |db.tasks| ==> Rank(db.tasks[i].status) <= Rank(r.value.tasks[i].status)
    ensures var r := ReadyPass(db, faults, env);
            r.Some? ==> forall i :: 0 <= i < |db.tasks| ==> Rank(db.tasks[i].status) <= Rank(r.value.db.tasks[i].status)
  {
  }
}
