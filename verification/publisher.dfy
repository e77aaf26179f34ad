/**
 The publish worker: a promotion pass that moves a Publish task from
 `Waiting` to `Ready` once its pipeline's Scrape task is finished, and an
 execution pass that e-mails the pipeline's post to every subscriber of the
 project and records the outcome in the task's status.

 Token encryption, template execution and the mail transport are outside the
 model: the token is a function of the subscription, rendering is a
 parameter, and every call that can fail is named in the fault set.
 */
module Publisher {
  import opened Rows
  import opened Tasks
  import opened Faults
  import opened Store
  import Template

  /** What the worker reads outside the database: the configured domain and
      sender, the unsubscribe token of each subscription, the template engine. */
  datatype Env = Env(
    domain: string,
    publisherName: string,
    publisherEmail: string,
    token: nat -> string,
    render: (string, Template.Data) -> Option<string>)

  datatype Address = Address(name: string, email: string)

  datatype Email = Email(from: Address, to: Address, subject: string, content: string)

  /** Which way the execution pass settles a task. `AsWritten` is the code's
      behaviour; `Intended` marks a task without a post, and a task with a
      failed send, `Failed`. */
  datatype Rule = AsWritten | Intended

  /** Writes one status; a failed write leaves the database as it was. */
  function Write(db: Db, faults: Faults, taskId: nat, status: TaskStatus): (r: Db)
    ensures OnlyStatusesChanged(db, r)
    ensures forall i :: 0 <= i < |db.tasks| && i != taskId ==> r.tasks[i] == db.tasks[i]
    ensures taskId < |db.tasks| ==>
              r.tasks[taskId] == if UpdateTask(taskId, status) in faults then db.tasks[taskId]
                                 else db.tasks[taskId].(status := status)
  {
    match UpdateStatus(db, faults, taskId, status)
    case None => db
    case Some(d) => d
  }

  // --------------------------------------------------------- promotion pass

  /** The pipeline's Scrape task, as the sibling lookup finds it, is finished. */
  predicate ScrapeFinished(db: Db, faults: Faults, pipelineId: nat)
  {
    var s := GetByType(db, faults, pipelineId, Scrape);
    s.Found? && db.tasks[s.value].status == Finished
  }

  /** One iteration of the promotion pass. A missing sibling is dereferenced
      and panics the process. */
  function Promote(db: Db, faults: Faults, taskId: nat): (o: Outcome)
    requires taskId < |db.tasks|
    ensures OnlyStatusesChanged(db, o.db)
    ensures forall i :: 0 <= i < |db.tasks| && i != taskId ==> o.db.tasks[i] == db.tasks[i]
    ensures o.Crashed? <==> GetByType(db, faults, db.tasks[taskId].pipelineId, Scrape).Absent?
    ensures o.Crashed? ==> o.db == db
    ensures o.db.tasks[taskId] == db.tasks[taskId] || o.db.tasks[taskId] == db.tasks[taskId].(status := Ready)
    ensures o.db.tasks[taskId] != db.tasks[taskId] ==>
              Task(db.tasks[taskId].pipelineId, Scrape, Finished) in db.tasks
    ensures db.tasks[taskId].status != Ready ==>
              (o.db.tasks[taskId].status == Ready <==>
                 ScrapeFinished(db, faults, db.tasks[taskId].pipelineId) && UpdateTask(taskId, Ready) !in faults)
  {
    var pl := db.tasks[taskId].pipelineId;
    match GetByType(db, faults, pl, Scrape)
    case LookupError => Completed(db)
    case Absent => Crashed(db)
    case Found(s) =>
      if db.tasks[s].status != Finished then Completed(db)
      else
        assert db.tasks[s] == Task(pl, Scrape, Finished) && db.tasks[s] in db.tasks;
        Completed(Write(db, faults, taskId, Ready))
  }

  /** The promotion pass over the listed Publish tasks; a panic ends the process. */
  function PromoteEach(db: Db, faults: Faults, ids: seq<nat>): (o: Outcome)
    requires forall k :: 0 <= k < |ids| ==> ids[k] < |db.tasks| && db.tasks[ids[k]].kind == Publish
    ensures OnlyStatusesChanged(db, o.db)
    ensures forall i :: 0 <= i < |db.tasks| ==>
              o.db.tasks[i] == db.tasks[i]
              || (i in ids && o.db.tasks[i] == db.tasks[i].(status := Ready)
                  && Task(db.tasks[i].pipelineId, Scrape, Finished) in db.tasks)
    decreases |ids|
  {
    if |ids| == 0 then Completed(db)
    else
      match Promote(db, faults, ids[0])
      case Crashed(d) => Crashed(d)
      case Completed(d) =>
        assert forall k :: 0 <= k < |ids[1..]| ==> ids[1..][k] == ids[k + 1];
        var o := PromoteEach(d, faults, ids[1..]);
        PromotionsCompose(db, d, o.db, faults, ids);
        o
  }

  /** Only the listed tasks were promoted from `db` to `o`, each to `Ready`
      and only when its pipeline's Scrape task had finished. */
  ghost predicate PromotedAmong(db: Db, o: Db, ids: seq<nat>)
  {
    && OnlyStatusesChanged(db, o)
    && forall i :: 0 <= i < |db.tasks| ==>
         o.tasks[i] == db.tasks[i]
         || (i in ids && o.tasks[i] == db.tasks[i].(status := Ready)
             && Task(db.tasks[i].pipelineId, Scrape, Finished) in db.tasks)
  }

  /** A promotion of the first listed task followed by promotions among the
      rest is a promotion among all of them. */
  lemma PromotionsCompose(db: Db, d: Db, o: Db, faults: Faults, ids: seq<nat>)
    requires |ids| > 0 && forall k :: 0 <= k < |ids| ==> ids[k] < |db.tasks| && db.tasks[ids[k]].kind == Publish
    requires Promote(db, faults, ids[0]) == Completed(d)
    requires PromotedAmong(d, o, ids[1..])
    ensures PromotedAmong(db, o, ids)
  {
    var first := ids[0];
    forall i | 0 <= i < |db.tasks|
      ensures o.tasks[i] == db.tasks[i]
              || (i in ids && o.tasks[i] == db.tasks[i].(status := Ready)
                  && Task(db.tasks[i].pipelineId, Scrape, Finished) in db.tasks)
    {
      if o.tasks[i] != d.tasks[i] {
        assert i in ids[1..] && Task(d.tasks[i].pipelineId, Scrape, Finished) in d.tasks;
        var s :| 0 <= s < |d.tasks| && d.tasks[s] == Task(d.tasks[i].pipelineId, Scrape, Finished);
        assert s != first && db.tasks[s] == d.tasks[s];
        assert i in ids;
      }
    }
  }

  /** `processWaitingTasks`: `None` when the task listing fails. Only waiting
      Publish tasks whose Scrape sibling has finished become ready; nothing
      else changes. */
  function WaitingPass(db: Db, faults: Faults): (r: Option<Outcome>)
    ensures r.None? <==> FilterTasks(Publish, Waiting) in faults
    ensures r.Some? ==> OnlyStatusesChanged(db, r.value.db)
    ensures r.Some? ==> forall i :: 0 <= i < |db.tasks| ==>
              r.value.db.tasks[i] == db.tasks[i]
              || (db.tasks[i].kind == Publish && db.tasks[i].status == Waiting
                  && r.value.db.tasks[i].status == Ready
                  && Task(db.tasks[i].pipelineId, Scrape, Finished) in db.tasks)
  {
    match Filter(db, faults, Publish, Waiting)
    case None => None
    case Some(ids) =>
      assert forall k :: 0 <= k < |ids| ==> ids[k] in ids;
      Some(PromoteEach(db, faults, ids))
  }

  // --------------------------------------------------------- one e-mail

  /** The unsubscribe link as the URL of scheme `https`, host `domain`, path
      `unsubscribe` and query `token=<token>` prints: with an empty host the
      path is not preceded by a slash. */
  function UnsubscribeLink(domain: string, token: string): (r: string)
    ensures |r| > 8 + |token| && r[..8] == "https://"
    ensures r[|r| - |token| - 7..] == "?token=" + token
  {
    if domain == "" then "https://unsubscribe?token=" + token
    else "https://" + domain + "/unsubscribe?token=" + token
  }

  function DataItemOf(pi: PostItem): Template.DataItem
  {
    Template.DataItem(pi.title, pi.link, pi.content)
  }

  /** The value a template is rendered with: the post's title, the link, and
      one item per post item in order with title, link and body copied. */
  function TemplateData(post: Post, link: string): (d: Template.Data)
    ensures d.title == post.title && d.unsubscribeLink == link
    ensures |d.items| == |post.items|
    ensures forall k :: 0 <= k < |post.items| ==>
              d.items[k].title == post.items[k].title && d.items[k].link == post.items[k].link
              && d.items[k].content == post.items[k].content
  {
    Template.Data(post.title, link, seq(|post.items|, k requires 0 <= k < |post.items| => DataItemOf(post.items[k])))
  }

  /** What one execution of a Publish task sends: the task, the post it loaded
      (`None` when the lookup found no row) and the active template. */
  datatype Job = Job(taskId: nat, post: Option<Post>, template: Template.EmailTemplate)

  /** The answer of `sendEmail` for one subscriber: sent, an error, or the
      panic of dereferencing a missing post. */
  datatype Delivery = Delivered(email: Email) | Undelivered | DeliveryPanicked

  /** `sendEmail`: encrypt the token, load the post's items, render subject
      and body, hand the e-mail to the transport. */
  function Send(env: Env, db: Db, faults: Faults, job: Job, subId: nat): (d: Delivery)
    requires subId < |db.subscriptions|
    ensures d.DeliveryPanicked? <==> EncryptToken(subId) !in faults && job.post.None?
    ensures d.Delivered? ==> job.post.Some? && EncryptToken(subId) !in faults
                             && PostItemsOfPost(job.post.value.pipelineId) !in faults
                             && SendEmail(job.taskId, subId) !in faults
    ensures d.Delivered? ==> d.email.from == Address(env.publisherName, env.publisherEmail)
                             && d.email.to == Address("Reader", db.subscriptions[subId].email)
    ensures d.Delivered? ==>
              var data := TemplateData(job.post.value, UnsubscribeLink(env.domain, env.token(subId)));
              Template.RenderSubject(job.template, data, env.render) == Some(d.email.subject)
              && Template.RenderContent(job.template, data, env.render) == Some(d.email.content)
  {
    if EncryptToken(subId) in faults then Undelivered
    else match job.post
      case None => DeliveryPanicked
      case Some(post) =>
        if PostItemsOfPost(post.pipelineId) in faults then Undelivered
        else
          var data := TemplateData(post, UnsubscribeLink(env.domain, env.token(subId)));
          match (Template.RenderSubject(job.template, data, env.render), Template.RenderContent(job.template, data, env.render))
          case (Some(subject), Some(content)) =>
            if SendEmail(job.taskId, subId) in faults then Undelivered
            else Delivered(Email(Address(env.publisherName, env.publisherEmail),
                                 Address("Reader", db.subscriptions[subId].email), subject, content))
          case _ => Undelivered
  }

  // --------------------------------------------------------- the fan-out

  /** The e-mails handed to the transport, in subscriber order, and whether a
      send panicked (which ends the process after the e-mails before it). */
  datatype Deliveries = Deliveries(sent: seq<Email>, panicked: bool)

  predicate ValidSubscriptions(db: Db, subs: seq<nat>)
  {
    forall k :: 0 <= k < |subs| ==> subs[k] < |db.subscriptions|
  }

  /** What each send of the loop does, in subscriber order. */
  function Outcomes(env: Env, db: Db, faults: Faults, job: Job, subs: seq<nat>): (ds: seq<Delivery>)
    requires ValidSubscriptions(db, subs)
    ensures |ds| == |subs| && forall k :: 0 <= k < |subs| ==> ds[k] == Send(env, db, faults, job, subs[k])
  {
    seq(|subs|, k requires 0 <= k < |subs| => Send(env, db, faults, job, subs[k]))
  }

  /** The delivery loop over the answers of the sends: a delivered e-mail is
      counted, a failed send is logged and the loop goes on, a panic ends it. */
  function Collect(ds: seq<Delivery>): (r: Deliveries)
    ensures |r.sent| <= |ds|
    ensures r.panicked <==> exists k :: 0 <= k < |ds| && ds[k].DeliveryPanicked?
    ensures !r.panicked ==> (|r.sent| == |ds| <==> forall k :: 0 <= k < |ds| ==> ds[k].Delivered?)
    ensures forall e :: e in r.sent ==> Delivered(e) in ds
  {
    if |ds| == 0 then Deliveries([], false)
    else
      assert forall k :: 0 <= k < |ds| - 1 ==> ds[1..][k] == ds[k + 1];
      match ds[0]
      case DeliveryPanicked => Deliveries([], true)
      case Undelivered => Collect(ds[1..])
      case Delivered(e) =>
        var rest := Collect(ds[1..]);
        Deliveries([e] + rest.sent, rest.panicked)
  }

  /** `sent` is the e-mails of the delivered sends of `ds`, one per delivered
      send, in order: `pos` lists, in increasing order, the positions of
      exactly the delivered sends, and `sent[j]` is the e-mail of the one at
      `pos[j]`. */
  ghost predicate SentInOrder(ds: seq<Delivery>, sent: seq<Email>, pos: seq<nat>)
  {
    && |pos| == |sent|
    && Increasing(pos)
    && (forall j :: 0 <= j < |pos| ==> pos[j] < |ds| && ds[pos[j]] == Delivered(sent[j]))
    && (forall k :: 0 <= k < |ds| && ds[k].Delivered? ==> k in pos)
  }

  /** Each position one further on. */
  function Shifted(pos: seq<nat>): (r: seq<nat>)
    ensures |r| == |pos| && forall j :: 0 <= j < |pos| ==> r[j] == pos[j] + 1
  {
    seq(|pos|, j requires 0 <= j < |pos| => pos[j] + 1)
  }

  /** One more send in front keeps the e-mails in order. */
  lemma SentInOrderExtends(ds: seq<Delivery>, sent: seq<Email>, pt: seq<nat>)
    requires |ds| > 0 && SentInOrder(ds[1..], sent, pt)
    ensures ds[0].Delivered? ==> SentInOrder(ds, [ds[0].email] + sent, [0] + Shifted(pt))
    ensures !ds[0].Delivered? ==> SentInOrder(ds, sent, Shifted(pt))
  {
    if ds[0].Delivered? {
      DeliveredInFront(ds, sent, pt);
    } else {
      UndeliveredInFront(ds, sent, pt);
    }
  }

  lemma DeliveredInFront(ds: seq<Delivery>, sent: seq<Email>, pt: seq<nat>)
    requires |ds| > 0 && SentInOrder(ds[1..], sent, pt) && ds[0].Delivered?
    ensures SentInOrder(ds, [ds[0].email] + sent, [0] + Shifted(pt))
  {
    ZeroInFrontIncreases(pt);
    DeliveredPositions(ds, sent, pt);
    DeliveredAreListed(ds, pt, true);
  }

  lemma UndeliveredInFront(ds: seq<Delivery>, sent: seq<Email>, pt: seq<nat>)
    requires |ds| > 0 && SentInOrder(ds[1..], sent, pt) && !ds[0].Delivered?
    ensures SentInOrder(ds, sent, Shifted(pt))
  {
    var pos := Shifted(pt);
    var tl := ds[1..];
    forall a, b | 0 <= a < b < |pos| ensures pos[a] < pos[b] {
      assert pos[a] == pt[a] + 1 && pos[b] == pt[b] + 1;
    }
    forall j | 0 <= j < |pos| ensures pos[j] < |ds| && ds[pos[j]] == Delivered(sent[j]) {
      assert ds[pos[j]] == tl[pt[j]];
    }
    DeliveredAreListed(ds, pt, false);
  }

  lemma ZeroInFrontIncreases(pt: seq<nat>)
    requires Increasing(pt)
    ensures Increasing([0] + Shifted(pt))
  {
    var pos := [0] + Shifted(pt);
    forall a, b | 0 <= a < b < |pos| ensures pos[a] < pos[b] {
      assert pos[b] == pt[b - 1] + 1;
      if a > 0 {
        assert pos[a] == pt[a - 1] + 1;
      }
    }
  }

  lemma DeliveredPositions(ds: seq<Delivery>, sent: seq<Email>, pt: seq<nat>)
    requires |ds| > 0 && ds[0].Delivered? && |pt| == |sent|
    requires forall j :: 0 <= j < |pt| ==> pt[j] < |ds[1..]| && ds[1..][pt[j]] == Delivered(sent[j])
    ensures var pos := [0] + Shifted(pt);
            forall j :: 0 <= j < |pos| ==> pos[j] < |ds| && ds[pos[j]] == Delivered(([ds[0].email] + sent)[j])
  {
    var pos := [0] + Shifted(pt);
    var snt := [ds[0].email] + sent;
    forall j | 0 <= j < |pos| ensures pos[j] < |ds| && ds[pos[j]] == Delivered(snt[j]) {
      if j > 0 {
        assert pos[j] == pt[j - 1] + 1 && snt[j] == sent[j - 1];
        assert ds[pos[j]] == ds[1..][pt[j - 1]];
      }
    }
  }

  /** Every delivered send after the first is listed, one place further on;
      the first is listed at 0 when `front` says a 0 is put in front. */
  lemma DeliveredAreListed(ds: seq<Delivery>, pt: seq<nat>, front: bool)
    requires |ds| > 0 && (front <==> ds[0].Delivered?)
    requires forall k :: 0 <= k < |ds[1..]| && ds[1..][k].Delivered? ==> k in pt
    ensures var pos := if front then [0] + Shifted(pt) else Shifted(pt);
            forall k :: 0 <= k < |ds| && ds[k].Delivered? ==> k in pos
  {
    var pos := if front then [0] + Shifted(pt) else Shifted(pt);
    var sh := Shifted(pt);
    forall k | 0 <= k < |ds| && ds[k].Delivered? ensures k in pos {
      if k > 0 {
        assert ds[k] == ds[1..][k - 1];
        var j :| 0 <= j < |pt| && pt[j] == k - 1;
        assert sh[j] == k;
        assert k in sh;
      }
    }
  }

  /** Without a panic, the loop sends one e-mail per delivered send, in the
      order of the sends, so the delivery count is the number of delivered
      sends. */
  lemma {:induction false} CollectKeepsOrder(ds: seq<Delivery>)
    requires !Collect(ds).panicked
    ensures exists pos :: SentInOrder(ds, Collect(ds).sent, pos)
  {
    if |ds| == 0 {
      assert SentInOrder(ds, [], []);
    } else {
      var rest := Collect(ds[1..]);
      CollectKeepsOrder(ds[1..]);
      var pt :| SentInOrder(ds[1..], rest.sent, pt);
      SentInOrderExtends(ds, rest.sent, pt);
      if ds[0].Delivered? {
        assert SentInOrder(ds, Collect(ds).sent, [0] + Shifted(pt));
      } else {
        assert SentInOrder(ds, Collect(ds).sent, Shifted(pt));
      }
    }
  }

  /** A failed send does not stop the loop: collecting `a` then `b` sends the
      e-mails of `a` followed by those of `b`. */
  lemma {:induction false} CollectConcat(a: seq<Delivery>, b: seq<Delivery>)
    requires !Collect(a).panicked
    ensures Collect(a + b) == Deliveries(Collect(a).sent + Collect(b).sent, Collect(b).panicked)
  {
    if |a| == 0 {
      assert a + b == b;
    } else {
      assert (a + b)[0] == a[0] && (a + b)[1..] == a[1..] + b;
      CollectConcat(a[1..], b);
      match a[0]
      case DeliveryPanicked =>
      case Undelivered =>
      case Delivered(e) =>
        ConcatAssociates([e], Collect(a[1..]).sent, Collect(b).sent);
    }
  }

  /** The delivery loop of the execution pass, one send per subscriber. The
      number of e-mails sent is the delivery count. */
  function DeliverAll(env: Env, db: Db, faults: Faults, job: Job, subs: seq<nat>): (r: Deliveries)
    requires ValidSubscriptions(db, subs)
    ensures |r.sent| <= |subs|
    ensures r.panicked <==> exists k :: 0 <= k < |subs| && Send(env, db, faults, job, subs[k]).DeliveryPanicked?
    ensures !r.panicked ==>
              (|r.sent| == |subs| <==> forall k :: 0 <= k < |subs| ==> Send(env, db, faults, job, subs[k]).Delivered?)
    ensures forall e :: e in r.sent ==> exists k :: 0 <= k < |subs| && Send(env, db, faults, job, subs[k]) == Delivered(e)
    ensures !r.panicked ==> exists pos :: SentInOrder(Outcomes(env, db, faults, job, subs), r.sent, pos)
    ensures !r.panicked ==>
              forall k :: 0 <= k < |subs| && Send(env, db, faults, job, subs[k]).Delivered? ==>
                Send(env, db, faults, job, subs[k]).email in r.sent
    ensures r.panicked ==> r.sent == []
  {
    var ds := Outcomes(env, db, faults, job, subs);
    SendsOfCollect(ds, env, db, faults, job, subs);
    Collect(ds)
  }

  /** The facts of `Collect` read back as facts about the sends of `DeliverAll`. */
  lemma SendsOfCollect(ds: seq<Delivery>, env: Env, db: Db, faults: Faults, job: Job, subs: seq<nat>)
    requires ValidSubscriptions(db, subs) && ds == Outcomes(env, db, faults, job, subs)
    ensures forall e :: e in Collect(ds).sent ==>
              exists k :: 0 <= k < |subs| && Send(env, db, faults, job, subs[k]) == Delivered(e)
    ensures !Collect(ds).panicked ==> exists pos :: SentInOrder(ds, Collect(ds).sent, pos)
    ensures !Collect(ds).panicked ==>
              forall k :: 0 <= k < |subs| && Send(env, db, faults, job, subs[k]).Delivered? ==>
                Send(env, db, faults, job, subs[k]).email in Collect(ds).sent
    ensures |Collect(ds).sent| > 0 ==> !Collect(ds).panicked
  {
    var r := Collect(ds);
    forall e | e in r.sent ensures exists k :: 0 <= k < |subs| && Send(env, db, faults, job, subs[k]) == Delivered(e) {
      var k :| 0 <= k < |ds| && ds[k] == Delivered(e);
    }
    if !r.panicked {
      CollectKeepsOrder(ds);
      var pos :| SentInOrder(ds, r.sent, pos);
      forall k | 0 <= k < |subs| && ds[k].Delivered? ensures ds[k].email in r.sent {
        var j :| 0 <= j < |pos| && pos[j] == k;
        assert r.sent[j] in r.sent;
      }
    }
    if |r.sent| > 0 {
      assert r.sent[0] in r.sent;
    }
  }

  /** Delivering to `a` then `b` sends the e-mails of `a` followed by those of `b`. */
  lemma LaterSendsGoOn(env: Env, db: Db, faults: Faults, job: Job, a: seq<nat>, b: seq<nat>)
    requires ValidSubscriptions(db, a) && ValidSubscriptions(db, b)
    requires !DeliverAll(env, db, faults, job, a).panicked
    ensures ValidSubscriptions(db, a + b)
    ensures var ab := DeliverAll(env, db, faults, job, a + b);
            ab.sent == DeliverAll(env, db, faults, job, a).sent + DeliverAll(env, db, faults, job, b).sent
            && ab.panicked == DeliverAll(env, db, faults, job, b).panicked
  {
    assert forall k :: 0 <= k < |a + b| ==> (a + b)[k] == if k < |a| then a[k] else b[k - |a|];
    var da := Outcomes(env, db, faults, job, a);
    var dbb := Outcomes(env, db, faults, job, b);
    assert Outcomes(env, db, faults, job, a + b) == da + dbb;
    CollectConcat(da, dbb);
  }

  // --------------------------------------------------------- execution pass

  /** The status the execution pass leaves. As written, a partial delivery
      writes `Failed` and then, unless that write failed, `Finished`. */
  function Settle(rule: Rule, db: Db, faults: Faults, taskId: nat, allDelivered: bool): (r: Db)
    ensures OnlyStatusesChanged(db, r)
    ensures forall i :: 0 <= i < |db.tasks| && i != taskId ==> r.tasks[i] == db.tasks[i]
    ensures taskId < |db.tasks| ==>
              r.tasks[taskId] == db.tasks[taskId] || r.tasks[taskId] == db.tasks[taskId].(status := Finished)
              || r.tasks[taskId] == db.tasks[taskId].(status := Failed)
  {
    match rule
    case AsWritten =>
      if allDelivered then Write(db, faults, taskId, Finished)
      else
        (match UpdateStatus(db, faults, taskId, Failed)
         case None => db
         case Some(d) => Write(d, faults, taskId, Finished))
    case Intended =>
      Write(db, faults, taskId, if allDelivered then Finished else Failed)
  }

  /** The result of one execution: how it ended, and the e-mails it sent. */
  datatype Published = Published(outcome: Outcome, sent: seq<Email>)

  /** One iteration of the execution pass over a ready Publish task. */
  function Execute(rule: Rule, env: Env, db: Db, faults: Faults, taskId: nat): (r: Published)
    requires taskId < |db.tasks| && Template.WellFormed(db.templates)
    ensures OnlyStatusesChanged(db, r.outcome.db)
    ensures forall i :: 0 <= i < |db.tasks| && i != taskId ==> r.outcome.db.tasks[i] == db.tasks[i]
    ensures r.outcome.db.tasks[taskId] == db.tasks[taskId]
            || r.outcome.db.tasks[taskId] == db.tasks[taskId].(status := Finished)
            || r.outcome.db.tasks[taskId] == db.tasks[taskId].(status := Failed)
    ensures r.outcome.Crashed? ==> r.outcome.db == db
    ensures |r.sent| > 0 ==> PostOf(db, faults, db.tasks[taskId].pipelineId).Found?
  {
    var pl := db.tasks[taskId].pipelineId;
    var lookup := PostOf(db, faults, pl);
    if lookup.LookupError? || (rule.Intended? && lookup.Absent?) then
      Published(Completed(Write(db, faults, taskId, Failed)), [])
    else
      var post := if lookup.Found? then Some(lookup.value) else None;
      match ProjectOfTask(db, faults, taskId)
      case Found(pid) =>
        (match Subscriptions(db, faults, pid)
         case None => Published(Completed(db), [])
         case Some(subs) =>
           match Template.GetActive(db.templates, faults, pid)
           case Found(et) =>
             assert forall k :: 0 <= k < |subs| ==> subs[k] in subs;
             var dl := DeliverAll(env, db, faults, Job(taskId, post, et), subs);
             assert |dl.sent| > 0 ==> dl.sent[0] in dl.sent;
             if dl.panicked then Published(Crashed(db), dl.sent)
             else Published(Completed(Settle(rule, db, faults, taskId, |dl.sent| == |subs|)), dl.sent)
           case _ => Published(Completed(db), []))
      case _ => Published(Completed(db), [])
  }

  /** The execution pass over the listed tasks, in id order; the e-mails of
      all of them, in order. */
  function PublishEach(rule: Rule, env: Env, db: Db, faults: Faults, ids: seq<nat>): (r: Published)
    requires Template.WellFormed(db.templates)
    requires forall k :: 0 <= k < |ids| ==> ids[k] < |db.tasks|
    ensures OnlyStatusesChanged(db, r.outcome.db)
    ensures forall i :: 0 <= i < |db.tasks| ==>
              r.outcome.db.tasks[i] == db.tasks[i]
              || (i in ids && (r.outcome.db.tasks[i] == db.tasks[i].(status := Finished)
                               || r.outcome.db.tasks[i] == db.tasks[i].(status := Failed)))
    decreases |ids|
  {
    if |ids| == 0 then Published(Completed(db), [])
    else
      var first := Execute(rule, env, db, faults, ids[0]);
      match first.outcome
      case Crashed(d) => first
      case Completed(d) =>
        assert forall k :: 0 <= k < |ids[1..]| ==> ids[1..][k] == ids[k + 1];
        var rest := PublishEach(rule, env, d, faults, ids[1..]);
        assert forall x :: x in ids[1..] ==> x in ids;
        Published(rest.outcome, first.sent + rest.sent)
  }

  /** `processReadyTasks`: `None` when the task listing fails. Only ready
      Publish tasks change, and only to `Finished` or `Failed`. */
  function ReadyPass(rule: Rule, env: Env, db: Db, faults: Faults): (r: Option<Published>)
    requires Template.WellFormed(db.templates)
    ensures r.None? <==> FilterTasks(Publish, Ready) in faults
    ensures r.Some? ==> OnlyStatusesChanged(db, r.value.outcome.db)
    ensures r.Some? ==> forall i :: 0 <= i < |db.tasks| ==>
              r.value.outcome.db.tasks[i] == db.tasks[i]
              || (db.tasks[i].kind == Publish && db.tasks[i].status == Ready
                  && r.value.outcome.db.tasks[i].status in {Finished, Failed})
  {
    match Filter(db, faults, Publish, Ready)
    case None => None
    case Some(ids) =>
      assert forall k :: 0 <= k < |ids| ==> ids[k] in ids;
      Some(PublishEach(rule, env, db, faults, ids))
  }

  // ------------------------------------------------------------ properties

  /** The loads before the fan-out found the task's post, its project, the
      project's subscriptions and the project's active template. */
  predicate Loaded(db: Db, faults: Faults, taskId: nat, pid: nat, subs: seq<nat>, et: Template.EmailTemplate)
    requires taskId < |db.tasks| && Template.WellFormed(db.templates)
  {
    && PostOf(db, faults, db.tasks[taskId].pipelineId).Found?
    && ProjectOfTask(db, faults, taskId) == Found(pid)
    && Subscriptions(db, faults, pid) == Some(subs)
    && Template.GetActive(db.templates, faults, pid) == Found(et)
    && ValidSubscriptions(db, subs)
  }

  function JobOf(db: Db, faults: Faults, taskId: nat, et: Template.EmailTemplate): Job
    requires taskId < |db.tasks|
  {
    var lookup := PostOf(db, faults, db.tasks[taskId].pipelineId);
    Job(taskId, if lookup.Found? then Some(lookup.value) else None, et)
  }

  /** Once everything is loaded, the e-mails sent are those of the fan-out and
      the task is settled on whether every subscriber got one. */
  lemma ExecuteFansOut(rule: Rule, env: Env, db: Db, faults: Faults, taskId: nat, pid: nat, subs: seq<nat>,
                       et: Template.EmailTemplate)
    requires taskId < |db.tasks| && Template.WellFormed(db.templates)
    requires Loaded(db, faults, taskId, pid, subs, et)
    ensures var dl := DeliverAll(env, db, faults, JobOf(db, faults, taskId, et), subs);
            var r := Execute(rule, env, db, faults, taskId);
            r.sent == dl.sent
            && r.outcome == if dl.panicked then Crashed(db)
                            else Completed(Settle(rule, db, faults, taskId, |dl.sent| == |subs|))
  {
  }

  /** A failed load of the project, its subscriptions or its active template
      leaves the task ready and sends nothing. */
  lemma LoadFailureSendsNothing(rule: Rule, env: Env, db: Db, faults: Faults, taskId: nat)
    requires taskId < |db.tasks| && Template.WellFormed(db.templates)
    requires PostOf(db, faults, db.tasks[taskId].pipelineId).Found?
    ensures var r := Execute(rule, env, db, faults, taskId);
            var project := ProjectOfTask(db, faults, taskId);
            !project.Found?
            || Subscriptions(db, faults, project.value).None?
            || !Template.GetActive(db.templates, faults, project.value).Found?
            ==> r == Published(Completed(db), [])
  {
  }

  /** A failed post lookup marks the task failed (when that write succeeds) and
      sends nothing, whatever the rule. */
  lemma PostLookupErrorFailsTheTask(rule: Rule, env: Env, db: Db, faults: Faults, taskId: nat)
    requires taskId < |db.tasks| && Template.WellFormed(db.templates)
    requires GetPostByPipeline(db.tasks[taskId].pipelineId) in faults
    ensures var r := Execute(rule, env, db, faults, taskId);
            r.sent == [] && r.outcome.Completed?
            && r.outcome.db.tasks[taskId].status == if UpdateTask(taskId, Failed) in faults then db.tasks[taskId].status else Failed
  {
  }

  /** When every subscriber gets the e-mail, zero subscribers included, the
      delivery count is the number of subscribers and the task ends finished. */
  lemma FullDeliveryFinishes(rule: Rule, env: Env, db: Db, faults: Faults, taskId: nat, pid: nat, subs: seq<nat>,
                             et: Template.EmailTemplate)
    requires taskId < |db.tasks| && Template.WellFormed(db.templates)
    requires Loaded(db, faults, taskId, pid, subs, et)
    requires forall k :: 0 <= k < |subs| ==>
               subs[k] < |db.subscriptions| && Send(env, db, faults, JobOf(db, faults, taskId, et), subs[k]).Delivered?
    requires UpdateTask(taskId, Finished) !in faults
    ensures var r := Execute(rule, env, db, faults, taskId);
            |r.sent| == |subs| && r.outcome == Completed(Write(db, faults, taskId, Finished))
            && r.outcome.db.tasks[taskId].status == Finished
  {
    ExecuteFansOut(rule, env, db, faults, taskId, pid, subs, et);
  }

  /** As written, a partial delivery ends `Finished`: the `Failed` write is
      overwritten at once. */
  lemma PartialDeliveryEndsFinished(env: Env, db: Db, faults: Faults, taskId: nat, pid: nat, subs: seq<nat>,
                                    et: Template.EmailTemplate, k: nat)
    requires taskId < |db.tasks| && Template.WellFormed(db.templates)
    requires Loaded(db, faults, taskId, pid, subs, et)
    requires k < |subs| && subs[k] < |db.subscriptions|
    requires Send(env, db, faults, JobOf(db, faults, taskId, et), subs[k]).Undelivered?
    requires !DeliverAll(env, db, faults, JobOf(db, faults, taskId, et), subs).panicked
    requires UpdateTask(taskId, Failed) !in faults && UpdateTask(taskId, Finished) !in faults
    ensures var r := Execute(AsWritten, env, db, faults, taskId);
            |r.sent| < |subs| && r.outcome.Completed? && r.outcome.db.tasks[taskId].status == Finished
  {
    ExecuteFansOut(AsWritten, env, db, faults, taskId, pid, subs, et);
  }

  /** Settled by the intended rule, a partial delivery ends `Failed`. */
  lemma PartialDeliveryEndsFailed(env: Env, db: Db, faults: Faults, taskId: nat, pid: nat, subs: seq<nat>,
                                  et: Template.EmailTemplate, k: nat)
    requires taskId < |db.tasks| && Template.WellFormed(db.templates)
    requires Loaded(db, faults, taskId, pid, subs, et)
    requires k < |subs| && subs[k] < |db.subscriptions|
    requires Send(env, db, faults, JobOf(db, faults, taskId, et), subs[k]).Undelivered?
    requires !DeliverAll(env, db, faults, JobOf(db, faults, taskId, et), subs).panicked
    requires UpdateTask(taskId, Failed) !in faults
    ensures var r := Execute(Intended, env, db, faults, taskId);
            |r.sent| < |subs| && r.outcome.Completed? && r.outcome.db.tasks[taskId].status == Failed
  {
    ExecuteFansOut(Intended, env, db, faults, taskId, pid, subs, et);
  }

  /** Under the intended rule the task ends `Finished` exactly when every
      subscriber got the e-mail, and `Failed` otherwise (status writes succeeding). */
  lemma IntendedStatusReportsDelivery(env: Env, db: Db, faults: Faults, taskId: nat, pid: nat, subs: seq<nat>,
                                      et: Template.EmailTemplate)
    requires taskId < |db.tasks| && Template.WellFormed(db.templates)
    requires Loaded(db, faults, taskId, pid, subs, et)
    requires !DeliverAll(env, db, faults, JobOf(db, faults, taskId, et), subs).panicked
    requires UpdateTask(taskId, Failed) !in faults && UpdateTask(taskId, Finished) !in faults
    ensures var st := Execute(Intended, env, db, faults, taskId).outcome.db.tasks[taskId].status;
            (st == Finished <==> forall k :: 0 <= k < |subs| ==> Send(env, db, faults, JobOf(db, faults, taskId, et), subs[k]).Delivered?)
            && (st == Finished || st == Failed)
  {
    ExecuteFansOut(Intended, env, db, faults, taskId, pid, subs, et);
  }

  /** As written, a ready task whose pipeline has no post is not failed: with no
      subscriber it ends `Finished` having sent nothing, and the first
      subscriber whose token encrypts panics the process. */
  lemma MissingPostAsWritten(env: Env, db: Db, faults: Faults, taskId: nat, pid: nat, subs: seq<nat>,
                             et: Template.EmailTemplate)
    requires taskId < |db.tasks| && Template.WellFormed(db.templates)
    requires PostOf(db, faults, db.tasks[taskId].pipelineId).Absent?
    requires ProjectOfTask(db, faults, taskId) == Found(pid)
    requires Subscriptions(db, faults, pid) == Some(subs)
    requires Template.GetActive(db.templates, faults, pid) == Found(et)
    ensures var r := Execute(AsWritten, env, db, faults, taskId);
            |subs| == 0 && UpdateTask(taskId, Finished) !in faults ==>
              r.sent == [] && r.outcome.Completed? && r.outcome.db.tasks[taskId].status == Finished
    ensures var r := Execute(AsWritten, env, db, faults, taskId);
            (exists k :: 0 <= k < |subs| && EncryptToken(subs[k]) !in faults) ==> r.outcome.Crashed?
  {
    assert forall k :: 0 <= k < |subs| ==> subs[k] in subs;
  }

  /** Under the intended rule a ready task whose pipeline has no post is marked
      `Failed` and nothing is sent. */
  lemma MissingPostFailsTheTask(env: Env, db: Db, faults: Faults, taskId: nat)
    requires taskId < |db.tasks| && Template.WellFormed(db.templates)
    requires PostOf(db, faults, db.tasks[taskId].pipelineId).Absent?
    requires UpdateTask(taskId, Failed) !in faults
    ensures var r := Execute(Intended, env, db, faults, taskId);
            r.sent == [] && r.outcome.Completed? && r.outcome.db.tasks[taskId].status == Failed
  {
  }

  /** Distinct tokens give distinct unsubscribe links. */
  lemma UnsubscribeLinksAreDistinct(domain: string, t1: string, t2: string)
    requires t1 != t2
    ensures UnsubscribeLink(domain, t1) != UnsubscribeLink(domain, t2)
  {
    var l1 := UnsubscribeLink(domain, t1);
    var l2 := UnsubscribeLink(domain, t2);
    var base := UnsubscribeLink(domain, "");
    assert |l1| == |base| + |t1| && |l2| == |base| + |t2|;
    if |t1| == |t2| {
      assert l1[|l1| - |t1|..] == t1;
      assert l2[|l2| - |t2|..] == t2;
    }
  }

  /** A lookup error on the Scrape sibling leaves the Publish task waiting. */
  lemma SiblingErrorKeepsWaiting(db: Db, faults: Faults, taskId: nat)
    requires taskId < |db.tasks|
    requires GetTaskByType(db.tasks[taskId].pipelineId, Scrape) in faults
    ensures Promote(db, faults, taskId) == Completed(db)
  {
  }
}
