/**
 The task state model: the task types and statuses, the task record and its
 three predicates.
 */
module Tasks {

  /** The two kinds of work a pipeline holds. */
  datatype TaskType = Scrape | Publish

  /** Task statuses. `Running` and `Aborted` are declared but no worker writes them. */
  datatype TaskStatus = Waiting | Ready | Running | Finished | Failed | Aborted

  /** The task types a pipeline must hold, in the order the task reconciler visits them. */
  const TaskTypes: seq<TaskType> := [Scrape, Publish]

  /** A task row. Its id is its index in the task table. */
  datatype Task = Task(pipelineId: nat, kind: TaskType, status: TaskStatus)

  /** `IsFinished`: the task reached the one terminal status that is a success. */
  function IsFinished(t: Task): (r: bool)
    ensures r <==> Rank(t.status) == 3 && t.status != Failed && t.status != Aborted
  {
    t.status == Finished
  }

  /** `IsScrape`: the first of the two task types; a task is a Scrape task
      exactly when it is not a Publish task. */
  function IsScrape(t: Task): (r: bool)
    ensures r <==> t.kind == TaskTypes[0]
    ensures r <==> !IsPublish(t)
  {
    t.kind == Scrape
  }

  /** `IsPublish`: the last of the task types the reconciler visits. */
  function IsPublish(t: Task): (r: bool)
    ensures r <==> t.kind == TaskTypes[|TaskTypes| - 1]
  {
    t.kind == Publish
  }

  /** The row the store inserts for `Create`: the database fills in the initial
      status `Waiting`. */
  function NewTask(pipelineId: nat, kind: TaskType): (t: Task)
    ensures t.pipelineId == pipelineId && t.kind == kind
    ensures !IsFinished(t)
  {
    Task(pipelineId, kind, Waiting)
  }

  /** Forward progress of a status: `Waiting` before `Ready` before the terminal
      statuses. `Running` sits between `Ready` and the terminal statuses. */
  function Rank(s: TaskStatus): (r: nat)
    ensures r <= 3
    ensures r == 0 <==> s == Waiting
    ensures r == 3 <==> s in {Finished, Failed, Aborted}
  {
    match s
    case Waiting => 0
    case Ready => 1
    case Running => 2
    case Finished => 3
    case Failed => 3
    case Aborted => 3
  }
}
