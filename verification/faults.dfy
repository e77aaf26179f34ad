/**
 The failure oracle for the external collaborators.

 Every database query, insert and update, the token encryption and the
 e-mail transport can fail with a transient error. A tick is given the set
 of calls that fail; a call not in the set succeeds. A call is named by its
 arguments, so the same call made twice in one tick gets the same answer.
 */
module Faults {
  import opened Tasks

  datatype Call =
    | AllEnabledProjects
    | LastPipeline(projectId: int)
    | InsertPipeline(projectId: int)
    | AllTasksOfPipeline(pipelineId: int)
    | GetTaskByType(pipelineId: int, kind: TaskType)
    | InsertTask(pipelineId: int, kind: TaskType)
    | FilterTasks(kind: TaskType, status: TaskStatus)
    | UpdateTask(taskId: int, status: TaskStatus)
    | GetProjectByTask(taskId: int)
    | LastPostOfProject(projectId: int)
    | GetPostByPipeline(pipelineId: int)
    | InsertPost(pipelineId: int)
    | SubscriptionsOfProject(projectId: int)
    | ActiveTemplate(projectId: int)
    | GetTemplate(templateId: int)
    | InsertTemplate(projectId: int)
    | UpdateTemplate(templateId: int, isActive: bool)
    | EncryptToken(subscriptionId: int)
    | PostItemsOfPost(pipelineId: int)         // a post is named by its pipeline
    | SendEmail(taskId: int, subscriptionId: int)

  /** The calls that fail during one tick or one request. */
  type Faults = set<Call>
}
