/** The records the backend sends to the specs view: a spec directory's metadata and
    its tasks, as read from `tasks.json`. */
module SpecData {
  import opened Wrappers

  /** One task of a spec. */
  datatype TaskInfo = TaskInfo(
    id: string,
    name: string,
    description: string,
    status: string,
    completed: Option<string>,
    dependencies: seq<string>,
    effort: string,
    uxUiReviewed: Option<bool>)

  /** One spec directory. `lastModified` is a time in milliseconds since the epoch. */
  datatype SpecMetadata = SpecMetadata(
    id: string,
    name: string,
    feature: string,
    phase: string,
    status: string,
    created: string,
    path: string,
    taskCount: nat,
    completedTasks: nat,
    sizeBytes: nat,
    lastModified: Option<nat>,
    tasks: seq<TaskInfo>)
}
