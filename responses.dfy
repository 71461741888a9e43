/**
  The parts of Remember The Milk responses that the managers and the task
  store read, as already-parsed values: the `list` elements of an
  `rtm.lists.getList` answer and the `list`/`taskseries`/`task` elements of an
  `rtm.tasks.getList` answer. Every attribute is the string the service sent.
*/
module Responses {

  /** A `list` element of `rtm.lists.getList`: its `id` and `name` attributes. */
  datatype ListEntry = ListEntry(id: string, name: string)

  /** The first `task` child of a `taskseries` (the one `taskseries.task` reaches). */
  datatype TaskEntry = TaskEntry(id: string, completed: string, due: string, priority: string)

  /** A `taskseries` element: its `id` and `name` attributes and its task. */
  datatype TaskSeries = TaskSeries(id: string, name: string, task: TaskEntry)

  /** A `list` element of `rtm.tasks.getList`: its `id` attribute and its `taskseries` children. */
  datatype TaskList = TaskList(id: string, series: seq<TaskSeries>)
}
