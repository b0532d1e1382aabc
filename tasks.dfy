/**
  The task record shared by the collection hook and the card.
  The record type itself is declared in src/components/TaskList, which is not
  part of this model; its fields here follow the card's props plus the
  server-assigned identifier `_id`.
 */
module Tasks {
  import opened Wrappers

  /** The three statuses a task may have ('todo' | 'in-progress' | 'done'). */
  datatype Status = Todo | InProgress | Done

  /**
    A task as the remote store returns it. `id` is the store's `_id`; the
    other fields are payload the collection never inspects.
   */
  datatype Task = Task(
    id: string,
    title: string,
    description: Option<string>,
    status: Status,
    dueDate: Option<string>,
    subTasks: Option<seq<string>>)

}
