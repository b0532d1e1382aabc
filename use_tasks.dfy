/**
  The `useTasks` hook: a local mirror of the remote task collection plus a
  loading flag. The list changes only after the remote call it waits on
  succeeds; `fetchTasks` raises the flag before it awaits.
 */
module UseTasks {
  import opened Tasks
  import opened TaskList

  /**
    What one awaited call to the remote task API produced: the promise
    resolved with a value, or it rejected.
   */
  datatype Reply<+T> = Success(value: T) | Failure

  /** The hook's state (`tasks`, `loading`) and its four operations. */
  class TaskCollection {
    var tasks: seq<Task>
    var loading: bool

    /** The hook's first render: no tasks yet, and loading. */
    constructor ()
      ensures tasks == [] && loading
    {
      tasks := [];
      loading := true;
    }

    /**
      `fetchTasks`: raise the flag, await the list, replace the mirror with it
      verbatim and lower the flag. A rejected `getTasks` leaves the mirror as
      it was and the flag raised; `resolved` tells which happened.
     */
    method FetchTasks(reply: Reply<seq<Task>>) returns (resolved: bool)
      modifies this
      ensures resolved <==> reply.Success?
      ensures reply.Success? ==> tasks == reply.value && !loading
      ensures reply.Failure? ==> tasks == old(tasks) && loading
    {
      loading := true;
      match reply {
        case Failure =>
          resolved := false;
        case Success(data) =>
          tasks := data;
          loading := false;
          resolved := true;
      }
    }

    /** `addTask`: append the record `createTask` returned, after it resolves. */
    method AddTask(reply: Reply<Task>) returns (resolved: bool)
      modifies this
      ensures resolved <==> reply.Success?
      ensures reply.Success? ==> tasks == old(tasks) + [reply.value]
      ensures reply.Failure? ==> tasks == old(tasks)
      ensures loading == old(loading)
    {
      match reply {
        case Failure =>
          resolved := false;
        case Success(newTask) =>
          tasks := tasks + [newTask];
          resolved := true;
      }
    }

    /**
      `editTask`: replace every entry with identifier `id` by the record
      `updateTask` returned, in place, and hand that record back.
     */
    method EditTask(id: string, reply: Reply<Task>) returns (result: Reply<Task>)
      modifies this
      ensures result == reply
      ensures reply.Success? ==> tasks == ReplaceById(old(tasks), id, reply.value)
      ensures reply.Success? ==> |tasks| == |old(tasks)|
      ensures reply.Success? ==> forall i :: 0 <= i < |tasks| ==>
        tasks[i] == (if old(tasks)[i].id == id then reply.value else old(tasks)[i])
      ensures reply.Failure? ==> tasks == old(tasks)
      ensures loading == old(loading)
    {
      match reply {
        case Failure =>
        case Success(updatedTask) =>
          tasks := ReplaceById(tasks, id, updatedTask);
      }
      result := reply;
    }

    /** `removeTask`: drop every entry with identifier `taskId` once `deleteTask` resolves. */
    method RemoveTask(taskId: string, reply: Reply<()>) returns (resolved: bool)
      modifies this
      ensures resolved <==> reply.Success?
      ensures reply.Success? ==> tasks == RemoveById(old(tasks), taskId) && Absent(tasks, taskId)
      ensures reply.Failure? ==> tasks == old(tasks)
      ensures loading == old(loading)
    {
      match reply {
        case Failure =>
          resolved := false;
        case Success(_) =>
          RemoveLeavesAbsent(tasks, taskId);
          tasks := RemoveById(tasks, taskId);
          resolved := true;
      }
    }
  }

  /**
    A session against the hook: add a task, mark it done, remove it, remove
    it again. What each step leaves behind follows from the contracts alone.
   */
  method Session(t1: Task, t1Done: Task)
    requires t1.id == "t1" && t1Done.id == "t1"
  {
    var c := new TaskCollection();
    var ok := c.AddTask(Success(t1));
    assert c.tasks == [t1];
    var edited := c.EditTask("t1", Success(t1Done));
    assert edited == Success(t1Done) && c.tasks == [t1Done];
    ok := c.RemoveTask("t1", Success(()));
    assert c.tasks == [];
    ok := c.RemoveTask("t1", Success(()));
    assert c.tasks == [] && c.loading;
    ok := c.FetchTasks(Success([t1Done]));
    assert c.tasks == [t1Done] && !c.loading;
    ok := c.FetchTasks(Failure);
    assert c.tasks == [t1Done] && c.loading;
  }

}
