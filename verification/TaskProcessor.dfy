/** Asynchronous tasks: a queue served by worker threads, and a table of task results. Each
    method is what one thread does while it holds a lock. */
module TaskProcessor {
  import opened Bytes

  datatype Status = Pending | Running | Completed | Failed

  datatype Result = Result(status: Status, response: Option<string>, error: Option<string>)

  type Tasks = map<string, Result>

  const NEW_TASK := Result(Pending, None, None)

  /** A task that has failed, or is not known, is left alone. */
  function Updated(tasks: Tasks, id: string, status: Status, response: Option<string>, error: Option<string>): Tasks {
    if id !in tasks || tasks[id].status == Failed then tasks else tasks[id := Result(status, response, error)]
  }

  /** Cancelling is too late for a completed task; it may rewrite the error of a failed one. */
  function Cancelled(tasks: Tasks, id: string): Tasks {
    if id !in tasks || tasks[id].status == Completed then tasks
    else tasks[id := tasks[id].(status := Failed, error := Some("cancelled"))]
  }

  class TaskTable {
    var tasks: Tasks

    constructor ()
      ensures tasks == map[]
    {
      tasks := map[];
    }

    method Add(id: string)
      modifies this
      ensures tasks == old(tasks)[id := NEW_TASK]
    {
      tasks := tasks[id := Result(Pending, None, None)];
    }

    method Update(id: string, status: Status, response: Option<string>, error: Option<string>)
      modifies this
      ensures tasks == Updated(old(tasks), id, status, response, error)
    {
      if id !in tasks || tasks[id].status == Failed {
        return;
      }
      var r := tasks[id];
      r := r.(status := status);
      r := r.(response := response);
      r := r.(error := error);
      tasks := tasks[id := r];
    }

    method Cancel(id: string) returns (ok: bool)
      modifies this
      ensures tasks == Cancelled(old(tasks), id)
      ensures ok <==> id in old(tasks) && old(tasks)[id].status != Completed
    {
      if id !in tasks || tasks[id].status == Completed {
        return false;
      }
      tasks := tasks[id := tasks[id].(status := Failed)];
      tasks := tasks[id := tasks[id].(error := Some("cancelled"))];
      ok := true;
    }

    method Get(id: string) returns (r: Option<Result>)
      ensures r == if id in tasks then Some(tasks[id]) else None
    {
      r := if id !in tasks then None else Some(tasks[id]);
    }
  }

  class ThreadPool {
    var tasks: seq<string>
    var stopped: bool

    constructor ()
      ensures tasks == [] && !stopped
    {
      tasks, stopped := [], false;
    }

    method Submit(job: string) returns (ok: bool)
      modifies this
      ensures ok == !old(stopped) && stopped == old(stopped)
      ensures tasks == if ok then old(tasks) + [job] else old(tasks)
    {
      if stopped {
        return false;
      }
      tasks := tasks + [job];
      ok := true;
    }

    /** One round of a worker that has been woken: the next job, or nothing when it may leave. */
    method Take() returns (job: Option<string>)
      requires stopped || tasks != []
      modifies this
      ensures stopped == old(stopped)
      ensures job.None? <==> old(tasks) == []
      ensures job.Some? ==> old(tasks) == [job.value] + tasks
      ensures job.None? ==> tasks == old(tasks)
    {
      if stopped && tasks == [] {
        return None;
      }
      job := Some(tasks[0]);
      tasks := tasks[1..];
    }

    /** True for the first call, which goes on to join the workers. */
    method SetStopped() returns (first: bool)
      modifies this
      ensures first == !old(stopped) && stopped && tasks == old(tasks)
    {
      if stopped {
        return false;
      }
      stopped := true;
      first := true;
    }
  }
}
