/** The task table and the thread pool at work together: each method is one atomic step of one
    thread, and is a step of the protocol, so that what holds of all runs holds of them. */
module TaskSteps {
  import opened Bytes
  import opened TaskProcessor
  import opened TaskProtocol
  import opened TaskResults

  /** A run goes on with any step that can be taken. */
  lemma RunGoesOn(states: seq<State>, actions: seq<Action>, a: Action)
    requires Run(states, actions) && Enabled(states[|states| - 1], a)
    ensures Run(states + [Apply(states[|states| - 1], a)], actions + [a])
  {
    hide Enabled, Apply;
    var ss, as_ := states + [Apply(states[|states| - 1], a)], actions + [a];
    forall i | 0 <= i < |as_| ensures StepAt(ss, as_, i) {
      if i < |actions| { assert StepAt(states, actions, i); }
    }
  }

  function IdleWorkers(n: nat): (m: map<nat, Worker>)
    ensures forall w: nat :: w in m <==> w < n
    ensures forall w: nat :: w in m ==> m[w] == Idle
  {
    if n == 0 then map[] else IdleWorkers(n - 1)[n - 1 := Idle]
  }

  class Processor {
    const table: TaskTable
    const pool: ThreadPool
    /** The run so far. */
    ghost var states: seq<State>
    ghost var actions: seq<Action>

    ghost function Now(): State
      requires states != []
      reads this
    {
      states[|states| - 1]
    }

    ghost predicate Valid()
      reads this, table, pool
    {
      && Run(states, actions)
      && table.tasks == Now().tasks && pool.tasks == Now().queue && pool.stopped == Stopped(Now())
    }

    /** The run went on with `a`. */
    twostate predicate Stepped(a: Action)
      reads this, table, pool
    {
      && old(states) != [] && Enabled(old(Now()), a) && Valid()
      && states == old(states) + [Apply(old(Now()), a)] && actions == old(actions) + [a]
    }

    constructor (workers: nat)
      requires workers > 0
      ensures Valid() && |states| == 1 && Now().workers == IdleWorkers(workers)
    {
      table := new TaskTable();
      pool := new ThreadPool();
      var s := State(map[], [], IdleWorkers(workers), NotStopped, {}, {}, [], [], {});
      assert 0 in s.workers;
      states, actions := [s], [];
    }

    ghost method Record(a: Action)
      requires states != [] && Run(states, actions) && Enabled(Now(), a)
      modifies `states, `actions
      ensures Run(states, actions)
      ensures states == old(states) + [Apply(old(Now()), a)] && actions == old(actions) + [a]
    {
      RunGoesOn(states, actions, a);
      states, actions := states + [Apply(Now(), a)], actions + [a];
    }

    // What a caller of Submit does.

    method Register(id: string)
      requires Valid() && id !in Now().tasks
      modifies this, table
      ensures Stepped(Action.Register(id))
    {
      Record(Action.Register(id));
      table.Add(id);
    }

    method Offer(id: string) returns (ok: bool)
      requires Valid() && id in Now().submitting
      modifies this, pool
      ensures Stepped(Action.Offer(id)) && ok == (id in Now().accepted[|old(Now()).accepted|..])
    {
      Record(Action.Offer(id));
      ok := pool.Submit(id);
    }

    method Refuse(id: string)
      requires Valid() && id in Now().refusing
      modifies this, table
      ensures Stepped(Action.Refuse(id))
    {
      Record(Action.Refuse(id));
      table.Update(id, Failed, None, Some("task processor stopped"));
    }

    // What a worker does.

    /** A woken worker takes the first job, or leaves. */
    method Take(worker: nat) returns (job: Option<string>)
      requires Valid() && worker in Now().workers && Now().workers[worker] == Idle
      requires Stopped(Now()) || Now().queue != []
      modifies this, pool
      ensures Stepped(if job.Some? then TakeJob(worker) else Quit(worker))
      ensures job.Some? ==> Now().workers[worker] == Holds(job.value, false)
    {
      ghost var a := if Now().queue != [] then TakeJob(worker) else Quit(worker);
      Record(a);
      job := pool.Take();
    }

    method Begin(worker: nat, job: string)
      requires Valid() && worker in Now().workers && Now().workers[worker] == Holds(job, false)
      modifies this, table
      ensures Stepped(Action.Begin(worker))
    {
      Record(Action.Begin(worker));
      table.Update(job, Running, None, None);
    }

    method Finish(worker: nat, job: string, outcome: Outcome)
      requires Valid() && worker in Now().workers && Now().workers[worker] == Holds(job, true)
      modifies this, table
      ensures Stepped(Action.Finish(worker, outcome))
      ensures job in old(table.tasks) && old(table.tasks)[job].status != Failed ==>
        job in table.tasks && match outcome
          case Answer(r) => table.tasks[job] == Result(Completed, Some(r), None)
          case Threw(e) => table.tasks[job] == Result(Failed, None, Some(e))
      ensures job in old(table.tasks) && old(table.tasks)[job].status == Failed ==> table.tasks == old(table.tasks)
    {
      Record(Action.Finish(worker, outcome));
      match outcome
      case Answer(r) => table.Update(job, Completed, Some(r), None);
      case Threw(e) => table.Update(job, Failed, None, Some(e));
    }

    /** What is shown of a task: a response is what its handler answered, an error says why
        the task has failed. */
    method Get(id: string) returns (r: Option<Result>)
      requires Valid()
      ensures r.None? <==> id !in Now().tasks
      ensures r.Some? ==> r.value == Now().tasks[id] && Caused(states, actions, |states| - 1, id)
      ensures r.Some? && r.value.status == Completed ==>
        r.value.response.Some? && AnsweredBefore(states, actions, |actions|, id, Answer(r.value.response.value))
    {
      r := table.Get(id);
      if r.Some? { ResultsHaveCauses(states, actions, |states| - 1, id); }
    }

    // Cancelling and stopping.

    method Cancel(id: string) returns (ok: bool)
      requires Valid()
      modifies this, table
      ensures Stepped(CancelTask(id)) && ok == (id in old(Now()).tasks && old(Now()).tasks[id].status != Completed)
    {
      Record(CancelTask(id));
      ok := table.Cancel(id);
    }

    /** Only the first call is a step; it goes on to join the workers. */
    method Stop() returns (first: bool)
      requires Valid()
      modifies this, pool
      ensures first == !old(Stopped(Now()))
      ensures if first then Stepped(StopFirst) else Valid() && states == old(states) && actions == old(actions)
    {
      if !pool.stopped { Record(StopFirst); }
      first := pool.SetStopped();
    }

    /** When the workers have left, every job that was ever accepted has its final result. */
    ghost method Joined()
      requires Valid() && Enabled(Now(), StopReturn)
      modifies this
      ensures Stepped(StopReturn)
      ensures forall id :: id in Now().accepted ==>
        id in table.tasks && Terminal(table.tasks[id]) && Consistent(table.tasks[id])
    {
      Record(StopReturn);
      TaskProtocolHolds(states, actions, |states| - 1);
    }
  }
}
