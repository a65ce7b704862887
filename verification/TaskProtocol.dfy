/** All interleavings of submitting, working, cancelling and stopping, as atomic steps. */
module TaskProtocol {
  import opened Bytes
  import opened TaskProcessor

  datatype Worker = Idle | Holds(job: string, begun: bool) | Exited

  datatype Stopping = NotStopped | Joining | Returned

  /** `accepted`, `started` and `finished` record the past; `submitting` and `refusing` are
      the submissions between their steps. */
  datatype State = State(
    tasks: Tasks, queue: seq<string>, workers: map<nat, Worker>, stop: Stopping,
    submitting: set<string>, refusing: set<string>,
    accepted: seq<string>, started: seq<string>, finished: set<string>)

  ghost predicate Init(s: State) {
    && s.tasks == map[] && s.queue == [] && s.stop == NotStopped && s.submitting == {} && s.refusing == {}
    && s.accepted == [] && s.started == [] && s.finished == {}
    && s.workers.Keys != {} && forall w :: w in s.workers ==> s.workers[w] == Idle
  }

  datatype Action =
    | Register(id: string)
    | Offer(id: string)
    | Refuse(id: string)
    | TakeJob(worker: nat)
    | Quit(worker: nat)
    | Begin(worker: nat)
    | Finish(worker: nat, outcome: Outcome)
    | CancelTask(id: string)
    | StopFirst
    | StopReturn

  datatype Outcome = Answer(response: string) | Threw(error: string)

  predicate Stopped(s: State) { s.stop != NotStopped }

  /** When a step can be taken. Ids are fresh. */
  predicate Enabled(s: State, a: Action) {
    match a
    case Register(id) => id !in s.tasks
    case Offer(id) => id in s.submitting
    case Refuse(id) => id in s.refusing
    case TakeJob(w) => w in s.workers && s.workers[w] == Idle && s.queue != []
    case Quit(w) => w in s.workers && s.workers[w] == Idle && Stopped(s) && s.queue == []
    case Begin(w) => w in s.workers && s.workers[w].Holds? && !s.workers[w].begun
    case Finish(w, _) => w in s.workers && s.workers[w].Holds? && s.workers[w].begun
    case CancelTask(_) => true
    case StopFirst => !Stopped(s)
    case StopReturn => s.stop == Joining && forall w :: w in s.workers ==> s.workers[w] == Exited
  }

  function Apply(s: State, a: Action): State
    requires Enabled(s, a)
  {
    match a
    case Register(id) => s.(tasks := s.tasks[id := NEW_TASK], submitting := s.submitting + {id})
    case Offer(id) =>
      if Stopped(s) then s.(submitting := s.submitting - {id}, refusing := s.refusing + {id})
      else s.(submitting := s.submitting - {id}, queue := s.queue + [id], accepted := s.accepted + [id])
    case Refuse(id) =>
      s.(tasks := Updated(s.tasks, id, Failed, None, Some("task processor stopped")), refusing := s.refusing - {id})
    case TakeJob(w) =>
      s.(workers := s.workers[w := Holds(s.queue[0], false)], queue := s.queue[1..],
         started := s.started + [s.queue[0]])
    case Quit(w) => s.(workers := s.workers[w := Exited])
    case Begin(w) =>
      s.(tasks := Updated(s.tasks, s.workers[w].job, Running, None, None),
         workers := s.workers[w := Holds(s.workers[w].job, true)])
    case Finish(w, outcome) =>
      var job := s.workers[w].job;
      var tasks := match outcome
        case Answer(r) => Updated(s.tasks, job, Completed, Some(r), None)
        case Threw(e) => Updated(s.tasks, job, Failed, None, Some(e));
      s.(tasks := tasks, workers := s.workers[w := Idle], finished := s.finished + {job})
    case CancelTask(id) => s.(tasks := Cancelled(s.tasks, id))
    case StopFirst => s.(stop := Joining)
    case StopReturn => s.(stop := Returned)
  }

  /** A run: a start and the steps taken. */
  ghost predicate Run(states: seq<State>, actions: seq<Action>) {
    && |states| == |actions| + 1 && Init(states[0])
    && forall i :: 0 <= i < |actions| ==> StepAt(states, actions, i)
  }

  ghost predicate StepAt(states: seq<State>, actions: seq<Action>, i: nat)
    requires |states| == |actions| + 1 && i < |actions|
  {
    Enabled(states[i], actions[i]) && states[i + 1] == Apply(states[i], actions[i])
  }

  // The invariant.

  /** Response and error are there exactly when the status calls for them. */
  predicate Consistent(r: Result) {
    (r.response.Some? <==> r.status == Completed) && (r.error.Some? <==> r.status == Failed)
  }

  predicate Terminal(r: Result) { r.status == Completed || r.status == Failed }

  ghost predicate TasksOk(s: State) {
    && (forall id :: id in s.tasks ==> Consistent(s.tasks[id]))
    && (forall id :: id in s.accepted || id in s.submitting || id in s.refusing ==> id in s.tasks)
    && (forall id :: id in s.tasks && s.tasks[id].status == Completed ==> id in s.finished)
    && (forall id :: id in s.finished ==> id in s.started && id in s.tasks && Terminal(s.tasks[id]))
    && (forall id :: id in s.tasks ==>
        id in s.submitting || id in s.refusing || id in s.accepted || s.tasks[id].status == Failed)
  }

  /** Every submission is in one place only, and accepted jobs start in their order, once. */
  ghost predicate QueueOk(s: State) {
    && s.accepted == s.started + s.queue && Distinct(s.accepted)
    && s.submitting !! s.refusing
    && (forall id :: id in s.accepted ==> id !in s.submitting && id !in s.refusing)
    && (s.refusing != {} ==> Stopped(s))
  }

  /** Every started job is finished or held by exactly one worker. */
  ghost predicate WorkersOk(s: State) {
    && (forall w :: w in s.workers && s.workers[w].Holds? ==>
        s.workers[w].job in s.started && s.workers[w].job !in s.finished)
    && (forall v, w :: v in s.workers && w in s.workers && v != w && s.workers[v].Holds? && s.workers[w].Holds? ==>
        s.workers[v].job != s.workers[w].job)
    && (forall id :: id in s.started && id !in s.finished ==> Held(s, id))
    && (forall w :: w in s.workers && s.workers[w] == Exited ==> Stopped(s) && s.queue == [])
    && (s.stop == Returned ==> forall w :: w in s.workers ==> s.workers[w] == Exited)
    && s.workers.Keys != {}
  }

  ghost predicate Held(s: State, id: string) {
    exists w :: w in s.workers && s.workers[w].Holds? && s.workers[w].job == id
  }

  ghost predicate Inv(s: State) { TasksOk(s) && QueueOk(s) && WorkersOk(s) }

  lemma BeginKeepsTasks(s: State, w: nat)
    requires TasksOk(s) && WorkersOk(s) && Enabled(s, Begin(w))
    ensures TasksOk(Apply(s, Begin(w)))
  {
    hide Held;
  }

  lemma FinishKeepsTasks(s: State, w: nat, outcome: Outcome)
    requires Inv(s) && Enabled(s, Finish(w, outcome))
    ensures TasksOk(Apply(s, Finish(w, outcome)))
  {
    hide Held, Distinct;
  }

  lemma SubmissionKeepsTasks(s: State, a: Action)
    requires TasksOk(s) && Enabled(s, a) && (a.Register? || a.Offer? || a.Refuse?)
    ensures TasksOk(Apply(s, a))
  {
  }

  lemma CancelKeepsTasks(s: State, id: string)
    requires TasksOk(s)
    ensures TasksOk(Apply(s, CancelTask(id)))
  {
  }

  lemma StepKeepsTasks(s: State, a: Action)
    requires Inv(s) && Enabled(s, a)
    ensures TasksOk(Apply(s, a))
  {
    match a
    case Register(_) => SubmissionKeepsTasks(s, a);
    case Offer(_) => SubmissionKeepsTasks(s, a);
    case Refuse(_) => SubmissionKeepsTasks(s, a);
    case Begin(w) => BeginKeepsTasks(s, w);
    case Finish(w, outcome) => FinishKeepsTasks(s, w, outcome);
    case CancelTask(id) => CancelKeepsTasks(s, id);
    case _ =>
  }

  lemma StepKeepsQueue(s: State, a: Action)
    requires Inv(s) && Enabled(s, a)
    ensures QueueOk(Apply(s, a))
  {
  }

  lemma HeadIsNew(s: State)
    requires QueueOk(s) && s.queue != []
    ensures s.queue[0] !in s.started
  {
    var n := |s.started|;
    assert s.accepted[n] == s.queue[0];
    assert forall i :: 0 <= i < n ==> s.accepted[i] == s.started[i];
  }

  /** A change of one worker that does not drop an unfinished job. */
  lemma StillHeld(s: State, u: State, w: nat)
    requires WorkersOk(s) && w in s.workers && u.workers.Keys == s.workers.Keys
    requires forall v :: v in s.workers && v != w ==> u.workers[v] == s.workers[v]
    requires s.workers[w].Holds? ==>
      (u.workers[w].Holds? && u.workers[w].job == s.workers[w].job) || s.workers[w].job in u.finished
    requires s.finished <= u.finished
    ensures forall id :: id in s.started && id !in u.finished ==> Held(u, id)
  {
    forall id | id in s.started && id !in u.finished ensures Held(u, id) {
      assert Held(s, id);
      var v :| v in s.workers && s.workers[v].Holds? && s.workers[v].job == id;
      assert v in u.workers && u.workers[v].Holds? && u.workers[v].job == id;
    }
  }

  lemma TakeKeepsWorkers(s: State, w: nat)
    requires Inv(s) && Enabled(s, TakeJob(w))
    ensures WorkersOk(Apply(s, TakeJob(w)))
  {
    var u := Apply(s, TakeJob(w));
    HeadIsNew(s);
    StillHeld(s, u, w);
    assert Held(u, s.queue[0]) by { assert u.workers[w].Holds? && u.workers[w].job == s.queue[0]; }
    forall id | id in u.started && id !in u.finished ensures Held(u, id) {
      assert id in s.started || id == s.queue[0];
    }
  }

  lemma OtherKeepsWorkers(s: State, a: Action)
    requires Inv(s) && Enabled(s, a) && (a.Quit? || a.Begin? || a.Finish?)
    ensures WorkersOk(Apply(s, a))
  {
    StillHeld(s, Apply(s, a), a.worker);
  }

  lemma StepKeepsWorkers(s: State, a: Action)
    requires Inv(s) && Enabled(s, a)
    ensures WorkersOk(Apply(s, a))
  {
    match a
    case TakeJob(w) => TakeKeepsWorkers(s, w);
    case Quit(_) => OtherKeepsWorkers(s, a);
    case Begin(_) => OtherKeepsWorkers(s, a);
    case Finish(_, _) => OtherKeepsWorkers(s, a);
    case _ => SameWorkersHold(s, Apply(s, a));
  }

  lemma SameWorkersHold(s: State, u: State)
    requires u.workers == s.workers
    ensures forall id :: Held(s, id) ==> Held(u, id)
  {
    forall id | Held(s, id) ensures Held(u, id) {
      var v :| v in s.workers && s.workers[v].Holds? && s.workers[v].job == id;
      assert v in u.workers && u.workers[v].Holds? && u.workers[v].job == id;
    }
  }

  /** What holds at the start holds after every step of every run. */
  lemma {:induction false} RunKeepsInv(states: seq<State>, actions: seq<Action>, i: nat)
    requires Run(states, actions) && i < |states|
    ensures Inv(states[i])
    decreases i
  {
    if i > 0 {
      RunKeepsInv(states, actions, i - 1);
      assert StepAt(states, actions, i - 1);
      StepKeepsTasks(states[i - 1], actions[i - 1]);
      StepKeepsQueue(states[i - 1], actions[i - 1]);
      StepKeepsWorkers(states[i - 1], actions[i - 1]);
    }
  }

  // What users see.

  /** A terminal status stays, and a completed task as a whole. */
  ghost predicate ResultsStay(s: State, u: State) {
    && (forall id :: id in s.tasks ==>
        id in u.tasks && (Terminal(s.tasks[id]) ==> u.tasks[id].status == s.tasks[id].status))
    && (forall id :: id in s.tasks && s.tasks[id].status == Completed ==> u.tasks[id] == s.tasks[id])
  }

  /** Jobs are only accepted, started and finished, and none accepted once the pool is stopped. */
  ghost predicate JobsGrow(s: State, u: State) {
    && s.accepted <= u.accepted && s.started <= u.started && s.finished <= u.finished
    && (Stopped(s) ==> Stopped(u) && u.accepted == s.accepted)
  }

  /** One step changes no terminal status, takes no accepted job back and starts jobs only
      in the order they were accepted. */
  ghost predicate Forward(s: State, u: State) {
    ResultsStay(s, u) && JobsGrow(s, u)
  }

  lemma WorkerKeepsResults(s: State, a: Action)
    requires Inv(s) && Enabled(s, a) && (a.Begin? || a.Finish?)
    ensures ResultsStay(s, Apply(s, a))
  {
    hide Held, Distinct, QueueOk;
  }

  lemma UserKeepsResults(s: State, a: Action)
    requires TasksOk(s) && QueueOk(s) && Enabled(s, a) && (a.Register? || a.Refuse? || a.CancelTask?)
    ensures ResultsStay(s, Apply(s, a))
  {
    hide Distinct;
  }

  lemma StepKeepsResults(s: State, a: Action)
    requires Inv(s) && Enabled(s, a)
    ensures ResultsStay(s, Apply(s, a))
  {
    hide TasksOk, QueueOk, WorkersOk;
    match a
    case Register(_) => UserKeepsResults(s, a);
    case Refuse(_) => UserKeepsResults(s, a);
    case CancelTask(_) => UserKeepsResults(s, a);
    case Begin(_) => WorkerKeepsResults(s, a);
    case Finish(_, _) => WorkerKeepsResults(s, a);
    case _ => assert Apply(s, a).tasks == s.tasks;
  }

  lemma StepForward(s: State, a: Action)
    requires Inv(s) && Enabled(s, a)
    ensures Forward(s, Apply(s, a))
  {
    hide ResultsStay, Inv;
    StepKeepsResults(s, a);
  }

  lemma {:induction false} RunForward(states: seq<State>, actions: seq<Action>, i: nat, j: nat)
    requires Run(states, actions) && i <= j < |states|
    ensures Forward(states[i], states[j])
    decreases j
  {
    hide Inv, Enabled, Apply;
    if i < j {
      RunForward(states, actions, i, j - 1);
      RunKeepsInv(states, actions, j - 1);
      assert StepAt(states, actions, j - 1);
      StepForward(states[j - 1], actions[j - 1]);
    }
  }

  /** The protocol, over all runs: results are consistent; accepted jobs start first in first
      out and never twice; and when the first call of Stop has returned, every job ever
      accepted has run to its end and has a terminal status, for good. */
  lemma TaskProtocolHolds(states: seq<State>, actions: seq<Action>, i: nat)
    requires Run(states, actions) && i < |states|
    ensures var s := states[i];
      && (forall id :: id in s.tasks ==> Consistent(s.tasks[id]))
      && s.started <= s.accepted && Distinct(s.started)
      && (s.stop == Returned ==>
        s.started == s.accepted && forall id :: id in s.accepted ==>
          id in s.finished && id in s.tasks && Terminal(s.tasks[id]))
    ensures forall j :: i <= j < |states| ==> Forward(states[i], states[j])
  {
    RunKeepsInv(states, actions, i);
    var s := states[i];
    assert Distinct(s.started) by {
      assert forall k :: 0 <= k < |s.started| ==> s.started[k] == s.accepted[k];
    }
    if s.stop == Returned { NothingLeft(s); }
    forall j | i <= j < |states| ensures Forward(states[i], states[j]) {
      RunForward(states, actions, i, j);
    }
  }

  lemma NothingLeft(s: State)
    requires Inv(s) && s.stop == Returned
    ensures s.queue == [] && s.started == s.accepted
    ensures forall id :: id in s.accepted ==> id in s.finished
  {
    var w :| w in s.workers.Keys;
    assert s.workers[w] == Exited;
    forall id | id in s.accepted ensures id in s.finished {
      assert id !in s.finished ==> Held(s, id);
    }
  }
  // Stopping comes to an end.

  predicate WorkerStep(a: Action) { a.TakeJob? || a.Quit? || a.Begin? || a.Finish? }

  ghost function IdleOnes(s: State): set<nat> { set w | w in s.workers && s.workers[w] == Idle }

  ghost function Waiting(s: State): set<nat> { set w | w in s.workers && s.workers[w].Holds? && !s.workers[w].begun }

  ghost function Busy(s: State): set<nat> { set w | w in s.workers && s.workers[w].Holds? && s.workers[w].begun }

  /** How many steps the workers can still take, at most. */
  ghost function WorkLeft(s: State): nat {
    4 * |s.queue| + |IdleOnes(s)| + 3 * |Waiting(s)| + 2 * |Busy(s)|
  }

  /** Once the pool is stopped a worker can move until all have left, so that Stop can
      return; and every step of a worker leaves less to do, while no other step adds any. */
  lemma StopTerminates(s: State)
    requires Inv(s) && s.stop == Joining
    ensures Enabled(s, StopReturn) || exists a :: WorkerStep(a) && Enabled(s, a)
    ensures forall a :: Enabled(s, a) ==>
      WorkLeft(Apply(s, a)) <= WorkLeft(s) && (WorkerStep(a) ==> WorkLeft(Apply(s, a)) < WorkLeft(s))
  {
    forall a | Enabled(s, a)
      ensures WorkLeft(Apply(s, a)) <= WorkLeft(s) && (WorkerStep(a) ==> WorkLeft(Apply(s, a)) < WorkLeft(s))
    {
      if WorkerStep(a) { LessWork(s, a); } else { SameWork(s, Apply(s, a)); }
    }
    if !Enabled(s, StopReturn) {
      var w :| w in s.workers && s.workers[w] != Exited;
      var a := NextStep(s, w);
      assert WorkerStep(a) && Enabled(s, a);
    }
  }

  function NextStep(s: State, w: nat): Action
    requires w in s.workers && s.workers[w] != Exited
  {
    if s.workers[w].Holds? then (if s.workers[w].begun then Finish(w, Answer("")) else Begin(w))
    else if s.queue != [] then TakeJob(w) else Quit(w)
  }

  lemma SameWork(s: State, u: State)
    requires u.workers == s.workers && u.queue == s.queue
    ensures WorkLeft(u) == WorkLeft(s)
  {
    assert IdleOnes(u) == IdleOnes(s) && Waiting(u) == Waiting(s) && Busy(u) == Busy(s);
  }

  lemma LessWork(s: State, a: Action)
    requires Enabled(s, a) && WorkerStep(a)
    ensures WorkLeft(Apply(s, a)) < WorkLeft(s)
  {
    var u, w := Apply(s, a), a.worker;
    OneMoved(IdleOnes(s), IdleOnes(u), w);
    OneMoved(Waiting(s), Waiting(u), w);
    OneMoved(Busy(s), Busy(u), w);
  }

  lemma OneMoved(a: set<nat>, b: set<nat>, w: nat)
    requires a - {w} == b - {w}
    ensures |a| - (if w in a then 1 else 0) == |b| - (if w in b then 1 else 0)
  {
    assert w in a ==> a == (a - {w}) + {w};
    assert w in b ==> b == (b - {w}) + {w};
    assert w !in a ==> a == a - {w};
    assert w !in b ==> b == b - {w};
  }
}
