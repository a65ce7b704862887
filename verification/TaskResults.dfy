/** Where the results come from: over all runs, what a task shows is what its handler said,
    or why it has failed. */
module TaskResults {
  import opened Bytes
  import opened TaskProcessor
  import opened TaskProtocol

  /** Step `k` ended the work on job `id`, with this outcome. */
  ghost predicate FinishedWith(states: seq<State>, actions: seq<Action>, k: nat, id: string, outcome: Outcome) {
    && |states| == |actions| + 1 && k < |actions| && actions[k].Finish? && actions[k].outcome == outcome
    && actions[k].worker in states[k].workers && states[k].workers[actions[k].worker].Holds?
    && states[k].workers[actions[k].worker].job == id
  }

  /** Step `k` cancelled the task, which was known. */
  ghost predicate CancelledAt(states: seq<State>, actions: seq<Action>, k: nat, id: string) {
    |states| == |actions| + 1 && k < |actions| && actions[k] == CancelTask(id) && id in states[k].tasks
  }

  ghost predicate CancelledBefore(states: seq<State>, actions: seq<Action>, i: nat, id: string) {
    exists k: nat :: k < i && CancelledAt(states, actions, k, id)
  }

  ghost predicate AnsweredBefore(states: seq<State>, actions: seq<Action>, i: nat, id: string, outcome: Outcome) {
    exists k: nat :: k < i && FinishedWith(states, actions, k, id, outcome)
  }

  /** A task has failed because it was cancelled, or its handler threw, or the pool was
      stopped when it came. */
  ghost predicate Failing(states: seq<State>, actions: seq<Action>, i: nat, id: string, error: Option<string>)
    requires i < |states|
  {
    || (error == Some("cancelled") && CancelledBefore(states, actions, i, id))
    || (error.Some? && AnsweredBefore(states, actions, i, id, Threw(error.value)))
    || (error == Some("task processor stopped") && id !in states[i].accepted && id !in states[i].submitting)
  }

  /** The result of task `id` has its cause in the steps before `i`. */
  ghost predicate Caused(states: seq<State>, actions: seq<Action>, i: nat, id: string)
    requires i < |states| && id in states[i].tasks
  {
    var r := states[i].tasks[id];
    match r.status
    case Completed => r.error == None && r.response.Some?
      && AnsweredBefore(states, actions, i, id, Answer(r.response.value))
    case Failed => r.response == None && Failing(states, actions, i, id, r.error)
    case _ => r.response == None && r.error == None
  }

  lemma CauseStays(states: seq<State>, actions: seq<Action>, i: nat, id: string)
    requires Run(states, actions) && i + 1 < |states| && id in states[i].tasks && Caused(states, actions, i, id)
    requires id in states[i + 1].tasks && states[i + 1].tasks[id] == states[i].tasks[id]
    ensures Caused(states, actions, i + 1, id)
  {
    hide FinishedWith;
    assert StepAt(states, actions, i);
  }

  lemma NewCause(states: seq<State>, actions: seq<Action>, i: nat, id: string)
    requires Run(states, actions) && i + 1 < |states| && Inv(states[i])
    requires id in states[i + 1].tasks && (id in states[i].tasks ==> Caused(states, actions, i, id))
    requires id in states[i].tasks ==> states[i + 1].tasks[id] != states[i].tasks[id]
    ensures Caused(states, actions, i + 1, id)
  {
    assert StepAt(states, actions, i);
    var s, a := states[i], actions[i];
    match a
    case Finish(w, outcome) =>
      assert id == s.workers[w].job;
      assert FinishedWith(states, actions, i, id, outcome);
    case CancelTask(_) => assert CancelledAt(states, actions, i, id);
    case Refuse(_) =>
    case _ =>
  }

  /** Every result has its cause. */
  lemma {:induction false} ResultsHaveCauses(states: seq<State>, actions: seq<Action>, i: nat, id: string)
    requires Run(states, actions) && i < |states| && id in states[i].tasks
    ensures Caused(states, actions, i, id)
    decreases i
  {
    hide Caused, Inv;
    assert i > 0 by { assert Init(states[0]); }
    RunKeepsInv(states, actions, i - 1);
    if id in states[i - 1].tasks { ResultsHaveCauses(states, actions, i - 1, id); }
    if id in states[i - 1].tasks && states[i].tasks[id] == states[i - 1].tasks[id] {
      CauseStays(states, actions, i - 1, id);
    } else {
      NewCause(states, actions, i - 1, id);
    }
  }

  /** A job ends once: before, its task is known and accepted; from then on it is terminal. */
  lemma FinishedOnce(states: seq<State>, actions: seq<Action>, k: nat, id: string, outcome: Outcome)
    requires Run(states, actions) && FinishedWith(states, actions, k, id, outcome)
    ensures id in states[k].accepted && id !in states[k].finished && id in states[k + 1].finished
    ensures id in states[k + 1].tasks && Terminal(states[k + 1].tasks[id])
  {
    assert StepAt(states, actions, k);
    RunKeepsInv(states, actions, k);
    RunKeepsInv(states, actions, k + 1);
  }

  lemma OneEnd(states: seq<State>, actions: seq<Action>, c: nat, k: nat, id: string, first: Outcome, second: Outcome)
    requires Run(states, actions)
    requires FinishedWith(states, actions, c, id, first) && FinishedWith(states, actions, k, id, second)
    ensures c == k && first == second
  {
    hide Run, Forward, JobsGrow;
    FinishedOnce(states, actions, c, id, first);
    FinishedOnce(states, actions, k, id, second);
    if c < k {
      StillFinished(states, actions, c + 1, k, id);
    } else if k < c {
      StillFinished(states, actions, k + 1, c, id);
    }
  }

  lemma StillFinished(states: seq<State>, actions: seq<Action>, i: nat, j: nat, id: string)
    requires Run(states, actions) && i <= j < |states|
    ensures id in states[i].finished ==> id in states[j].finished
    ensures id in states[i].accepted ==> id in states[j].accepted
    ensures id in states[i].tasks && Terminal(states[i].tasks[id]) ==>
      id in states[j].tasks && states[j].tasks[id].status == states[i].tasks[id].status
  {
    RunForward(states, actions, i, j);
  }

  /** A task that was cancelled before its job ended has failed. */
  lemma CancelledFails(states: seq<State>, actions: seq<Action>, k: nat, id: string)
    requires Run(states, actions) && k < |states| && id !in states[k].finished
      && CancelledBefore(states, actions, k, id)
    ensures id in states[k].tasks && states[k].tasks[id].status == Failed
  {
    hide Run, Init, StepAt, Inv, QueueOk, WorkersOk;
    var c: nat :| c < k && CancelledAt(states, actions, c, id);
    StillFinished(states, actions, c, k, id);
    StillFinished(states, actions, c + 1, k, id);
    CancelStep(states, actions, c, id);
  }

  lemma CancelStep(states: seq<State>, actions: seq<Action>, c: nat, id: string)
    requires Run(states, actions) && CancelledAt(states, actions, c, id) && id !in states[c].finished
    ensures id in states[c + 1].tasks && states[c + 1].tasks[id].status == Failed
  {
    assert StepAt(states, actions, c);
    RunKeepsInv(states, actions, c);
  }

  /** What the handler answered is the response of the task from then on, unless the task had
      been cancelled before; what it threw is its error, unless it was cancelled. */
  lemma OutcomeIsShown(states: seq<State>, actions: seq<Action>, k: nat, j: nat, id: string, outcome: Outcome)
    requires Run(states, actions) && FinishedWith(states, actions, k, id, outcome) && k < j < |states|
    ensures id in states[j].tasks
    ensures outcome.Answer? ==>
      if CancelledBefore(states, actions, k, id) then states[j].tasks[id].status == Failed
      else states[j].tasks[id] == Result(Completed, Some(outcome.response), None)
    ensures outcome.Threw? ==>
      || states[j].tasks[id] == Result(Failed, None, Some(outcome.error))
      || (states[j].tasks[id] == Result(Failed, None, Some("cancelled")) && CancelledBefore(states, actions, j, id))
  {
    hide Run, Init, StepAt, Inv, FinishedWith, CancelledAt;
    FinishedOnce(states, actions, k, id, outcome);
    StillFinished(states, actions, k, k + 1, id);
    StillFinished(states, actions, k + 1, j, id);
    if CancelledBefore(states, actions, k, id) {
      CancelledFails(states, actions, k, id);
      StillFinished(states, actions, k, j, id);
    }
    EndShown(states, actions, k, k + 1, id, outcome);
    EndShown(states, actions, k, j, id, outcome);
    if CancelledBefore(states, actions, k + 1, id) { LastStep(states, actions, k, id, outcome); }
  }

  /** Step `k` itself is no cancelling. */
  lemma LastStep(states: seq<State>, actions: seq<Action>, k: nat, id: string, outcome: Outcome)
    requires FinishedWith(states, actions, k, id, outcome)
    requires CancelledBefore(states, actions, k + 1, id)
    ensures CancelledBefore(states, actions, k, id)
  {
  }

  /** The result of an ended job is what it ended with, unless it was cancelled. */
  lemma EndShown(states: seq<State>, actions: seq<Action>, k: nat, j: nat, id: string, outcome: Outcome)
    requires Run(states, actions) && FinishedWith(states, actions, k, id, outcome) && k < j < |states|
    requires id in states[j].tasks && Terminal(states[j].tasks[id]) && id in states[j].accepted
    ensures var r := states[j].tasks[id];
      || (outcome.Answer? && r == Result(Completed, Some(outcome.response), None))
      || (outcome.Threw? && r == Result(Failed, None, Some(outcome.error)))
      || (CancelledBefore(states, actions, j, id) && r == Result(Failed, None, Some("cancelled")))
  {
    hide Run, Init, StepAt, Inv, FinishedWith, CancelledAt;
    ResultsHaveCauses(states, actions, j, id);
    var r := states[j].tasks[id];
    if r.status == Completed {
      var c: nat :| c < j && FinishedWith(states, actions, c, id, Answer(r.response.value));
      OneEnd(states, actions, c, k, id, Answer(r.response.value), outcome);
    } else if !(r.error == Some("cancelled") && CancelledBefore(states, actions, j, id)) {
      var c: nat :| c < j && FinishedWith(states, actions, c, id, Threw(r.error.value));
      OneEnd(states, actions, c, k, id, Threw(r.error.value), outcome);
    }
  }

  // While a job runs.

  ghost predicate BegunBy(s: State, w: nat, id: string) { w in s.workers && s.workers[w] == Holds(id, true) }

  ghost predicate Begun(s: State, id: string) { exists w :: BegunBy(s, w, id) }

  ghost predicate ShowsWork(s: State) {
    forall id :: id in s.tasks && !Terminal(s.tasks[id]) ==> (s.tasks[id].status == Running <==> Begun(s, id))
  }

  /** A step of worker `w` has no effect on the jobs of others. */
  lemma OthersBegun(s: State, u: State, w: nat, id: string)
    requires w in s.workers && w in u.workers && u.workers == s.workers[w := u.workers[w]]
    requires u.workers[w] != Holds(id, true) && s.workers[w] != Holds(id, true)
    ensures Begun(u, id) <==> Begun(s, id)
  {
    if Begun(s, id) {
      var v :| BegunBy(s, v, id);
      assert BegunBy(u, v, id);
    }
    if Begun(u, id) {
      var v :| BegunBy(u, v, id);
      assert BegunBy(s, v, id);
    }
  }

  lemma SameBegun(s: State, u: State, id: string)
    requires u.workers == s.workers
    ensures Begun(u, id) <==> Begun(s, id)
  {
    assert forall w :: BegunBy(u, w, id) <==> BegunBy(s, w, id);
  }

  lemma WorkerShowsWork(s: State, a: Action, id: string)
    requires Inv(s) && ShowsWork(s) && Enabled(s, a) && WorkerStep(a)
    requires id in s.tasks && id in Apply(s, a).tasks && !Terminal(Apply(s, a).tasks[id])
    ensures Apply(s, a).tasks[id].status == Running <==> Begun(Apply(s, a), id)
  {
    hide Distinct, QueueOk, Held;
    var u, w := Apply(s, a), a.worker;
    if a.Begin? && id == s.workers[w].job {
      assert BegunBy(u, w, id);
    } else {
      OthersBegun(s, u, w, id);
    }
  }

  lemma StepShowsWork(s: State, a: Action)
    requires Inv(s) && ShowsWork(s) && Enabled(s, a)
    ensures ShowsWork(Apply(s, a))
  {
    hide Begun, Inv, TasksOk, QueueOk, WorkersOk;
    var u := Apply(s, a);
    forall id | id in u.tasks && !Terminal(u.tasks[id]) ensures u.tasks[id].status == Running <==> Begun(u, id) {
      if WorkerStep(a) {
        WorkerShowsWork(s, a, id);
      } else {
        SameBegun(s, u, id);
        if id !in s.tasks { NewIsNotBegun(s, id); }
      }
    }
  }

  lemma NewIsNotBegun(s: State, id: string)
    requires Inv(s) && id !in s.tasks
    ensures !Begun(s, id)
  {
    forall w ensures !BegunBy(s, w, id) {
      if w in s.workers && s.workers[w].Holds? { assert s.workers[w].job in s.accepted; }
    }
  }

  /** In every run a task that has not ended is shown as running exactly while a worker has
      begun its job, and as pending before. */
  lemma {:induction false} RunningIsBegun(states: seq<State>, actions: seq<Action>, i: nat)
    requires Run(states, actions) && i < |states|
    ensures ShowsWork(states[i])
    decreases i
  {
    hide Inv, Apply, Enabled;
    if i > 0 {
      RunningIsBegun(states, actions, i - 1);
      RunKeepsInv(states, actions, i - 1);
      assert StepAt(states, actions, i - 1);
      StepShowsWork(states[i - 1], actions[i - 1]);
    }
  }
}
