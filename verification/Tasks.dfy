/** The task lifecycle of kernel/src/task.rs. */
module Tasks {
  import opened Results

  type TaskId = nat
  type WorkflowId = nat

  datatype Priority = Low | Normal | High | Critical

  /** The capabilities that are gated by policy, and everything else. */
  datatype Capability = Finance | Medical | Legal | Robotics | General(token: string)

  datatype TaskState =
    Created | Queued | Planning | Running | Verifying | Completed | Failed | Rollback | Retry
  {
    predicate IsTerminal() {
      this == Completed
    }

    predicate CanTransitionTo(next: TaskState) {
      match (this, next)
      case (Created, Queued) => true
      case (Queued, Planning) => true
      case (Queued, Running) => true
      case (Planning, Running) => true
      case (Running, Verifying) => true
      case (Running, Failed) => true
      case (Verifying, Completed) => true
      case (Verifying, Failed) => true
      case (Failed, Rollback) => true
      case (Rollback, Retry) => true
      case (Retry, Queued) => true
      case _ => false
    }
  }

  datatype KernelError =
    | InvalidTransition(from: TaskState, to: TaskState)
    | PolicyDenied
    | NoRuntime
    | RuntimeFailure
    | Unorderable
    | RetriesExhausted(task: TaskId)

  /** One unit of work. Only `state`, `attempts`, `priority`, `workflow` and `dependsOn` ever change. */
  class Task {
    const id: TaskId
    const capability: Capability
    var workflow: Option<WorkflowId>
    var priority: Priority
    var dependsOn: seq<TaskId>
    var state: TaskState
    var attempts: nat

    constructor (id: TaskId, capability: Capability)
      ensures this.id == id && this.capability == capability
      ensures workflow == None && priority == Normal && dependsOn == []
      ensures state == Created && attempts == 0
    {
      this.id, this.capability := id, capability;
      workflow, priority, dependsOn := None, Normal, [];
      state, attempts := Created, 0;
    }

    /** The derived `clone`: a separate task with the same content. */
    constructor Clone(original: Task)
      ensures id == original.id && capability == original.capability
      ensures workflow == original.workflow && priority == original.priority
      ensures dependsOn == original.dependsOn
      ensures state == original.state && attempts == original.attempts
    {
      id, capability := original.id, original.capability;
      workflow, priority, dependsOn := original.workflow, original.priority, original.dependsOn;
      state, attempts := original.state, original.attempts;
    }

    /** A legal step moves the state and counts entries into `Retry`; an illegal one changes nothing. */
    method TransitionTo(next: TaskState) returns (r: Result<(), KernelError>)
      modifies this`state, this`attempts
      ensures r.Ok? <==> old(state).CanTransitionTo(next)
      ensures r.Ok? ==> state == next && attempts == old(attempts) + (if next == Retry then 1 else 0)
      ensures r.Err? ==> r.error == InvalidTransition(old(state), next)
      ensures r.Err? ==> state == old(state) && attempts == old(attempts)
    {
      if !state.CanTransitionTo(next) {
        return Err(InvalidTransition(state, next));
      }
      if next == Retry {
        attempts := attempts + 1;
      }
      state := next;
      return Ok(());
    }
  }

  // ---------------------------------------------------------------------------
  // Whole lifecycles
  // ---------------------------------------------------------------------------

  /** A run of the lifecycle: consecutive states joined by legal transitions, from `Created`. */
  ghost predicate Lifecycle(run: seq<TaskState>) {
    && |run| > 0
    && run[0] == Created
    && forall i, j :: 0 <= i < j < |run| && j == i + 1 ==> run[i].CanTransitionTo(run[j])
  }

  ghost function Visits(run: seq<TaskState>, s: TaskState): nat {
    multiset(run)[s]
  }

  /** Whether a task in this state has started one attempt more than it has retried. */
  ghost function OpenAttempts(s: TaskState): nat {
    if s in {Created, Queued, Planning, Retry} then 0 else 1
  }

  lemma VisitsAppend(run: seq<TaskState>, s: TaskState)
    ensures forall t :: Visits(run + [s], t) == Visits(run, t) + (if t == s then 1 else 0)
  {
  }

  lemma LegalStepCounts(s: TaskState, t: TaskState)
    requires s.CanTransitionTo(t)
    ensures OpenAttempts(t) + (if t == Retry then 1 else 0) == OpenAttempts(s) + (if t == Running then 1 else 0)
  {
  }

  /** Along every legal lifecycle the executions started exceed the retries counted by at most one,
      and by exactly one precisely when an attempt is open or has just ended. */
  lemma {:induction false} ExecutionsMatchRetries(run: seq<TaskState>)
    requires Lifecycle(run)
    ensures Visits(run, Running) == Visits(run, Retry) + OpenAttempts(run[|run| - 1])
  {
    var n := |run|;
    if n == 1 {
      assert run == [Created];
    } else {
      var init := run[..n - 1];
      assert forall i :: 0 <= i < |init| ==> init[i] == run[i];
      ExecutionsMatchRetries(init);
      LegalStepCounts(run[n - 2], run[n - 1]);
      VisitsAppend(init, run[n - 1]);
      assert run == init + [run[n - 1]];
    }
  }

  /** `Completed` ends every lifecycle: it is never left, and it is the only state with no way out. */
  lemma CompletedIsFinal(run: seq<TaskState>, i: nat)
    requires Lifecycle(run)
    requires i < |run| && run[i].IsTerminal()
    ensures i == |run| - 1
    ensures forall s: TaskState :: s.IsTerminal() <==> forall next: TaskState :: !s.CanTransitionTo(next)
  {
    assert i + 1 < |run| ==> run[i].CanTransitionTo(run[i + 1]);
    forall s: TaskState | !s.IsTerminal()
      ensures exists next: TaskState :: s.CanTransitionTo(next)
    {
      var next := match s
        case Created => Queued
        case Queued => Running
        case Planning => Running
        case Running => Verifying
        case Verifying => Failed
        case Failed => Rollback
        case Rollback => Retry
        case Retry => Queued
        case Completed => Created;
      assert s.CanTransitionTo(next);
    }
  }
}
