/** The execution loop of sdk/src/engine.rs: dispatch, execute, verify, retry. */
module Execution {
  import opened Results
  import opened Sequences
  import opened Tasks
  import opened Scores
  import opened Scheduling
  import opened Workflow
  import opened Trace
  import opened Schedules

  datatype ExecutionResult = ExecutionResult(task: TaskId, verified: bool, state: TaskState)

  predicate Sensitive(c: Capability)
    ensures Sensitive(c) <==> !c.General?
  {
    c in {Finance, Medical, Legal, Robotics}
  }

  // ---------------------------------------------------------------------------
  // What a whole run promises
  // ---------------------------------------------------------------------------

  ghost function TaskIds(results: seq<ExecutionResult>): (ids: seq<TaskId>)
    ensures |ids| == |results| && forall k :: 0 <= k < |ids| ==> ids[k] == results[k].task
  {
    seq(|results|, k requires 0 <= k < |results| => results[k].task)
  }

  /** Every task's events are some failed rounds, at most three, or at most two and then a success. */
  ghost predicate WellTraced(deps: Deps, events: seq<Event>) {
    && StartsAfterDeps(deps, events)
    && Starts(events) <= (MAX_TASK_RETRIES + 1) * |deps|
    && forall id :: id in deps ==> Failing(events, id) || Succeeded(events, id)
  }

  ghost predicate Failing(events: seq<Event>, id: TaskId) {
    exists j: nat :: j <= MAX_TASK_RETRIES + 1 && Project(events, id) == FailedRounds(id, j)
  }

  ghost predicate Succeeded(events: seq<Event>, id: TaskId) {
    exists j: nat :: j <= MAX_TASK_RETRIES && Project(events, id) == SuccessAfter(id, j)
  }

  ghost predicate GaveUp(events: seq<Event>, id: TaskId) {
    Project(events, id) == FailedRounds(id, MAX_TASK_RETRIES + 1)
  }

  /** The results belong to these tasks, in this order, each verified and completed. */
  ghost predicate AllCompleted(results: seq<ExecutionResult>, ids: seq<TaskId>) {
    && |results| == |ids|
    && forall k :: 0 <= k < |ids| ==> results[k] == ExecutionResult(ids[k], true, Completed)
  }

  /** An `Ok` run: results in dependency order, every one completed; tasks without a result never
      started; the completion event once, at the very end; nothing missing exactly when the
      workflow is runnable; and at every start the task that goes first. */
  ghost predicate CompletedRun(deps: Deps, w: Setting, workflow: WorkflowId, results: seq<ExecutionResult>,
                               events: seq<Event>)
    requires w.Knows(deps)
  {
    RanThrough(deps, workflow, results, events) && Obeys(deps, w, events)
  }

  ghost predicate RanThrough(deps: Deps, workflow: WorkflowId, results: seq<ExecutionResult>, events: seq<Event>) {
    var ids := TaskIds(results);
    && WellTraced(deps, events)
    && |events| > 0
    && events[|events| - 1] == WorkflowCompleted(workflow)
    && NeverFinishes(events[..|events| - 1])
    && AllCompleted(results, ids)
    && NoDup(ids)
    && (forall id :: id in ids ==> id in deps)
    && DoneInOrder(deps, ids)
    && (forall id :: id in deps ==> if id in ids then Succeeded(events, id) else Project(events, id) == [])
    && (|results| == |deps| <==> Runnable(deps))
  }

  /** A run that gave up: completion is never announced, and the error says what went wrong. */
  ghost predicate AbortedRun(deps: Deps, w: Setting, error: KernelError, events: seq<Event>)
    requires w.Knows(deps)
  {
    WellTraced(deps, events) && NeverFinishes(events) && Obeys(deps, w, events) && Explains(deps, w, error, events)
  }

  /** The task whose turn it was is denied, or has no runtime; or a task has failed for the third time, the last time in
      the runtime or in verification. */
  ghost predicate Explains(deps: Deps, w: Setting, error: KernelError, events: seq<Event>)
    requires w.Knows(deps)
  {
    match error
    case PolicyDenied =>
      && events != [] && events[|events| - 1] == PolicyViolation
      && var before := events[..|events| - 1];
         exists id :: GoesFirst(deps, w, before, id) && Denied(w, id, w.env.attempt(Starts(before)))
    case NoRuntime =>
      var a := w.env.attempt(Starts(events));
      exists id :: GoesFirst(deps, w, events, id) && !Denied(w, id, a) && !a.hasRuntime
    case RuntimeFailure =>
      Starts(events) > 0 && !w.env.attempt(Starts(events) - 1).runs && exists id :: id in deps && FailsLast(events, id)
    case RetriesExhausted(id) =>
      && id in deps && FailsLast(events, id)
      && Starts(events) > 0 && var a := w.env.attempt(Starts(events) - 1); a.runs && !a.passes
    case _ => false
  }

  ghost predicate FailsLast(events: seq<Event>, id: TaskId) {
    GaveUp(events, id) && events != [] && events[|events| - 1] == TaskFailed(id)
  }

  /** How an execution that starts from `Queued` ends. */
  ghost predicate Ends(w: Setting, id: TaskId, round: Round, a: Attempt)
    requires id in w.capability
  {
    match round
    case Drained => false
    case Finished(_) => !Denied(w, id, a) && a.hasRuntime && a.runs && a.passes
    case Retried => !Denied(w, id, a) && a.hasRuntime && !(a.runs && a.passes)
    case Aborted(error) =>
      if Denied(w, id, a) then error == PolicyDenied
      else if !a.hasRuntime then error == NoRuntime
      else if !a.runs then error == RuntimeFailure
      else error == RetriesExhausted(id) && !a.passes
  }

  lemma OneMoreEvent(events: seq<Event>, e: Event)
    requires e.PolicyViolation? || e.WorkflowCompleted?
    ensures forall id :: Project(events + [e], id) == Project(events, id)
    ensures Starts(events + [e]) == Starts(events)
    ensures forall deps :: StartsAfterDeps(deps, events) ==> StartsAfterDeps(deps, events + [e])
  {
    var now := events + [e];
    assert now[..|events|] == events;
    forall deps | StartsAfterDeps(deps, events)
      ensures StartsAfterDeps(deps, now)
    {
      forall k, d | 0 <= k < |now| && now[k].TaskStarted? && now[k].task in deps && d in deps[now[k].task]
        ensures TaskCompleted(d) in now[..k]
      {
        assert now[..k] == events[..k];
      }
    }
  }

  ghost predicate Counted(deps: Deps, ids: seq<TaskId>, t: Trail)
    requires forall id :: id in ids ==> id in t.tries
  {
    && NoDup(ids) && Elems(ids) == deps.Keys
    && Starts(t.events) == |t.done| + Total(ids, t.tries)
  }

  // ---------------------------------------------------------------------------
  // The queue during a run
  // ---------------------------------------------------------------------------

  ghost predicate DistinctTasks(pending: seq<Pending>) {
    forall i, j :: 0 <= i < j < |pending| ==> pending[i].task.id != pending[j].task.id
  }

  ghost function IdsOf(pending: seq<Pending>): set<TaskId> {
    set p | p in pending :: p.task.id
  }

  lemma DispatchLeaves(pending: seq<Pending>, at: nat)
    requires at < |pending| && DistinctTasks(pending)
    ensures var rest := SwapRemove(pending, at);
            && DistinctTasks(rest)
            && IdsOf(rest) == IdsOf(pending) - {pending[at].task.id}
            && (forall p :: p in rest ==> p in pending && p.task != pending[at].task)
  {
    var rest, last := SwapRemove(pending, at), |pending| - 1;
    assert forall i :: 0 <= i < |rest| ==> rest[i] == pending[if i == at then last else i];
    forall p | p in pending && p != pending[at]
      ensures p in rest
    {
      var i :| 0 <= i < |pending| && pending[i] == p;
      assert p == rest[if i == last then at else i];
    }
  }

  /** A queued task is the workflow's own, not yet running, and has used the retries recorded for it. */
  ghost predicate Fits(task: Task, deps: Deps, tries: map<TaskId, nat>)
    reads task
  {
    && task.id in deps && task.id in tries
    && task.dependsOn == deps[task.id]
    && task.attempts == tries[task.id]
    && task.state in {Created, Queued}
  }

  ghost predicate QueueFits(pending: seq<Pending>, ids: set<TaskId>, deps: Deps, tries: map<TaskId, nat>)
    reads set p | p in pending :: p.task
  {
    && DistinctTasks(pending)
    && IdsOf(pending) == ids
    && forall p :: p in pending ==> Fits(p.task, deps, tries)
  }

  /** A queued task has its priority and capability, the factors of this submission, and the stamp of its last one. */
  ghost predicate Suits(p: Pending, w: Setting, events: seq<Event>)
    reads p.task
  {
    && p.task.id in w.priority && p.task.id in w.capability
    && p.task.priority == w.priority[p.task.id] && p.task.capability == w.capability[p.task.id]
    && p.task.attempts == Fails(events, p.task.id)
    && p.factors == w.env.factors(p.task.id, Fails(events, p.task.id))
    && p.enqueuedAt == Since(events, p.task.id)
  }

  ghost predicate Suited(pending: seq<Pending>, w: Setting, events: seq<Event>)
    reads set p | p in pending :: p.task
  {
    forall p :: p in pending ==> Suits(p, w, events)
  }

  lemma SuitsWorth(p: Pending, w: Setting, events: seq<Event>)
    requires Suits(p, w, events)
    ensures Effective(p.View(), Starts(events) + 1, DEFAULT_AGING_RATE) == Worth(w, events, p.task.id)
  {
  }

  /** An attempt changes nothing for the other tasks in the queue. */
  lemma OthersSuited(rest: seq<Pending>, w: Setting, events: seq<Event>, id: TaskId, good: bool)
    requires Suited(rest, w, events) && forall p :: p in rest ==> p.task.id != id
    ensures Suited(rest, w, events + [TaskStarted(id), if good then TaskCompleted(id) else TaskFailed(id)])
  {
    AfterAttempt(events, id, good);
    hide Fails, Since;
  }

  /** How one round of the loop ended. */
  datatype Round = Drained | Finished(result: ExecutionResult) | Retried | Aborted(error: KernelError)

  /** The trail after a round that executed `id` and goes on. */
  ghost function AfterRound(t: Trail, id: TaskId, round: Round): Trail
    requires id in t.tries
  {
    if round.Finished? then
      Trail(t.pending - {id}, t.tries, t.done + [id], t.events + [TaskStarted(id), TaskCompleted(id)])
    else
      Trail(t.pending, t.tries[id := t.tries[id] + 1], t.done, t.events + [TaskStarted(id), TaskFailed(id)])
  }

  lemma Regroup(a: seq<Event>, b: seq<Event>, c: seq<Event>)
    ensures (a + b) + c == a + (b + c)
  {
  }

  /** A run so far: the workflow's dependencies and task ids, and the trail. */
  datatype RunState = RunState(deps: Deps, ids: seq<TaskId>, trail: Trail)

  ghost predicate SoundState(s: RunState) {
    Inv(s.deps, s.trail) && Elems(s.ids) == s.deps.Keys && Counted(s.deps, s.ids, s.trail)
  }

  /** The states a run can be in between two rounds. */
  type Run = s: RunState | SoundState(s) ghost witness NoRun()

  ghost function NoRun(): (s: RunState)
    ensures SoundState(s)
  {
    InvInitially(map[]);
    assert Elems<TaskId>([]) == {};
    RunState(map[], [], Unstarted(map[]))
  }

  /** The rounds after which a run continues: a success, or a failure within the budget. */
  ghost predicate GoesOn(s: Run, id: TaskId, round: Round) {
    && id in s.trail.pending && AllDone(s.deps[id], s.trail.done)
    && match round
       case Finished(result) => result == ExecutionResult(id, true, Completed)
       case Retried => s.trail.tries[id] < MAX_TASK_RETRIES
       case _ => false
  }

  ghost function NextState(s: Run, id: TaskId, round: Round): (r: Run)
    requires GoesOn(s, id, round)
    ensures r == s.(trail := AfterRound(s.trail, id, round))
  {
    GoingOnIsSound(s, id, round);
    s.(trail := AfterRound(s.trail, id, round))
  }

  lemma GoingOnIsSound(s: Run, id: TaskId, round: Round)
    requires GoesOn(s, id, round)
    ensures SoundState(s.(trail := AfterRound(s.trail, id, round)))
    ensures Starts(AfterRound(s.trail, id, round).events) == Starts(s.trail.events) + 1
    ensures Elems(AfterRound(s.trail, id, round).done) == Elems(s.trail.done) + if round.Finished? then {id} else {}
    ensures AfterRound(s.trail, id, round).events == s.trail.events + Published(id, round)
  {
    hide Inv, Counted;
    RoundIsCounted(s, id, round);
    if round.Finished? {
      CompletionKeepsInv(s.deps, s.trail, id);
      assert Elems(s.trail.done + [id]) == Elems(s.trail.done) + {id};
    } else {
      RetryKeepsInv(s.deps, s.trail, id);
    }
  }

  lemma RoundIsCounted(s: Run, id: TaskId, round: Round)
    requires GoesOn(s, id, round)
    ensures Counted(s.deps, s.ids, AfterRound(s.trail, id, round))
    ensures Starts(AfterRound(s.trail, id, round).events) == Starts(s.trail.events) + 1
  {
    hide Traced;
    ProjectTwo(s.trail.events, TaskStarted(id), TaskCompleted(id), id);
    ProjectTwo(s.trail.events, TaskStarted(id), TaskFailed(id), id);
    TotalAfterRetry(s.ids, s.trail.tries, id);
    assert id in Elems(s.ids);
  }

  ghost function Unstarted(deps: Deps): Trail {
    Trail(deps.Keys, NoTries(deps), [], [])
  }

  ghost function StartRun(deps: Deps, ids: seq<TaskId>): (r: Run)
    requires NoDup(ids) && Elems(ids) == deps.Keys
    ensures r == RunState(deps, ids, Unstarted(deps))
  {
    assert forall id :: id in ids ==> id in Elems(ids);
    TotalBound(ids, NoTries(deps), 0);
    InvInitially(deps);
    RunState(deps, ids, Unstarted(deps))
  }

  /** What a round publishes for the task it executed. */
  ghost function Published(id: TaskId, round: Round): seq<Event> {
    match round
    case Drained => []
    case Finished(_) => [TaskStarted(id), TaskCompleted(id)]
    case Retried => [TaskStarted(id), TaskFailed(id)]
    case Aborted(e) =>
      if e.NoRuntime? then [] else if e.PolicyDenied? then [PolicyViolation] else [TaskStarted(id), TaskFailed(id)]
  }

  /** So far every start was that of the task that went first. */
  ghost predicate Followed(s: Run, w: Setting) {
    && w.Knows(s.deps) && Obeys(s.deps, w, s.trail.events)
    && forall d :: TaskCompleted(d) in s.trail.events <==> d in s.trail.done
  }

  lemma FollowedNext(s: Run, w: Setting, id: TaskId, round: Round)
    requires GoesOn(s, id, round) && Followed(s, w) && GoesFirst(s.deps, w, s.trail.events, id)
    requires Ends(w, id, round, w.env.attempt(Starts(s.trail.events)))
    ensures Followed(NextState(s, id, round), w)
  {
    hide SoundState, Obeys, GoesFirst, Denied;
    ObeysStart(s.deps, w, s.trail.events, id, round.Finished?);
    AfterAttempt(s.trail.events, id, round.Finished?);
  }

  lemma InvIsWellTraced(s: Run)
    ensures WellTraced(s.deps, s.trail.events)
    ensures Starts(s.trail.events) + |s.trail.pending| <= (MAX_TASK_RETRIES + 1) * |s.deps|
    ensures |s.trail.done| + |s.trail.pending| == |s.deps|
  {
    var t := s.trail;
    ElemsCardinality(s.ids);
    ElemsCardinality(t.done);
    TotalBound(s.ids, t.tries, MAX_TASK_RETRIES);
    assert |t.pending + Elems(t.done)| == |t.pending| + |Elems(t.done)|;
    assert |s.deps.Keys| == |s.deps|;
    forall id | id in s.deps
      ensures Failing(t.events, id) || Succeeded(t.events, id)
    {
      assert id in t.pending || id in Elems(t.done);
    }
  }

  lemma FinishRun(s: Run, w: Setting, workflow: WorkflowId, results: seq<ExecutionResult>, deps: Deps,
                  events: seq<Event>)
    requires NothingCanRun(s) && AllCompleted(results, s.trail.done) && Followed(s, w)
    requires deps == s.deps && events == s.trail.events + [WorkflowCompleted(workflow)]
    ensures w.Knows(deps) && CompletedRun(deps, w, workflow, results, events)
  {
    RunThrough(s, workflow, results);
    hide SoundState, Obeys, RanThrough, NothingCanRun;
    ObeysNext(deps, w, s.trail.events, [WorkflowCompleted(workflow)]);
  }

  lemma RunThrough(s: Run, workflow: WorkflowId, results: seq<ExecutionResult>)
    requires NothingCanRun(s) && AllCompleted(results, s.trail.done)
    ensures RanThrough(s.deps, workflow, results, s.trail.events + [WorkflowCompleted(workflow)])
  {
    var t, events := s.trail, s.trail.events + [WorkflowCompleted(workflow)];
    assert TaskIds(results) == t.done;
    InvIsWellTraced(s);
    OneMoreEvent(t.events, WorkflowCompleted(workflow));
    assert events[..|events| - 1] == t.events;
    FinishedTrace(s, events);
    CompleteIffRunnable(s);
  }

  /** When nothing queued can run, everything is done exactly if the workflow is runnable. */
  lemma CompleteIffRunnable(s: Run)
    requires NothingCanRun(s)
    ensures |s.trail.done| == |s.deps| <==> Runnable(s.deps)
  {
    InvIsWellTraced(s);
    if s.trail.pending == {} {
      FinishedIsRunnable(s.deps, s.trail);
    } else if Runnable(s.deps) {
      var id := UnfinishedHasReady(s.deps, s.trail);
    }
  }

  /** Once nothing more can run, every task has either succeeded or never started. */
  lemma FinishedTrace(s: Run, events: seq<Event>)
    requires NothingCanRun(s)
    requires forall id :: Project(events, id) == Project(s.trail.events, id)
    ensures forall id :: id in s.trail.done ==> id in s.deps
    ensures forall id :: id in s.deps ==>
              if id in s.trail.done then Succeeded(events, id) else Project(events, id) == []
    ensures forall id :: id in s.deps ==> Failing(events, id) || Succeeded(events, id)
  {
    var t := s.trail;
    forall id | id in t.done
      ensures id in s.deps && Succeeded(events, id)
    {
      assert id in Elems(t.done);
      assert Project(events, id) == SuccessAfter(id, t.tries[id]);
    }
    forall id | id in s.deps && id !in t.done
      ensures Project(events, id) == [] && Failing(events, id)
    {
      assert id in t.pending;
      assert Project(events, id) == FailedRounds(id, 0);
    }
  }

  lemma AbandonedUnstarted(s: Run, w: Setting, id: TaskId, error: KernelError)
    requires GivenUp(s, w, id, error) && (error.PolicyDenied? || error.NoRuntime?)
    ensures AbortedRun(s.deps, w, error, s.trail.events + Published(id, Aborted(error)))
  {
    hide SoundState, WellTraced, NeverFinishes, AbortedRun, Published, Obeys, GoesFirst, Denied;
    InvIsWellTraced(s);
    InvNeverFinishes(s);
    AbandonedTrace(s.deps, w, s.trail.events, id, error);
  }

  lemma AbandonedTrace(deps: Deps, w: Setting, events: seq<Event>, id: TaskId, error: KernelError)
    requires error.PolicyDenied? || error.NoRuntime?
    requires w.Knows(deps) && WellTraced(deps, events) && NeverFinishes(events) && Obeys(deps, w, events)
    requires GoesFirst(deps, w, events, id) && Ends(w, id, Aborted(error), w.env.attempt(Starts(events)))
    ensures AbortedRun(deps, w, error, events + Published(id, Aborted(error)))
  {
    hide WellTraced, NeverFinishes, Obeys, GoesFirst, Denied;
    if error.PolicyDenied? {
      ViolationKeepsTrace(deps, events);
      ObeysNext(deps, w, events, [PolicyViolation]);
      var now := events + [PolicyViolation];
      assert now[|events|] == PolicyViolation && now[..|now| - 1] == events;
    } else {
      assert events + [] == events;
    }
  }

  lemma InvNeverFinishes(s: Run)
    ensures NeverFinishes(s.trail.events)
  {
  }

  /** A policy violation is nobody's event. */
  lemma ViolationKeepsTrace(deps: Deps, events: seq<Event>)
    requires WellTraced(deps, events) && NeverFinishes(events)
    ensures WellTraced(deps, events + [PolicyViolation]) && NeverFinishes(events + [PolicyViolation])
  {
    hide StartsAfterDeps, Starts, Project, FailedRounds, SuccessAfter;
    var now := events + [PolicyViolation];
    OneMoreEvent(events, PolicyViolation);
    forall id | id in deps
      ensures Failing(now, id) || Succeeded(now, id)
    {
      assert Project(now, id) == Project(events, id);
      assert Failing(events, id) || Succeeded(events, id);
    }
  }

  lemma AbandonedFailing(s: Run, id: TaskId)
    requires id in s.trail.pending && AllDone(s.deps[id], s.trail.done) && s.trail.tries[id] == MAX_TASK_RETRIES
    ensures var now := s.trail.events + [TaskStarted(id), TaskFailed(id)];
            WellTraced(s.deps, now) && NeverFinishes(now) && GaveUp(now, id)
  {
    var t := s.trail;
    var now := t.events + [TaskStarted(id), TaskFailed(id)];
    hide Traced, StartsAfterDeps;
    InvIsWellTraced(s);
    LastFailure(s.deps, t, id);
    ProjectTwo(t.events, TaskStarted(id), TaskFailed(id), id);
    SubsetCardinality({id}, t.pending);
    forall x | x in s.deps
      ensures Failing(now, x) || Succeeded(now, x)
    {
      assert if x == id then GaveUp(now, x) else Project(now, x) == Project(t.events, x);
    }
  }

  lemma AbandonedRun(s: Run, w: Setting, id: TaskId, error: KernelError, deps: Deps, events: seq<Event>)
    requires GivenUp(s, w, id, error)
    requires deps == s.deps && events == s.trail.events + Published(id, Aborted(error))
    ensures error != Unorderable && w.Knows(deps) && AbortedRun(deps, w, error, events)
  {
    hide SoundState, Obeys, GoesFirst, Denied, WellTraced, NeverFinishes;
    if error.PolicyDenied? || error.NoRuntime? {
      AbandonedUnstarted(s, w, id, error);
    } else {
      PendingIsKnown(s, id);
      AbandonedFailing(s, id);
      FailedTrace(deps, w, s.trail.events, id, error);
    }
  }

  lemma FailedTrace(deps: Deps, w: Setting, before: seq<Event>, id: TaskId, error: KernelError)
    requires !error.PolicyDenied? && !error.NoRuntime?
    requires w.Knows(deps) && id in deps && Obeys(deps, w, before) && GoesFirst(deps, w, before, id)
    requires Ends(w, id, Aborted(error), w.env.attempt(Starts(before)))
    requires var now := before + [TaskStarted(id), TaskFailed(id)];
             WellTraced(deps, now) && NeverFinishes(now) && GaveUp(now, id)
    ensures AbortedRun(deps, w, error, before + Published(id, Aborted(error)))
  {
    ObeysStart(deps, w, before, id, false);
    FailureExplained(deps, w, before, id, error);
    hide Obeys, GoesFirst, Ends, WellTraced, NeverFinishes, Explains, GaveUp;
    var now := before + [TaskStarted(id), if false then TaskCompleted(id) else TaskFailed(id)];
    assert now == before + [TaskStarted(id), TaskFailed(id)];
  }

  lemma FailureExplained(deps: Deps, w: Setting, before: seq<Event>, id: TaskId, error: KernelError)
    requires !error.PolicyDenied? && !error.NoRuntime? && w.Knows(deps) && id in deps
    requires Ends(w, id, Aborted(error), w.env.attempt(Starts(before)))
    requires GaveUp(before + [TaskStarted(id), TaskFailed(id)], id)
    ensures Explains(deps, w, error, before + [TaskStarted(id), TaskFailed(id)])
  {
    var now := before + [TaskStarted(id), TaskFailed(id)];
    ProjectTwo(before, TaskStarted(id), TaskFailed(id), id);
    assert Starts(now) == Starts(before) + 1;
    hide GaveUp, Starts, Denied, GoesFirst, Project;
    assert now[|now| - 1] == TaskFailed(id);
    assert FailsLast(now, id);
    assert w.env.attempt(Starts(now) - 1) == w.env.attempt(Starts(before));
  }

  lemma PendingIsKnown(s: Run, id: TaskId)
    requires id in s.trail.pending
    ensures id in s.deps && id in s.trail.tries && s.trail.tries[id] <= MAX_TASK_RETRIES
  {
  }

  lemma NothingReady(pending: seq<Pending>, queue: seq<Entry>, deps: Deps, t: Trail)
    requires queue == Views(pending) && Inv(deps, t) && NoneReady(queue, Elems(t.done))
    requires QueueFits(pending, t.pending, deps, t.tries)
    ensures forall id :: id in t.pending ==> !AllDone(deps[id], t.done)
  {
    forall id | id in t.pending
      ensures !AllDone(deps[id], t.done)
    {
      var p :| p in pending && p.task.id == id;
      var i :| 0 <= i < |pending| && pending[i] == p;
      assert queue[i] in queue;
      var d :| d in queue[i].deps && d !in Elems(t.done);
      assert d in deps[id];
    }
  }

  lemma NothingQueuedReady(pending: seq<Pending>, s: Run)
    requires Queues(pending, s) && NoneReady(Views(pending), Elems(s.trail.done))
    ensures NothingCanRun(s)
  {
    hide Traced, Counted;
    NothingReady(pending, Views(pending), s.deps, s.trail);
  }

  lemma DispatchedIsTaken(pending: seq<Pending>, at: nat, s: Run)
    requires Queues(pending, s) && at < |pending| && Ready(Views(pending)[at], Elems(s.trail.done))
    ensures IsTaken(pending[at].task, SwapRemove(pending, at), s.deps, s.trail)
    ensures forall p :: p in SwapRemove(pending, at) ==> p in pending
  {
    hide Traced, Counted;
    DispatchLeaves(pending, at);
    assert pending[at] in pending;
    assert Views(pending)[at] == pending[at].View();
    assert AllDone(s.deps[pending[at].task.id], s.trail.done);
  }

  /** `task` was dispatched, ready, from a queue that fits the trail, and is no longer in it. */
  ghost predicate IsTaken(task: Task, pending: seq<Pending>, deps: Deps, t: Trail)
    reads task, set p | p in pending :: p.task
  {
    && Fits(task, deps, t.tries)
    && task.id in t.pending && AllDone(deps[task.id], t.done)
    && QueueFits(pending, t.pending - {task.id}, deps, t.tries)
    && forall p :: p in pending ==> p.task != task
  }

  lemma RestAreOthers(rest: seq<Pending>, ids: set<TaskId>, deps: Deps, tries: map<TaskId, nat>, id: TaskId)
    requires QueueFits(rest, ids - {id}, deps, tries)
    ensures forall p :: p in rest ==> p.task.id != id
  {
    assert forall p :: p in rest ==> p.task.id in IdsOf(rest);
  }

  lemma QueueRegains(rest: seq<Pending>, pending: seq<Pending>, deps: Deps, t: Trail, id: TaskId)
    requires id in t.pending && id in t.tries
    requires QueueFits(rest, t.pending - {id}, deps, t.tries)
    requires |pending| == |rest| + 1 && pending == rest + [pending[|rest|]]
    requires Fits(pending[|rest|].task, deps, t.tries[id := t.tries[id] + 1]) && pending[|rest|].task.id == id
    ensures QueueFits(pending, t.pending, deps, t.tries[id := t.tries[id] + 1])
  {
    forall p | p in rest
      ensures p.task.id != id
    {
      assert p.task.id in IdsOf(rest);
    }
    assert pending[|rest|] in pending;
    assert forall p :: p in pending <==> p in rest || p == pending[|rest|];
    assert forall i :: 0 <= i < |rest| ==> pending[i] == rest[i] && rest[i] in rest;
    assert IdsOf(pending) == IdsOf(rest) + {id};
  }

  ghost predicate NothingCanRun(s: Run) {
    forall id :: id in s.trail.pending ==> !AllDone(s.deps[id], s.trail.done)
  }

  /** It was the turn of `id`, and it was given up on with this error. */
  ghost predicate GivenUp(s: Run, w: Setting, id: TaskId, error: KernelError) {
    && id in s.trail.pending && AllDone(s.deps[id], s.trail.done)
    && Followed(s, w) && GoesFirst(s.deps, w, s.trail.events, id)
    && Ends(w, id, Aborted(error), w.env.attempt(Starts(s.trail.events)))
    && (!error.PolicyDenied? && !error.NoRuntime? ==> s.trail.tries[id] == MAX_TASK_RETRIES)
  }

  /** The queue holds exactly the run's pending tasks, each fitting the trail. */
  ghost predicate Queues(pending: seq<Pending>, s: Run)
    reads set p | p in pending :: p.task
  {
    QueueFits(pending, s.trail.pending, s.deps, s.trail.tries)
  }

  /** The queue goes by the setting, and its clock counts the starts. */
  ghost predicate InStep(scheduler: Scheduler, s: Run, w: Setting)
    reads scheduler, set p | p in scheduler.pending :: p.task
  {
    && Followed(s, w) && Suited(scheduler.pending, w, s.trail.events)
    && scheduler.clock == Starts(s.trail.events) && scheduler.agingRate == DEFAULT_AGING_RATE
  }

  /** The best entry of a queue that goes by the setting is that of the task that goes first. */
  lemma BestGoesFirst(queue: seq<Pending>, at: nat, s: Run, w: Setting)
    requires Queues(queue, s) && Followed(s, w) && Suited(queue, w, s.trail.events)
    requires IsBest(Views(queue), Elems(s.trail.done), Starts(s.trail.events) + 1, DEFAULT_AGING_RATE, at)
    ensures at < |queue| && w.Knows(s.deps) && GoesFirst(s.deps, w, s.trail.events, queue[at].task.id)
    ensures Ready(Views(queue)[at], Elems(s.trail.done)) && queue[at] in queue
  {
    hide SoundState, Effective, Worth, Obeys, Suits, QueueFits;
    var t, id := s.trail, queue[at].task.id;
    StartsFromQueue(queue, s, w, at);
    SuitsWorth(queue[at], w, t.events);
    forall x | CanStart(s.deps, t.events, x)
      ensures Worth(w, t.events, x) <= Worth(w, t.events, id)
    {
      var i := InQueue(queue, s, w, x);
      SuitsWorth(queue[i], w, t.events);
    }
  }

  lemma StartsFromQueue(queue: seq<Pending>, s: Run, w: Setting, at: nat)
    requires Queues(queue, s) && Followed(s, w) && at < |queue| && Ready(Views(queue)[at], Elems(s.trail.done))
    ensures queue[at] in queue && CanStart(s.deps, s.trail.events, queue[at].task.id)
  {
    hide Obeys, Counted, Traced;
    assert queue[at] in queue;
    assert queue[at].task.id in IdsOf(queue);
  }

  /** What can start is in the queue, ready. */
  lemma InQueue(queue: seq<Pending>, s: Run, w: Setting, x: TaskId) returns (i: nat)
    requires Queues(queue, s) && Followed(s, w) && CanStart(s.deps, s.trail.events, x)
    ensures i < |queue| && queue[i] in queue && queue[i].task.id == x
    ensures Ready(Views(queue)[i], Elems(s.trail.done))
  {
    hide Obeys, Counted, Traced;
    assert x in IdsOf(queue);
    var p :| p in queue && p.task.id == x;
    i :| 0 <= i < |queue| && queue[i] == p;
  }

  lemma AddResult(results: seq<ExecutionResult>, done: seq<TaskId>, id: TaskId, round: Round)
    requires AllCompleted(results, done)
    ensures round == Finished(ExecutionResult(id, true, Completed)) ==>
              AllCompleted(results + [round.result], done + [id])
  {
  }

  ghost function StepIds(steps: seq<Step>): (ids: seq<TaskId>)
    ensures |ids| == |steps| && forall i :: 0 <= i < |steps| ==> ids[i] == steps[i].task.id
  {
    seq(|steps|, i requires 0 <= i < |steps| => steps[i].task.id)
  }

  /** What each task of the workflow waits for, by id. */
  ghost function DepsOf(steps: seq<Step>): (deps: Deps)
    reads set s | s in steps :: s.task
    ensures deps.Keys == Elems(StepIds(steps))
    ensures NoDup(StepIds(steps)) ==>
              forall s :: s in steps ==> s.task.id in deps && deps[s.task.id] == s.task.dependsOn
  {
    var ids := StepIds(steps);
    assert forall s :: s in steps ==> s.task.id in ids;
    map id | id in ids :: steps[PositionOf(ids, id)].task.dependsOn
  }

  /** What a run of the workflow goes by: every task has a priority of its own or that of the agent that serves it. */
  ghost function SettingOf(steps: seq<Step>, env: Environment, gated: bool): (w: Setting)
    reads set s | s in steps :: s.task
    ensures w.env == env && w.gated == gated && w.Knows(DepsOf(steps))
    ensures NoDup(StepIds(steps)) ==>
              forall s :: s in steps ==>
                && Adopted(w.priority[s.task.id], s.task.priority, env.agentPriority(s.task.capability))
                && w.capability[s.task.id] == s.task.capability
  {
    Setting(env, gated, PrioritiesOf(steps, env), CapabilitiesOf(steps))
  }

  ghost function PrioritiesOf(steps: seq<Step>, env: Environment): (m: map<TaskId, Priority>)
    reads set s | s in steps :: s.task
    ensures m.Keys == Elems(StepIds(steps))
    ensures NoDup(StepIds(steps)) ==>
              forall s :: s in steps ==>
                s.task.id in m && Adopted(m[s.task.id], s.task.priority, env.agentPriority(s.task.capability))
  {
    hide Adopted;
    var ids := StepIds(steps);
    assert forall s :: s in steps ==> s.task.id in ids;
    map id | id in ids :: AdoptedBy(steps[PositionOf(ids, id)].task, env)
  }

  ghost function CapabilitiesOf(steps: seq<Step>): (m: map<TaskId, Capability>)
    reads set s | s in steps :: s.task
    ensures m.Keys == Elems(StepIds(steps))
    ensures NoDup(StepIds(steps)) ==>
              forall s :: s in steps ==> s.task.id in m && m[s.task.id] == s.task.capability
  {
    var ids := StepIds(steps);
    assert forall s :: s in steps ==> s.task.id in ids;
    map id | id in ids :: steps[PositionOf(ids, id)].task.capability
  }

  ghost function AdoptedBy(task: Task, env: Environment): (p: Priority)
    reads task
    ensures Adopted(p, task.priority, env.agentPriority(task.capability))
  {
    var agent := env.agentPriority(task.capability);
    if task.priority == Normal && agent.Some? then agent.value else task.priority
  }

  /** Task ids are minted per task, and tasks enter a workflow as they were created. */
  ghost predicate FreshTasks(steps: seq<Step>)
    reads set s | s in steps :: s.task
  {
    && NoDup(StepIds(steps))
    && forall s :: s in steps ==> s.task.state == Created && s.task.attempts == 0
  }

  /** In a workflow built from its own handles and tasks without preset dependencies, everything can run. */
  lemma SelfContainedRuns(steps: seq<Step>)
    requires NoDup(StepIds(steps)) && SelfContained(steps)
    ensures Runnable(DepsOf(steps))
  {
    hide SelfContained, DepsOf;
    var ids, deps := StepIds(steps), DepsOf(steps);
    var rank := map id | id in deps :: PositionOf(ids, id);
    forall id, d | id in deps && d in deps[id]
      ensures d in deps && rank[d] < rank[id]
    {
      var i := PositionOf(ids, id);
      assert steps[i] in steps;
      DependencyComesEarlier(steps, i, d);
    }
    assert Ranks(deps, rank);
  }

  lemma DependencyComesEarlier(steps: seq<Step>, i: nat, d: TaskId)
    requires NoDup(StepIds(steps)) && SelfContained(steps)
    requires i < |steps| && d in steps[i].task.dependsOn
    ensures d in StepIds(steps) && PositionOf(StepIds(steps), d) < i
  {
    KnownIdsName(steps, steps[i].deps, d);
    var j :| j in steps[i].deps && j < |steps| && steps[j].task.id == d;
    assert StepIds(steps)[j] == d;
  }

  /** A dependency on a task outside the workflow can never be met, whatever the rest looks like. */
  lemma OutsideDependencyNeverRuns(deps: Deps, id: TaskId, d: TaskId)
    requires id in deps && d in deps[id] && d !in deps
    ensures !Runnable(deps)
  {
    if rank: map<TaskId, nat> :| Ranks(deps, rank) {
      assert false;
    }
  }

  // ---------------------------------------------------------------------------
  // The engine
  // ---------------------------------------------------------------------------

  class Engine {
    /** Whether a policy and an identity were configured. */
    const gated: bool
    var events: seq<Event>

    constructor (gated: bool)
      ensures this.gated == gated && events == []
    {
      this.gated, events := gated, [];
    }

    method Publish(e: Event)
      modifies this`events
      ensures events == old(events) + [e]
    {
      events := events + [e];
    }

    ghost predicate Denies(c: Capability, a: Attempt) {
      gated && !c.General? && !a.allowed
    }

    /** Runs one task once. The task's state and the published events always tell the same story:
        a denied or unroutable task stays queued and never starts, a started one ends completed or failed. */
    method Execute(task: Task, a: Attempt) returns (r: Result<ExecutionResult, KernelError>)
      modifies this`events, task`state, task`attempts
      ensures task.attempts == old(task.attempts)
      ensures var queued := if old(task.state) == Created then Queued else old(task.state);
              if Denies(task.capability, a) then
                r == Err(PolicyDenied) && task.state == queued && events == old(events) + [PolicyViolation]
              else if !a.hasRuntime then
                r == Err(NoRuntime) && task.state == queued && events == old(events)
              else if queued !in {Queued, Planning} then
                r == Err(InvalidTransition(queued, Running)) && task.state == queued && events == old(events)
              else if !a.runs then
                && r == Err(RuntimeFailure) && task.state == Failed
                && events == old(events) + [TaskStarted(task.id), TaskFailed(task.id)]
              else if !a.passes then
                && r == Ok(ExecutionResult(task.id, false, Failed)) && task.state == Failed
                && events == old(events) + [TaskStarted(task.id), TaskFailed(task.id)]
              else
                && r == Ok(ExecutionResult(task.id, true, Completed)) && task.state == Completed
                && events == old(events) + [TaskStarted(task.id), TaskCompleted(task.id)]
    {
      var step: Result<(), KernelError>;
      if task.state == Created {
        step := task.TransitionTo(Queued);
      }
      if Sensitive(task.capability) && gated && !a.allowed {
        Publish(PolicyViolation);
        return Err(PolicyDenied);
      }
      if !a.hasRuntime {
        return Err(NoRuntime);
      }
      step := task.TransitionTo(Running);
      if step.Err? {
        return Err(step.error);
      }
      Publish(TaskStarted(task.id));
      if !a.runs {
        step := task.TransitionTo(Failed);
        Publish(TaskFailed(task.id));
        return Err(RuntimeFailure);
      }
      step := task.TransitionTo(Verifying);
      if a.passes {
        step := task.TransitionTo(Completed);
        Publish(TaskCompleted(task.id));
      } else {
        step := task.TransitionTo(Failed);
        Publish(TaskFailed(task.id));
      }
      return Ok(ExecutionResult(task.id, a.passes, task.state));
    }

    /** Sends a failed task round the recovery loop as a fresh copy, unless its budget is spent. */
    method Requeue(scheduler: Scheduler, task: Task, env: Environment) returns (again: bool)
      requires scheduler.Valid() && task.state == Failed
      modifies scheduler`pending, task`state, task`attempts
      ensures scheduler.Valid()
      ensures again <==> old(task.attempts) < MAX_TASK_RETRIES
      ensures !again ==> scheduler.pending == old(scheduler.pending)
      ensures again ==>
                && |scheduler.pending| == |old(scheduler.pending)| + 1
                && var p := scheduler.pending[|old(scheduler.pending)|];
                   && scheduler.pending == old(scheduler.pending) + [p]
                   && fresh(p.task) && p.task.id == task.id && p.task.dependsOn == task.dependsOn
                   && p.task.priority == task.priority && p.task.capability == task.capability
                   && p.task.state == Queued && p.task.attempts == old(task.attempts) + 1
                   && p.factors == env.factors(task.id, old(task.attempts) + 1) && p.enqueuedAt == scheduler.clock
    {
      hide Scheduling.Step, Scheduling.Scheduler.Valid, Scheduling.Scheduler.Value;
      if task.attempts >= MAX_TASK_RETRIES {
        return false;
      }
      var step := task.TransitionTo(Rollback);
      step := task.TransitionTo(Retry);
      step := task.TransitionTo(Queued);
      var copy := new Task.Clone(task);
      scheduler.SubmitScored(copy, env.factors(copy.id, copy.attempts));
      return true;
    }

    /** Runs a whole workflow, whatever the environment answers. `deps` is what each task waits for, `w` what decides
        its course, and `published` is what the run published. */
    method RunWorkflow(dag: Dag, env: Environment)
      returns (r: Result<seq<ExecutionResult>, KernelError>, ghost deps: Deps, ghost w: Setting,
               ghost published: seq<Event>)
      requires FreshTasks(dag.steps)
      modifies this`events
      ensures events == old(events) + published
      ensures deps == old(DepsOf(dag.steps)) && w == old(SettingOf(dag.steps, env, gated)) && w.Knows(deps)
      ensures r == Err(Unorderable) <==> !InRange(old(dag.DepLists())) || HasCycle(old(dag.DepLists()))
      ensures r == Err(Unorderable) ==> published == []
      ensures r.Ok? ==> CompletedRun(deps, w, dag.id, r.value, published)
      ensures r.Err? && r.error != Unorderable ==> AbortedRun(deps, w, r.error, published)
      ensures (forall k: nat :: AllGood(env.attempt(k))) && r != Err(Unorderable) ==>
                && r.Ok? && ByScore(deps, w, TaskIds(r.value))
                && published == Straight(TaskIds(r.value)) + [WorkflowCompleted(dag.id)]
    {
      hide CompletedRun, AbortedRun, ByScore, QueueFits, Suited, SoundState, HasCycle, InRange, Followed;
      deps, w, published := DepsOf(dag.steps), SettingOf(dag.steps, env, gated), [];
      var order := OrderSteps(dag);
      if order.None? {
        return Err(Unorderable), deps, w, published;
      }
      ghost var start := StartRun(deps, StepIds(dag.steps));
      var scheduler := SubmitAll(dag, order.value, env, deps, w);
      StartIsInStep(scheduler, start, w);
      r, published := RunToEnd(scheduler, dag.id, env, start, w);
    }

    /** The dispatch loop, then the completion event if nothing went wrong. */
    method RunToEnd(scheduler: Scheduler, workflow: WorkflowId, env: Environment, ghost start: Run, ghost w: Setting)
      returns (r: Result<seq<ExecutionResult>, KernelError>, ghost published: seq<Event>)
      requires scheduler.Valid() && scheduler.completed == {}
      requires start.trail == Unstarted(start.deps) && Queues(scheduler.pending, start)
      requires w.Knows(start.deps) && w.env == env && w.gated == gated && InStep(scheduler, start, w)
      modifies this`events, scheduler, set p | p in scheduler.pending :: p.task
      ensures events == old(events) + published
      ensures r.Ok? ==> CompletedRun(start.deps, w, workflow, r.value, published)
      ensures r.Err? ==> r.error != Unorderable && AbortedRun(start.deps, w, r.error, published)
      ensures (forall k: nat :: AllGood(env.attempt(k))) ==>
                && r.Ok? && ByScore(start.deps, w, TaskIds(r.value))
                && published == Straight(TaskIds(r.value)) + [WorkflowCompleted(workflow)]
    {
      hide *;
      ghost var s, last;
      r, s, last := Drain(scheduler, env, start, w);
      if r.Err? {
        published := s.trail.events + Published(last, Aborted(r.error));
        AbandonedRun(s, w, last, r.error, start.deps, published);
        return;
      }
      published := s.trail.events + [WorkflowCompleted(workflow)];
      FinishRun(s, w, workflow, r.value, start.deps, published);
      Regroup(old(events), s.trail.events, [WorkflowCompleted(workflow)]);
      GoodRun(s, w, r.value);
      Publish(WorkflowCompleted(workflow));
    }

    method OrderSteps(dag: Dag) returns (order: Option<seq<nat>>)
      ensures order.None? <==> !InRange(old(dag.DepLists())) || HasCycle(old(dag.DepLists()))
      ensures order.Some? ==> Lists(|dag.steps|, order.value)
    {
      ghost var lists := dag.DepLists();
      order := dag.TopologicalOrder();
      assert dag.DepLists() == lists;
      assert order.Some? ==> forall i :: 0 <= i < |order.value| ==> order.value[i] in order.value;
    }

    /** The dispatch loop, over a queue that holds every task of the workflow. On `Ok` nothing left in
        the queue can ever run; on `Err` task `last` was executed and given up on. */
    method Drain(scheduler: Scheduler, env: Environment, ghost start: Run, ghost w: Setting)
      returns (r: Result<seq<ExecutionResult>, KernelError>, ghost s: Run, ghost last: TaskId)
      requires scheduler.Valid() && scheduler.completed == {}
      requires start.trail == Unstarted(start.deps) && Queues(scheduler.pending, start)
      requires w.env == env && w.gated == gated && InStep(scheduler, start, w)
      modifies this`events, scheduler, set p | p in scheduler.pending :: p.task
      ensures s.deps == start.deps && Followed(s, w)
      ensures r.Ok? ==> events == old(events) + s.trail.events
      ensures r.Ok? ==> AllCompleted(r.value, s.trail.done) && NothingCanRun(s)
      ensures r.Err? ==> events == old(events) + (s.trail.events + Published(last, Aborted(r.error)))
      ensures r.Err? ==> GivenUp(s, w, last, r.error)
      ensures (forall k: nat :: AllGood(env.attempt(k))) ==> r.Ok? && s.trail.events == Straight(s.trail.done)
    {
      hide SoundState, Followed, Suited, GoesFirst, Denied, Straight, QueueFits, AllDone, Ends, NothingCanRun;
      s, last := start, 0;
      assert Elems(s.trail.done) == {};
      assert events + [] == events;
      NothingStraight();
      var results: seq<ExecutionResult> := [];
      var executed := 0;
      while true
        invariant scheduler.Valid() && scheduler.completed == Elems(s.trail.done)
        invariant forall p :: p in scheduler.pending ==> p in old(scheduler.pending) || fresh(p.task)
        invariant s.deps == start.deps && Queues(scheduler.pending, s) && InStep(scheduler, s, w)
        invariant events == old(events) + s.trail.events
        invariant AllCompleted(results, s.trail.done)
        invariant executed == Starts(s.trail.events)
        invariant (forall k: nat :: AllGood(env.attempt(k))) ==> s.trail.events == Straight(s.trail.done)
        decreases 3 * |start.deps| - executed
      {
        InvIsWellTraced(s);
        var round;
        round, last := RunRound(scheduler, env, executed, s, w);
        Regroup(old(events), s.trail.events, Published(last, round));
        GoodRound(s, w, last, round, env.attempt(executed));
        match round {
          case Drained =>
            return Ok(results), s, last;
          case Aborted(error) =>
            return Err(error), s, last;
          case Finished(result) =>
            AddResult(results, s.trail.done, last, round);
            results := results + [result];
          case Retried =>
        }
        GoingOnIsSound(s, last, round);
        s := NextState(s, last, round);
        executed := executed + 1;
      }
    }

    /** One round: dispatch the best ready task, execute it, and record it, retry it or give up. */
    method RunRound(scheduler: Scheduler, env: Environment, n: nat, ghost s: Run, ghost w: Setting)
      returns (round: Round, ghost id: TaskId)
      requires scheduler.Valid() && scheduler.completed == Elems(s.trail.done) && Queues(scheduler.pending, s)
      requires w.env == env && w.gated == gated && InStep(scheduler, s, w) && n == Starts(s.trail.events)
      modifies this`events, scheduler, set p | p in scheduler.pending :: p.task
      ensures scheduler.Valid()
      ensures forall p :: p in scheduler.pending ==> p in old(scheduler.pending) || fresh(p.task)
      ensures events == old(events) + Published(id, round)
      ensures round.Drained? ==> NothingCanRun(s)
      ensures !round.Drained? ==> id in w.capability && Ends(w, id, round, env.attempt(n))
      ensures round.Aborted? ==> GivenUp(s, w, id, round.error)
      ensures round.Finished? || round.Retried? ==> GoesOn(s, id, round)
      ensures round.Finished? || round.Retried? ==>
                && Queues(scheduler.pending, NextState(s, id, round)) && InStep(scheduler, NextState(s, id, round), w)
                && scheduler.completed == Elems(NextState(s, id, round).trail.done)
    {
      hide Inv, Counted, Queues, QueueFits, AllDone, Suited, GoesFirst, Ends;
      id := 0;
      var task := TakeReady(scheduler, s, w);
      if task.None? {
        return Drained, id;
      }
      id := task.value.id;
      round := RunTaken(scheduler, task.value, env, n, s, w);
      if round.Finished? || round.Retried? {
        GoingOnIsSound(s, id, round);
        FollowedNext(s, w, id, round);
      }
    }

    /** Dispatches the best ready task; with none ready, nothing queued can ever run. */
    method TakeReady(scheduler: Scheduler, ghost s: Run, ghost w: Setting) returns (task: Option<Task>)
      requires scheduler.Valid() && scheduler.completed == Elems(s.trail.done)
      requires Queues(scheduler.pending, s) && InStep(scheduler, s, w)
      modifies scheduler`pending, scheduler`clock
      ensures scheduler.Valid() && scheduler.clock == Starts(s.trail.events) + 1
      ensures forall p :: p in scheduler.pending ==> p in old(scheduler.pending)
      ensures task.None? ==> NothingCanRun(s)
      ensures task.Some? ==>
                && IsTaken(task.value, scheduler.pending, s.deps, s.trail)
                && exists p :: p in old(scheduler.pending) && p.task == task.value
      ensures task.Some? ==> IsNext(task.value, s, w) && Suited(scheduler.pending, w, s.trail.events)
    {
      hide SoundState, Scheduling.Step, GoesFirst, Followed, Outdoes, IsBest, NoneReady, IsTaken, QueueFits;
      ghost var before := scheduler.pending;
      ghost var at;
      task, at := scheduler.DispatchNext();
      if task.None? {
        NothingQueuedReady(before, s);
      } else {
        BestGoesFirst(before, at, s, w);
        DispatchedIsTaken(before, at, s);
      }
    }

    /** Executes a taken task, then records it, sends it round again, or gives up. */
    method RunTaken(scheduler: Scheduler, task: Task, env: Environment, n: nat, ghost s: Run, ghost w: Setting)
      returns (round: Round)
      requires scheduler.Valid() && scheduler.clock == n + 1
      requires IsTaken(task, scheduler.pending, s.deps, s.trail)
      requires w.env == env && w.gated == gated && n == Starts(s.trail.events)
      requires IsNext(task, s, w) && Suited(scheduler.pending, w, s.trail.events)
      modifies this`events, scheduler`pending, scheduler`completed, task`state, task`attempts
      ensures scheduler.Valid() && !round.Drained?
      ensures forall p :: p in scheduler.pending ==> p in old(scheduler.pending) || fresh(p.task)
      ensures events == old(events) + Published(task.id, round)
      ensures scheduler.completed == old(scheduler.completed) + if round.Finished? then {task.id} else {}
      ensures Ends(w, task.id, round, env.attempt(n))
      ensures round.Aborted? ==> GivenUp(s, w, task.id, round.error)
      ensures round.Finished? || round.Retried? ==>
                && GoesOn(s, task.id, round) && Queues(scheduler.pending, NextState(s, task.id, round))
                && Suited(scheduler.pending, w, NextState(s, task.id, round).trail.events)
    {
      hide Inv, Counted, GoesFirst, Followed, Suited;
      RestAreOthers(scheduler.pending, s.trail.pending, s.deps, s.trail.tries, task.id);
      OthersSuited(scheduler.pending, w, s.trail.events, task.id, true);
      var r := Execute(task, env.attempt(n));
      if r.Ok? && r.value.state != Failed {
        scheduler.MarkCompleted(task.id);
        return Finished(r.value);
      }
      if task.state == Failed {
        var again := Recover(scheduler, task, env, s, w);
        if again {
          return Retried;
        }
        return Aborted(if r.Ok? then RetriesExhausted(r.value.task) else r.error);
      }
      return Aborted(r.error);
    }

    /** Requeueing a taken task that failed puts it back where it was, with one more retry used. */
    method Recover(scheduler: Scheduler, task: Task, env: Environment, ghost s: Run, ghost w: Setting)
      returns (again: bool)
      requires scheduler.Valid() && task.state == Failed && scheduler.clock == Starts(s.trail.events) + 1
      requires task.id in s.trail.pending && AllDone(s.deps[task.id], s.trail.done)
      requires task.dependsOn == s.deps[task.id] && task.attempts == s.trail.tries[task.id]
      requires QueueFits(scheduler.pending, s.trail.pending - {task.id}, s.deps, s.trail.tries)
      requires forall p :: p in scheduler.pending ==> p.task != task
      requires w.env == env && IsNext(task, s, w) && Suited(scheduler.pending, w, s.trail.events)
      modifies scheduler`pending, task`state, task`attempts
      ensures scheduler.Valid()
      ensures forall p :: p in scheduler.pending ==> p in old(scheduler.pending) || fresh(p.task)
      ensures !again ==> s.trail.tries[task.id] == MAX_TASK_RETRIES
      ensures again ==>
                && GoesOn(s, task.id, Retried) && Queues(scheduler.pending, NextState(s, task.id, Retried))
                && Suited(scheduler.pending, w, NextState(s, task.id, Retried).trail.events)
    {
      hide GoesFirst, Followed, Suited, SoundState, QueueFits, AllDone, GoesOn, Queues, Scheduling.Scheduler.Valid;
      ghost var rest := scheduler.pending;
      PendingIsKnown(s, task.id);
      RestAreOthers(rest, s.trail.pending, s.deps, s.trail.tries, task.id);
      OthersSuited(rest, w, s.trail.events, task.id, false);
      again := Requeue(scheduler, task, env);
      if again {
        RegainedFits(rest, scheduler.pending[|rest|], s, w, task.id);
      }
    }

    /** A copy of a step's task, with the serving agent's priority unless the task has one of its own. */
    method CopyFor(original: Task, env: Environment) returns (task: Task)
      ensures fresh(task) && task.id == original.id && task.capability == original.capability
      ensures task.dependsOn == original.dependsOn
      ensures task.state == original.state && task.attempts == original.attempts
      ensures Adopted(task.priority, original.priority, env.agentPriority(original.capability))
    {
      task := new Task.Clone(original);
      if task.priority == Normal && env.agentPriority(task.capability).Some? {
        task.priority := env.agentPriority(task.capability).value;
      }
    }

    /** Submits a copy of every step's task, in execution order. Each copy keeps a priority of its own and otherwise has
        that of the agent that serves it. */
    method SubmitAll(dag: Dag, order: seq<nat>, env: Environment, ghost deps: Deps, ghost w: Setting)
      returns (scheduler: Scheduler)
      requires FreshTasks(dag.steps) && deps == DepsOf(dag.steps) && w == SettingOf(dag.steps, env, gated)
      requires Lists(|dag.steps|, order)
      ensures fresh(scheduler) && scheduler.Valid() && scheduler.completed == {}
      ensures scheduler.clock == 0 && scheduler.agingRate == DEFAULT_AGING_RATE
      ensures forall p :: p in scheduler.pending ==> fresh(p.task)
      ensures QueueFits(scheduler.pending, deps.Keys, deps, NoTries(deps)) && Suited(scheduler.pending, w, [])
      ensures forall p, s :: p in scheduler.pending && s in dag.steps && s.task.id == p.task.id ==>
                && Adopted(p.task.priority, s.task.priority, env.agentPriority(s.task.capability))
                && p.task.capability == s.task.capability && p.factors == env.factors(s.task.id, 0)
    {
      hide QueueFits, DepsOf, SettingOf, Arrives, Adopted, FreshTasks, Scheduling.Scheduler.Valid;
      scheduler := new Scheduler();
      var k := 0;
      while k < |order|
        invariant 0 <= k <= |order|
        invariant fresh(scheduler) && scheduler.Valid() && scheduler.completed == {}
        invariant scheduler.clock == 0 && scheduler.agingRate == DEFAULT_AGING_RATE
        invariant |scheduler.pending| == k
        invariant forall p :: p in scheduler.pending ==> fresh(p.task) && Arrives(p, deps, w)
        invariant forall i :: 0 <= i < k ==> scheduler.pending[i].task.id == dag.steps[order[i]].task.id
      {
        StepIsKnown(dag.steps, order[k], deps, w);
        SubmitStep(scheduler, dag.steps[order[k]], env, deps, w);
        k := k + 1;
      }
      ArrivedQueue(dag.steps, order, scheduler.pending, deps, w);
    }

    /** Submits a copy of one step's task. */
    method SubmitStep(scheduler: Scheduler, step: Step, env: Environment, ghost deps: Deps, ghost w: Setting)
      requires scheduler.Valid() && scheduler.clock == 0
      requires step.task.id in deps && deps[step.task.id] == step.task.dependsOn
      requires step.task.state == Created && step.task.attempts == 0
      requires w.env == env && step.task.id in w.priority && step.task.id in w.capability
      requires Adopted(w.priority[step.task.id], step.task.priority, env.agentPriority(step.task.capability))
      requires w.capability[step.task.id] == step.task.capability
      modifies scheduler`pending
      ensures scheduler.Valid()
      ensures |scheduler.pending| == |old(scheduler.pending)| + 1
      ensures var p := scheduler.pending[|old(scheduler.pending)|];
              && scheduler.pending == old(scheduler.pending) + [p]
              && fresh(p.task) && p.task.id == step.task.id && Arrives(p, deps, w)
    {
      var task := CopyFor(step.task, env);
      scheduler.SubmitScored(task, env.factors(task.id, task.attempts));
    }
  }

  /** It is the turn of this task, which goes by the setting. */
  ghost predicate IsNext(task: Task, s: Run, w: Setting)
    reads task
  {
    && Followed(s, w) && GoesFirst(s.deps, w, s.trail.events, task.id)
    && task.id in w.priority && task.id in w.capability
    && task.priority == w.priority[task.id] && task.capability == w.capability[task.id]
    && task.attempts == Fails(s.trail.events, task.id)
  }

  /** The copy of a failed task in its place, everything fits the run with one more retry. */
  lemma RegainedFits(rest: seq<Pending>, p: Pending, s: Run, w: Setting, id: TaskId)
    requires id in s.trail.pending && AllDone(s.deps[id], s.trail.done) && s.trail.tries[id] < MAX_TASK_RETRIES
    requires QueueFits(rest, s.trail.pending - {id}, s.deps, s.trail.tries)
    requires p.task.id == id && Fits(p.task, s.deps, s.trail.tries[id := s.trail.tries[id] + 1])
    requires Suited(rest, w, s.trail.events + [TaskStarted(id), TaskFailed(id)])
    requires id in w.priority && id in w.capability
    requires p.task.priority == w.priority[id] && p.task.capability == w.capability[id]
    requires p.task.attempts == Fails(s.trail.events, id) + 1
    requires p.factors == w.env.factors(id, Fails(s.trail.events, id) + 1)
    requires p.enqueuedAt == Starts(s.trail.events) + 1
    ensures GoesOn(s, id, Retried) && Queues(rest + [p], NextState(s, id, Retried))
    ensures Suited(rest + [p], w, NextState(s, id, Retried).trail.events)
  {
    RegainedQueue(rest, p, s, id);
    hide SoundState, GoesOn, QueueFits, Queues, Suited, Fits, AllDone;
    RetriedSuits(p, w, s.trail.events);
    AlsoSuited(rest, p, w, s.trail.events + [TaskStarted(id), TaskFailed(id)]);
  }

  lemma RegainedQueue(rest: seq<Pending>, p: Pending, s: Run, id: TaskId)
    requires id in s.trail.pending && AllDone(s.deps[id], s.trail.done) && s.trail.tries[id] < MAX_TASK_RETRIES
    requires QueueFits(rest, s.trail.pending - {id}, s.deps, s.trail.tries)
    requires p.task.id == id && Fits(p.task, s.deps, s.trail.tries[id := s.trail.tries[id] + 1])
    ensures GoesOn(s, id, Retried) && Queues(rest + [p], NextState(s, id, Retried))
    ensures NextState(s, id, Retried).trail.events == s.trail.events + [TaskStarted(id), TaskFailed(id)]
  {
    hide SoundState, Fits, QueueFits, AllDone;
    PendingIsKnown(s, id);
    QueueRegains(rest, rest + [p], s.deps, s.trail, id);
  }

  lemma AlsoSuited(rest: seq<Pending>, p: Pending, w: Setting, events: seq<Event>)
    requires Suited(rest, w, events) && Suits(p, w, events)
    ensures Suited(rest + [p], w, events)
  {
    hide Suits;
  }

  lemma RetriedSuits(p: Pending, w: Setting, events: seq<Event>)
    requires p.task.id in w.priority && p.task.id in w.capability
    requires p.task.priority == w.priority[p.task.id] && p.task.capability == w.capability[p.task.id]
    requires p.task.attempts == Fails(events, p.task.id) + 1
    requires p.factors == w.env.factors(p.task.id, Fails(events, p.task.id) + 1)
    requires p.enqueuedAt == Starts(events) + 1
    ensures Suits(p, w, events + [TaskStarted(p.task.id), TaskFailed(p.task.id)])
  {
    AfterAttempt(events, p.task.id, false);
    hide Fails, Since, Starts;
  }

  lemma StartIsInStep(scheduler: Scheduler, start: Run, w: Setting)
    requires start.trail == Unstarted(start.deps) && w.Knows(start.deps) && Suited(scheduler.pending, w, [])
    requires scheduler.clock == 0 && scheduler.agingRate == DEFAULT_AGING_RATE
    ensures InStep(scheduler, start, w)
  {
  }

  lemma NothingStraight()
    ensures Straight([]) == []
  {
  }

  /** With good answers only, every round finishes its task. */
  lemma GoodRound(s: Run, w: Setting, id: TaskId, round: Round, a: Attempt)
    requires id in w.capability && !round.Drained? ==> Ends(w, id, round, a)
    ensures AllGood(a) && !round.Drained? && id in w.capability ==> round.Finished?
    ensures AllGood(a) && round.Finished? && id in w.capability && s.trail.events == Straight(s.trail.done) ==>
              s.trail.events + [TaskStarted(id), TaskCompleted(id)] == Straight(s.trail.done + [id])
  {
    assert (s.trail.done + [id])[..|s.trail.done|] == s.trail.done;
  }

  lemma GoodRun(s: Run, w: Setting, results: seq<ExecutionResult>)
    requires Followed(s, w) && AllCompleted(results, s.trail.done)
    ensures TaskIds(results) == s.trail.done
    ensures s.trail.events == Straight(s.trail.done) ==> w.Knows(s.deps) && ByScore(s.deps, w, s.trail.done)
  {
    assert TaskIds(results) == s.trail.done;
    if s.trail.events == Straight(s.trail.done) {
      StraightIsByScore(s.deps, w, s.trail.done);
    }
  }

  lemma StepIsKnown(steps: seq<Step>, i: nat, deps: Deps, w: Setting)
    requires FreshTasks(steps) && deps == DepsOf(steps) && w == SettingOf(steps, w.env, w.gated) && i < |steps|
    ensures var task := steps[i].task;
            && task.id in deps && deps[task.id] == task.dependsOn && task.state == Created && task.attempts == 0
            && task.id in w.priority
            && Adopted(w.priority[task.id], task.priority, w.env.agentPriority(task.capability))
            && task.id in w.capability && w.capability[task.id] == task.capability
  {
    hide Adopted, SettingOf;
    assert steps[i] in steps;
  }

  /** A task as it is queued at the start. */
  ghost predicate Arrives(p: Pending, deps: Deps, w: Setting)
    reads p.task
  {
    Fits(p.task, deps, NoTries(deps)) && Suits(p, w, [])
  }

  lemma ArrivedQueue(steps: seq<Step>, order: seq<nat>, pending: seq<Pending>, deps: Deps, w: Setting)
    requires FreshTasks(steps) && Lists(|steps|, order) && |pending| == |order|
    requires deps.Keys == Elems(StepIds(steps)) && w == SettingOf(steps, w.env, w.gated)
    requires forall p :: p in pending ==> Arrives(p, deps, w)
    requires forall i :: 0 <= i < |order| ==> pending[i].task.id == steps[order[i]].task.id
    ensures QueueFits(pending, deps.Keys, deps, NoTries(deps)) && Suited(pending, w, [])
    ensures forall p, s :: p in pending && s in steps && s.task.id == p.task.id ==>
              && Adopted(p.task.priority, s.task.priority, w.env.agentPriority(s.task.capability))
              && p.task.capability == s.task.capability && p.factors == w.env.factors(s.task.id, 0)
  {
    hide Fits, Suits, SettingOf, QueueFits, Adopted;
    OrderedStepsCover(steps, order, pending, deps);
    SuitedIsAdopted(steps, pending, w);
  }

  lemma SuitedIsAdopted(steps: seq<Step>, pending: seq<Pending>, w: Setting)
    requires NoDup(StepIds(steps)) && Suited(pending, w, []) && w == SettingOf(steps, w.env, w.gated)
    ensures forall p, s :: p in pending && s in steps && s.task.id == p.task.id ==>
              && Adopted(p.task.priority, s.task.priority, w.env.agentPriority(s.task.capability))
              && p.task.capability == s.task.capability && p.factors == w.env.factors(s.task.id, 0)
  {
    hide SettingOf, Adopted;
    assert forall p :: p in pending ==> Suits(p, w, []);
  }

  ghost function NoTries(deps: Deps): map<TaskId, nat> {
    map id | id in deps :: 0
  }

  /** The order names every one of `n` steps once. */
  ghost predicate Lists(n: nat, order: seq<nat>) {
    |order| == n && NoDup(order) && forall i :: 0 <= i < |order| ==> order[i] < n
  }

  lemma OrderedStepsCover(steps: seq<Step>, order: seq<nat>, pending: seq<Pending>, deps: Deps)
    requires NoDup(StepIds(steps)) && Lists(|steps|, order) && |pending| == |order|
    requires forall i :: 0 <= i < |order| ==> pending[i].task.id == steps[order[i]].task.id
    requires deps.Keys == Elems(StepIds(steps))
    requires forall p :: p in pending ==> Fits(p.task, deps, NoTries(deps))
    ensures QueueFits(pending, deps.Keys, deps, NoTries(deps))
  {
    StepsStayDistinct(steps, order, pending);
    forall x | x in StepIds(steps)
      ensures x in IdsOf(pending)
    {
      EveryStepQueued(steps, order, pending, x);
    }
    assert IdsOf(pending) == deps.Keys;
  }

  lemma StepsStayDistinct(steps: seq<Step>, order: seq<nat>, pending: seq<Pending>)
    requires NoDup(StepIds(steps)) && Lists(|steps|, order) && |pending| == |order|
    requires forall i :: 0 <= i < |order| ==> pending[i].task.id == steps[order[i]].task.id
    ensures DistinctTasks(pending)
  {
    var ids := StepIds(steps);
    forall i, j | 0 <= i < j < |pending|
      ensures pending[i].task.id != pending[j].task.id
    {
      assert ids[order[i]] != ids[order[j]];
    }
  }

  lemma EveryStepQueued(steps: seq<Step>, order: seq<nat>, pending: seq<Pending>, x: TaskId)
    requires Lists(|steps|, order) && |pending| == |order|
    requires forall i :: 0 <= i < |order| ==> pending[i].task.id == steps[order[i]].task.id
    requires x in StepIds(steps)
    ensures x in IdsOf(pending)
  {
    OrderCoversAll(|steps|, order);
    var j: nat :| j < |steps| && StepIds(steps)[j] == x;
    assert j in order;
    var i :| 0 <= i < |order| && order[i] == j;
    assert pending[i] in pending;
  }
}
