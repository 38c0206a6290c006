/** What a workflow run publishes, and the invariant its event trace keeps. */
module Trace {
  import opened Sequences
  import opened Tasks

  datatype Event =
    | TaskStarted(task: TaskId)
    | TaskCompleted(task: TaskId)
    | TaskFailed(task: TaskId)
    | PolicyViolation
    | WorkflowCompleted(workflow: WorkflowId)

  /** The ids each task waits for. */
  type Deps = map<TaskId, seq<TaskId>>

  const MAX_TASK_RETRIES: nat := 2

  predicate About(e: Event, id: TaskId) {
    match e
    case TaskStarted(t) => t == id
    case TaskCompleted(t) => t == id
    case TaskFailed(t) => t == id
    case _ => false
  }

  /** The events of one task, in order. */
  ghost function Project(events: seq<Event>, id: TaskId): seq<Event> {
    if events == [] then []
    else
      var n := |events| - 1;
      Project(events[..n], id) + (if About(events[n], id) then [events[n]] else [])
  }

  /** `j` failed attempts in a row. */
  ghost function FailedRounds(id: TaskId, j: nat): seq<Event> {
    if j == 0 then [] else FailedRounds(id, j - 1) + [TaskStarted(id), TaskFailed(id)]
  }

  ghost function SuccessAfter(id: TaskId, j: nat): seq<Event> {
    FailedRounds(id, j) + [TaskStarted(id), TaskCompleted(id)]
  }

  ghost function Starts(events: seq<Event>): nat {
    if events == [] then 0
    else Starts(events[..|events| - 1]) + (if events[|events| - 1].TaskStarted? then 1 else 0)
  }

  /** No task starts before everything it waits for has completed. */
  ghost predicate StartsAfterDeps(deps: Deps, events: seq<Event>) {
    forall k, d ::
      0 <= k < |events| && events[k].TaskStarted? && events[k].task in deps && d in deps[events[k].task] ==>
        TaskCompleted(d) in events[..k]
  }

  ghost predicate NeverFinishes(events: seq<Event>) {
    forall e :: e in events ==> !e.WorkflowCompleted?
  }

  lemma ProjectTwo(events: seq<Event>, a: Event, b: Event, id: TaskId)
    ensures Project(events + [a, b], id) ==
            Project(events, id) + (if About(a, id) then [a] else []) + (if About(b, id) then [b] else [])
    ensures Starts(events + [a, b]) ==
            Starts(events) + (if a.TaskStarted? then 1 else 0) + (if b.TaskStarted? then 1 else 0)
  {
    assert (events + [a, b])[..|events| + 1] == events + [a];
    assert (events + [a])[..|events|] == events;
  }

  // ---------------------------------------------------------------------------
  // The invariant of a run
  // ---------------------------------------------------------------------------

  /** Where a run stands: the ids still queued, the retries each task has used, the ids completed, in
      order, and the events published so far. */
  datatype Trail = Trail(pending: set<TaskId>, tries: map<TaskId, nat>, done: seq<TaskId>, events: seq<Event>)

  ghost predicate Inv(deps: Deps, t: Trail) {
    Bookkeeping(deps, t) && Traced(deps, t)
  }

  ghost predicate Bookkeeping(deps: Deps, t: Trail) {
    && NoDup(t.done)
    && t.pending !! Elems(t.done)
    && t.pending + Elems(t.done) == deps.Keys
    && t.tries.Keys == deps.Keys
    && (forall id :: id in deps ==> t.tries[id] <= MAX_TASK_RETRIES)
    && DoneInOrder(deps, t.done)
    && (forall id :: id in t.pending && t.tries[id] > 0 ==> AllDone(deps[id], t.done))
  }

  ghost predicate Traced(deps: Deps, t: Trail)
    requires t.pending <= t.tries.Keys && Elems(t.done) <= t.tries.Keys
  {
    && (forall id :: id in t.pending ==> Project(t.events, id) == FailedRounds(id, t.tries[id]))
    && (forall id :: id in Elems(t.done) ==> Project(t.events, id) == SuccessAfter(id, t.tries[id]))
    && (forall id :: id in Elems(t.done) ==> TaskCompleted(id) in t.events)
    && StartsAfterDeps(deps, t.events)
    && NeverFinishes(t.events)
  }

  ghost predicate AllDone(ids: seq<TaskId>, done: seq<TaskId>) {
    forall d :: d in ids ==> d in done
  }

  /** Each completed task comes after everything it waited for. */
  ghost predicate DoneInOrder(deps: Deps, done: seq<TaskId>) {
    forall k, d :: 0 <= k < |done| && done[k] in deps && d in deps[done[k]] ==> d in done[..k]
  }

  lemma InvInitially(deps: Deps)
    ensures Inv(deps, Trail(deps.Keys, map id | id in deps :: 0, [], []))
  {
    assert Elems<TaskId>([]) == {};
  }

  /** Starting a ready task keeps every start after its dependencies, however the attempt ends. */
  lemma AttemptKeepsOrder(deps: Deps, t: Trail, id: TaskId, end: Event)
    requires Inv(deps, t) && id in t.pending && AllDone(deps[id], t.done)
    requires !end.TaskStarted? && !end.WorkflowCompleted?
    ensures StartsAfterDeps(deps, t.events + [TaskStarted(id), end])
    ensures NeverFinishes(t.events + [TaskStarted(id), end])
  {
    var now := t.events + [TaskStarted(id), end];
    forall k, d | 0 <= k < |now| && now[k].TaskStarted? && now[k].task in deps && d in deps[now[k].task]
      ensures TaskCompleted(d) in now[..k]
    {
      if k < |t.events| {
        assert now[..k] == t.events[..k];
        assert TaskCompleted(d) in t.events[..k];
      } else {
        assert now[..k] == t.events;
      }
    }
  }

  lemma AttemptEvents(t: Trail, id: TaskId, end: Event)
    requires About(end, id)
    ensures forall x :: Project(t.events + [TaskStarted(id), end], x) ==
                        Project(t.events, x) + if x == id then [TaskStarted(id), end] else []
    ensures forall e :: e in t.events ==> e in t.events + [TaskStarted(id), end]
    ensures end in t.events + [TaskStarted(id), end]
  {
    forall x
      ensures Project(t.events + [TaskStarted(id), end], x) ==
              Project(t.events, x) + if x == id then [TaskStarted(id), end] else []
    {
      ProjectTwo(t.events, TaskStarted(id), end, x);
    }
    assert (t.events + [TaskStarted(id), end])[|t.events| + 1] == end;
  }

  lemma CompletionBookkeeping(deps: Deps, t: Trail, id: TaskId, events: seq<Event>)
    requires Bookkeeping(deps, t) && id in t.pending && AllDone(deps[id], t.done)
    ensures Bookkeeping(deps, Trail(t.pending - {id}, t.tries, t.done + [id], events))
  {
    var done := t.done + [id];
    assert Elems(done) == Elems(t.done) + {id};
    assert id !in Elems(t.done);
    forall k, d | 0 <= k < |done| && done[k] in deps && d in deps[done[k]]
      ensures d in done[..k]
    {
      if k < |t.done| {
        assert done[..k] == t.done[..k];
        assert d in t.done[..k];
      } else {
        assert done[..k] == t.done;
      }
    }
  }

  lemma CompletionKeepsInv(deps: Deps, t: Trail, id: TaskId)
    requires Inv(deps, t) && id in t.pending && AllDone(deps[id], t.done)
    ensures Inv(deps, Trail(t.pending - {id}, t.tries, t.done + [id], t.events + [TaskStarted(id), TaskCompleted(id)]))
  {
    AttemptKeepsOrder(deps, t, id, TaskCompleted(id));
    AttemptEvents(t, id, TaskCompleted(id));
    CompletionBookkeeping(deps, t, id, t.events + [TaskStarted(id), TaskCompleted(id)]);
    assert Elems(t.done + [id]) == Elems(t.done) + {id};
  }

  lemma RetryKeepsInv(deps: Deps, t: Trail, id: TaskId)
    requires Inv(deps, t) && id in t.pending && AllDone(deps[id], t.done) && t.tries[id] < MAX_TASK_RETRIES
    ensures Inv(deps, Trail(t.pending, t.tries[id := t.tries[id] + 1], t.done,
                            t.events + [TaskStarted(id), TaskFailed(id)]))
  {
    AttemptKeepsOrder(deps, t, id, TaskFailed(id));
    AttemptEvents(t, id, TaskFailed(id));
  }

  /** A third failure leaves a trace of exactly three failed rounds. */
  lemma LastFailure(deps: Deps, t: Trail, id: TaskId)
    requires Inv(deps, t) && id in t.pending && AllDone(deps[id], t.done) && t.tries[id] == MAX_TASK_RETRIES
    ensures var now := t.events + [TaskStarted(id), TaskFailed(id)];
            && Project(now, id) == FailedRounds(id, MAX_TASK_RETRIES + 1)
            && (forall x :: x != id ==> Project(now, x) == Project(t.events, x))
            && StartsAfterDeps(deps, now) && NeverFinishes(now)
  {
    var now := t.events + [TaskStarted(id), TaskFailed(id)];
    AttemptKeepsOrder(deps, t, id, TaskFailed(id));
    AttemptEvents(t, id, TaskFailed(id));
  }

  // ---------------------------------------------------------------------------
  // Which workflows can finish
  // ---------------------------------------------------------------------------

  /** Everything waited for is part of the workflow, and waiting never goes round in a circle. */
  ghost predicate Runnable(deps: Deps) {
    exists rank: map<TaskId, nat> :: Ranks(deps, rank)
  }

  ghost predicate Ranks(deps: Deps, rank: map<TaskId, nat>) {
    && rank.Keys == deps.Keys
    && forall id, d :: id in deps && d in deps[id] ==> d in deps && rank[d] < rank[id]
  }

  lemma {:induction false} LowestRanked(ids: set<TaskId>, rank: map<TaskId, nat>) returns (low: TaskId)
    requires ids != {} && ids <= rank.Keys
    ensures low in ids && forall id :: id in ids ==> rank[low] <= rank[id]
  {
    var x :| x in ids;
    low := x;
    if ids != {x} {
      var y := LowestRanked(ids - {x}, rank);
      if rank[y] < rank[x] {
        low := y;
      }
    }
  }

  /** No deadlock: in a runnable workflow, unfinished work always contains a ready task. */
  lemma UnfinishedHasReady(deps: Deps, t: Trail) returns (id: TaskId)
    requires Inv(deps, t) && Runnable(deps) && t.pending != {}
    ensures id in t.pending && AllDone(deps[id], t.done)
  {
    var rank: map<TaskId, nat> :| Ranks(deps, rank);
    id := LowestRanked(t.pending, rank);
    forall d | d in deps[id]
      ensures d in t.done
    {
      assert rank[d] < rank[id];
      assert d in Elems(t.done);
    }
  }

  /** Conversely, a finished run ranks its tasks by the order they completed in. */
  lemma FinishedIsRunnable(deps: Deps, t: Trail)
    requires Inv(deps, t) && t.pending == {}
    ensures Runnable(deps)
  {
    var rank := map id | id in deps :: PositionOf(t.done, id);
    forall id, d | id in deps && d in deps[id]
      ensures d in deps && rank[d] < rank[id]
    {
      assert id in Elems(t.done);
      var k := PositionOf(t.done, id);
      assert d in t.done[..k];
      var j :| 0 <= j < k && t.done[j] == d;
      assert d in Elems(t.done);
    }
    assert Ranks(deps, rank);
  }

  ghost function PositionOf(s: seq<TaskId>, x: TaskId): (i: nat)
    ensures x in s ==> i < |s| && s[i] == x
  {
    if x in s then (var i :| 0 <= i < |s| && s[i] == x; i) else 0
  }

  // ---------------------------------------------------------------------------
  // Counting executions
  // ---------------------------------------------------------------------------

  ghost function Total(ids: seq<TaskId>, tries: map<TaskId, nat>): nat
    requires forall id :: id in ids ==> id in tries
  {
    if ids == [] then 0 else tries[ids[0]] + Total(ids[1..], tries)
  }

  lemma {:induction false} TotalBound(ids: seq<TaskId>, tries: map<TaskId, nat>, bound: nat)
    requires forall id :: id in ids ==> id in tries && tries[id] <= bound
    ensures Total(ids, tries) <= bound * |ids|
  {
    if ids != [] {
      TotalBound(ids[1..], tries, bound);
      assert bound * |ids| == bound + bound * |ids[1..]|;
    }
  }

  lemma {:induction false} TotalAfterRetry(ids: seq<TaskId>, tries: map<TaskId, nat>, id: TaskId)
    requires NoDup(ids) && forall x :: x in ids ==> x in tries
    requires id in tries
    ensures Total(ids, tries[id := tries[id] + 1]) == Total(ids, tries) + if id in ids then 1 else 0
  {
    if ids != [] {
      TotalAfterRetry(ids[1..], tries, id);
      assert ids[0] !in ids[1..];
    }
  }
}
