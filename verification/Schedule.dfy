/** What decides the course of a workflow run (sdk/src/engine.rs): which task starts next, and how its attempt ends. */
module Schedules {
  import opened Results
  import opened Sequences
  import opened Tasks
  import opened Scores
  import opened Scheduling
  import opened Trace

  /** What the outside world answers during one execution: does policy allow the task, is there a
      runtime for it, does the runtime produce an output, and does the verifier accept it. */
  datatype Attempt = Attempt(allowed: bool, hasRuntime: bool, runs: bool, passes: bool)

  /** Everything a run cannot know in advance: the answers of each execution, the scoring factors of each
      submission of a task, and the priority of the agent serving a capability. */
  datatype Environment = Environment(
    attempt: nat -> Attempt, factors: (TaskId, nat) -> ScoreFactors, agentPriority: Capability -> Option<Priority>)

  predicate AllGood(a: Attempt) {
    a == Attempt(true, true, true, true)
  }

  /** What a run goes by: its environment, whether policy is enforced, and the tasks' priorities and capabilities. */
  datatype Setting = Setting(
    env: Environment, gated: bool, priority: map<TaskId, Priority>, capability: map<TaskId, Capability>)
  {
    /** The workflow's tasks are known. */
    ghost predicate Knows(deps: Deps) {
      priority.Keys == deps.Keys && capability.Keys == deps.Keys
    }
  }

  /** A task keeps a priority of its own, and otherwise has that of the agent that serves it, if any. */
  ghost predicate Adopted(p: Priority, own: Priority, agent: Option<Priority>) {
    && (own != Normal ==> p == own)
    && (own == Normal && agent.Some? ==> p == agent.value)
    && (own == Normal && agent.None? ==> p == Normal)
  }

  /** Only tasks of the gated capabilities are ever denied, and only by an engine with a policy. */
  ghost predicate Denied(w: Setting, id: TaskId, a: Attempt)
    requires id in w.capability
  {
    w.gated && !w.capability[id].General? && !a.allowed
  }

  // ---------------------------------------------------------------------------
  // What the events so far say of a task
  // ---------------------------------------------------------------------------

  ghost function Fails(events: seq<Event>, id: TaskId): nat {
    if events == [] then 0
    else Fails(events[..|events| - 1], id) + if events[|events| - 1] == TaskFailed(id) then 1 else 0
  }

  /** The dispatch cycle in which a task was queued last: the one of its last start, or none. */
  ghost function Since(events: seq<Event>, id: TaskId): (n: nat)
    ensures n <= Starts(events)
  {
    if events == [] then 0
    else if events[|events| - 1] == TaskStarted(id) then Starts(events)
    else Since(events[..|events| - 1], id)
  }

  /** Not completed yet, with everything it waits for completed. */
  ghost predicate CanStart(deps: Deps, events: seq<Event>, id: TaskId) {
    id in deps && TaskCompleted(id) !in events && forall d :: d in deps[id] ==> TaskCompleted(d) in events
  }

  /** Its score, by its factors and its priority, and what it has earned by waiting. */
  ghost function Worth(w: Setting, events: seq<Event>, id: TaskId): real
    requires id in w.priority
  {
    w.env.factors(id, Fails(events, id)).Score(w.priority[id])
    + Aged(DEFAULT_AGING_RATE, Starts(events) + 1 - Since(events, id))
  }

  /** Of all tasks that can start, none is worth more. */
  ghost predicate GoesFirst(deps: Deps, w: Setting, events: seq<Event>, id: TaskId)
    requires w.Knows(deps)
  {
    CanStart(deps, events, id) && forall x :: CanStart(deps, events, x) ==> Worth(w, events, x) <= Worth(w, events, id)
  }

  /** Whatever starts goes first, is allowed and has a runtime; and it completes at once exactly if the runtime and the
      verifier say so. */
  ghost predicate Obeys(deps: Deps, w: Setting, events: seq<Event>)
    requires w.Knows(deps)
  {
    forall i :: 0 <= i < |events| && events[i].TaskStarted? ==> Obeyed(deps, w, events, i)
  }

  ghost predicate Obeyed(deps: Deps, w: Setting, events: seq<Event>, i: nat)
    requires w.Knows(deps) && i < |events| && events[i].TaskStarted?
  {
    var (before, id) := (events[..i], events[i].task);
    var a := w.env.attempt(Starts(before));
    && GoesFirst(deps, w, before, id) && !Denied(w, id, a) && a.hasRuntime
    && i + 1 < |events| && events[i + 1] == if a.runs && a.passes then TaskCompleted(id) else TaskFailed(id)
  }

  lemma ObeysNext(deps: Deps, w: Setting, events: seq<Event>, more: seq<Event>)
    requires w.Knows(deps) && Obeys(deps, w, events)
    requires forall e :: e in more ==> !e.TaskStarted?
    ensures Obeys(deps, w, events + more)
  {
    hide GoesFirst, Denied;
    var now := events + more;
    forall i | 0 <= i < |now| && now[i].TaskStarted?
      ensures Obeyed(deps, w, now, i)
    {
      assert i < |events| && now[..i] == events[..i];
      assert Obeyed(deps, w, events, i);
    }
  }

  lemma ObeysStart(deps: Deps, w: Setting, events: seq<Event>, id: TaskId, good: bool)
    requires w.Knows(deps) && Obeys(deps, w, events) && GoesFirst(deps, w, events, id)
    requires var a := w.env.attempt(Starts(events));
             !Denied(w, id, a) && a.hasRuntime && (good <==> a.runs && a.passes)
    ensures Obeys(deps, w, events + [TaskStarted(id), if good then TaskCompleted(id) else TaskFailed(id)])
  {
    hide GoesFirst, Denied;
    var now := events + [TaskStarted(id), if good then TaskCompleted(id) else TaskFailed(id)];
    forall i | 0 <= i < |now| && now[i].TaskStarted?
      ensures Obeyed(deps, w, now, i)
    {
      assert now[..i] == if i < |events| then events[..i] else events;
      assert i < |events| ==> Obeyed(deps, w, events, i);
    }
  }

  /** What an attempt adds. */
  lemma AfterAttempt(events: seq<Event>, id: TaskId, good: bool)
    ensures var now := events + [TaskStarted(id), if good then TaskCompleted(id) else TaskFailed(id)];
            && Starts(now) == Starts(events) + 1
            && Since(now, id) == Starts(events) + 1 && Fails(now, id) == Fails(events, id) + (if good then 0 else 1)
            && (forall x :: x != id ==> Since(now, x) == Since(events, x) && Fails(now, x) == Fails(events, x))
            && (forall x :: TaskCompleted(x) in now <==> TaskCompleted(x) in events || (good && x == id))
  {
    var last := if good then TaskCompleted(id) else TaskFailed(id);
    var mid, now := events + [TaskStarted(id)], events + [TaskStarted(id), last];
    assert now[..|now| - 1] == mid && mid[..|mid| - 1] == events;
    assert now[|events| + 1] == last;
    forall x
      ensures Since(mid, x) == (if x == id then Starts(events) + 1 else Since(events, x))
      ensures Fails(mid, x) == Fails(events, x) && Since(now, x) == Since(mid, x)
    {
    }
  }

  // ---------------------------------------------------------------------------
  // When nothing goes wrong
  // ---------------------------------------------------------------------------

  /** One start and one completion of each. */
  ghost function Straight(ids: seq<TaskId>): seq<Event> {
    if ids == [] then []
    else
      var last := ids[|ids| - 1];
      Straight(ids[..|ids| - 1]) + [TaskStarted(last), TaskCompleted(last)]
  }

  /** Each task, when its turn comes, can start and has the highest score of all that can. */
  ghost predicate ByScore(deps: Deps, w: Setting, ids: seq<TaskId>)
    requires w.Knows(deps)
  {
    forall k :: 0 <= k < |ids| ==>
      && Free(deps, ids[..k], ids[k])
      && forall x :: Free(deps, ids[..k], x) ==>
           w.env.factors(x, 0).Score(w.priority[x]) <= w.env.factors(ids[k], 0).Score(w.priority[ids[k]])
  }

  ghost predicate Free(deps: Deps, done: seq<TaskId>, id: TaskId) {
    id in deps && id !in done && forall d :: d in deps[id] ==> d in done
  }

  lemma {:induction false} StraightFacts(ids: seq<TaskId>)
    ensures Starts(Straight(ids)) == |ids|
    ensures forall x :: Fails(Straight(ids), x) == 0 && (x !in ids ==> Since(Straight(ids), x) == 0)
    ensures forall x :: TaskCompleted(x) in Straight(ids) <==> x in ids
  {
    if ids != [] {
      var front, last := ids[..|ids| - 1], ids[|ids| - 1];
      StraightFacts(front);
      AfterAttempt(Straight(front), last, true);
      assert ids == front + [last];
      var events := Straight(front);
      assert Straight(ids) == events + [TaskStarted(last), if true then TaskCompleted(last) else TaskFailed(last)];
      hide Straight, Fails, Since, Starts;
      forall x
        ensures Fails(Straight(ids), x) == 0 && (x !in ids ==> Since(Straight(ids), x) == 0)
      {
        assert Fails(events, x) == 0 && (x !in front ==> Since(events, x) == 0);
      }
    }
  }

  lemma {:induction false} StraightAt(ids: seq<TaskId>, k: nat)
    requires k < |ids|
    ensures var events := Straight(ids);
            2 * k < |events| && events[2 * k] == TaskStarted(ids[k]) && events[..2 * k] == Straight(ids[..k])
    decreases |ids|
  {
    var n := |ids| - 1;
    StraightLength(ids[..n]);
    if k < n {
      StraightAt(ids[..n], k);
      assert ids[..n][..k] == ids[..k];
    }
  }

  lemma {:induction false} StraightLength(ids: seq<TaskId>)
    ensures |Straight(ids)| == 2 * |ids|
  {
    if ids != [] {
      StraightLength(ids[..|ids| - 1]);
    }
  }

  /** Without failures nobody has waited longer than another, so that the score alone decides. */
  lemma StraightIsByScore(deps: Deps, w: Setting, ids: seq<TaskId>)
    requires w.Knows(deps) && Obeys(deps, w, Straight(ids))
    ensures ByScore(deps, w, ids)
  {
    hide Straight, GoesFirst;
    forall k | 0 <= k < |ids|
      ensures Free(deps, ids[..k], ids[k])
      ensures forall x :: Free(deps, ids[..k], x) ==>
                w.env.factors(x, 0).Score(w.priority[x]) <= w.env.factors(ids[k], 0).Score(w.priority[ids[k]])
    {
      StraightAt(ids, k);
      assert Obeyed(deps, w, Straight(ids), 2 * k);
      FirstIsByScore(deps, w, ids[..k], ids[k]);
    }
  }

  lemma FirstIsByScore(deps: Deps, w: Setting, done: seq<TaskId>, id: TaskId)
    requires w.Knows(deps) && GoesFirst(deps, w, Straight(done), id)
    ensures Free(deps, done, id)
    ensures forall x :: Free(deps, done, x) ==>
              w.env.factors(x, 0).Score(w.priority[x]) <= w.env.factors(id, 0).Score(w.priority[id])
  {
    StraightFacts(done);
    hide ScoreFactors.Score, Aged, Straight;
    var before := Straight(done);
    forall x
      ensures Free(deps, done, x) <==> CanStart(deps, before, x)
      ensures Free(deps, done, x) ==>
                Worth(w, before, x) == w.env.factors(x, 0).Score(w.priority[x]) + Aged(DEFAULT_AGING_RATE, |done| + 1)
    {
    }
    hide CanStart, Free, Worth;
  }
}
