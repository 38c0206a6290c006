/** The priority queue with dependency gate and aging (scheduler/src/lib.rs). */
module Scheduling {
  import opened Results
  import opened Tasks
  import opened Scores

  // ---------------------------------------------------------------------------
  // The queue as a value
  // ---------------------------------------------------------------------------

  /** What the dispatcher sees of one pending task. */
  datatype Entry = Entry(id: TaskId, score: real, enqueuedAt: nat, deps: seq<TaskId>)

  predicate Ready(e: Entry, completed: set<TaskId>) {
    forall d :: d in e.deps ==> d in completed
  }

  ghost predicate NoneReady(queue: seq<Entry>, completed: set<TaskId>) {
    forall e :: e in queue ==> !Ready(e, completed)
  }

  /** Score plus the aging earned by `clock`; a task enqueued later than `clock` has earned none. */
  function Effective(e: Entry, clock: nat, rate: real): real {
    e.score + Aged(rate, if e.enqueuedAt <= clock then clock - e.enqueuedAt else 0)
  }

  function Aged(rate: real, ticks: int): real {
    rate * ticks as real
  }

  /** The state of the scan after `n` entries. */
  ghost predicate BestSoFar(queue: seq<Entry>, n: nat, completed: set<TaskId>, clock: nat, rate: real,
        best: Option<nat>)
    requires n <= |queue|
  {
    match best
    case None => forall j :: 0 <= j < n ==> !Ready(queue[j], completed)
    case Some(i) =>
      && i < n
      && Ready(queue[i], completed)
      && (forall j :: 0 <= j < n && Ready(queue[j], completed) ==>
            Effective(queue[j], clock, rate) <= Effective(queue[i], clock, rate))
      && (forall j :: 0 <= j < i && Ready(queue[j], completed) ==>
            Effective(queue[j], clock, rate) < Effective(queue[i], clock, rate))
  }

  /** Position `i` holds the first of the ready entries with the highest effective score. */
  ghost predicate IsBest(queue: seq<Entry>, completed: set<TaskId>, clock: nat, rate: real, i: nat) {
    BestSoFar(queue, |queue|, completed, clock, rate, Some(i))
  }

  /** Removal that fills the gap with the last element. */
  function SwapRemove<T>(s: seq<T>, i: nat): seq<T>
    requires i < |s|
  {
    var last := |s| - 1;
    if i == last then s[..last] else s[..last][i := s[last]]
  }

  /** Nothing but the removed element is lost; only the last one moves, into its place. */
  lemma SwapRemoveContents<T>(s: seq<T>, i: nat)
    requires i < |s|
    ensures multiset(SwapRemove(s, i)) + multiset{s[i]} == multiset(s)
    ensures forall j :: 0 <= j < |s| - 1 ==> SwapRemove(s, i)[j] == if j == i then s[|s| - 1] else s[j]
  {
    var last := |s| - 1;
    assert s == s[..last] + [s[last]];
    if i < last {
      assert s[..last] == s[..i] + [s[i]] + s[i + 1..last];
      assert SwapRemove(s, i) == s[..i] + [s[last]] + s[i + 1..last];
    }
  }

  datatype State = State(queue: seq<Entry>, completed: set<TaskId>, clock: nat)

  datatype Op = Submit(entry: Entry) | Dispatch(at: nat) | Idle | Complete(id: TaskId)

  /** The scheduler's operations as steps: arrivals are stamped with the clock, every dispatch cycle
      advances it, and a cycle is idle only when nothing is ready. */
  ghost predicate Step(s: State, op: Op, t: State, rate: real) {
    match op
    case Submit(e) =>
      e.enqueuedAt == s.clock && 0.0 <= e.score <= 2.0 && t == s.(queue := s.queue + [e])
    case Dispatch(at) =>
      && IsBest(s.queue, s.completed, s.clock + 1, rate, at)
      && t == AfterDispatch(s, at)
    case Idle =>
      && NoneReady(s.queue, s.completed)
      && t == AfterIdle(s)
    case Complete(id) =>
      t == s.(completed := s.completed + {id})
  }

  ghost function AfterDispatch(s: State, at: nat): State
    requires at < |s.queue|
  {
    State(SwapRemove(s.queue, at), s.completed, s.clock + 1)
  }

  ghost function AfterIdle(s: State): State {
    s.(clock := s.clock + 1)
  }

  lemma DispatchIsStep(s: State, rate: real, at: nat)
    requires IsBest(s.queue, s.completed, s.clock + 1, rate, at)
    ensures at < |s.queue| && Step(s, Dispatch(at), AfterDispatch(s, at), rate)
  {
  }

  lemma IdleIsStep(s: State, rate: real)
    requires NoneReady(s.queue, s.completed)
    ensures Step(s, Idle, AfterIdle(s), rate)
  {
  }

  /** Nothing was enqueued in the future, and scores are in range. */
  ghost predicate WellFormed(s: State) {
    forall e :: e in s.queue ==> e.enqueuedAt <= s.clock && 0.0 <= e.score <= 2.0
  }

  // ---------------------------------------------------------------------------
  // The queue as an object
  // ---------------------------------------------------------------------------

  datatype Pending = Pending(task: Task, factors: ScoreFactors, enqueuedAt: nat) {
    function View(): Entry
      reads task
    {
      Entry(task.id, factors.Score(task.priority), enqueuedAt, task.dependsOn)
    }
  }

  function Views(pending: seq<Pending>): (r: seq<Entry>)
    reads set p | p in pending :: p.task
    ensures |r| == |pending| && forall i :: 0 <= i < |r| ==> r[i] == pending[i].View()
  {
    seq(|pending|, i requires 0 <= i < |pending| reads set p | p in pending :: p.task => pending[i].View())
  }

  lemma ViewsSwapRemove(pending: seq<Pending>, i: nat)
    requires i < |pending|
    ensures Views(SwapRemove(pending, i)) == SwapRemove(Views(pending), i)
  {
  }

  /** `p` is nowhere behind `q` (neither in priority nor in any factor nor in how long it has waited) and is ahead of it
      in something. */
  ghost predicate Outdoes(p: Pending, q: Pending, rate: real)
    reads p.task, q.task
  {
    && p.enqueuedAt <= q.enqueuedAt && !Below(p.task.priority, q.task.priority) && AsGood(p.factors, q.factors)
    && (|| Surpasses(p.factors, p.task.priority, q.factors, q.task.priority)
        || (rate > 0.0 && p.enqueuedAt < q.enqueuedAt))
  }

  lemma OutdoingIsAhead(p: Pending, q: Pending, clock: nat, rate: real)
    requires rate >= 0.0 && q.enqueuedAt <= clock && Outdoes(p, q, rate)
    ensures Effective(p.View(), clock, rate) > Effective(q.View(), clock, rate)
  {
    SurpassingScores(p.factors, p.task.priority, q.factors, q.task.priority);
    hide ScoreFactors.Score, Surpasses, AsGood, Below;
    MoreTicks(rate, clock - q.enqueuedAt, clock - p.enqueuedAt);
  }

  lemma MoreTicks(rate: real, a: int, b: int)
    requires rate >= 0.0 && a <= b
    ensures Aged(rate, a) <= Aged(rate, b) && (rate > 0.0 && a < b ==> Aged(rate, a) < Aged(rate, b))
  {
    if rate > 0.0 && a < b {
      var x, y := a as real, b as real;
      assert x < y;
      Grows(rate, x, y);
      assert Aged(rate, a) == rate * x && Aged(rate, b) == rate * y;
    }
  }

  lemma Grows(rate: real, x: real, y: real)
    requires rate > 0.0 && x < y
    ensures rate * x < rate * y
  {
  }

  /** The best of the ready tasks is outdone by none of them. */
  lemma BestIsNotOutdone(pending: seq<Pending>, completed: set<TaskId>, clock: nat, rate: real, at: nat)
    requires rate >= 0.0 && forall p :: p in pending ==> p.enqueuedAt <= clock
    requires IsBest(Views(pending), completed, clock, rate, at)
    ensures at < |pending|
    ensures forall p :: p in pending && (forall d :: d in p.task.dependsOn ==> d in completed) ==>
              !Outdoes(p, pending[at], rate)
  {
    hide Outdoes, ScoreFactors.Score, Effective;
    forall p | p in pending && (forall d :: d in p.task.dependsOn ==> d in completed)
      ensures !Outdoes(p, pending[at], rate)
    {
      var i :| 0 <= i < |pending| && pending[i] == p;
      assert Ready(Views(pending)[i], completed);
      if Outdoes(p, pending[at], rate) {
        OutdoingIsAhead(p, pending[at], clock, rate);
        assert false;
      }
    }
  }

  const DEFAULT_AGING_RATE: real := 0.05
  const F32_MIN: real := -340282346638528859811704183484516925440.0

  class Scheduler {
    var pending: seq<Pending>
    var completed: set<TaskId>
    var clock: nat
    const agingRate: real

    ghost predicate Valid()
      reads this
    {
      agingRate >= 0.0 && forall p :: p in pending ==> p.enqueuedAt <= clock
    }

    /** The scheduler as a value. */
    ghost function Value(): State
      reads this, set p | p in pending :: p.task
    {
      State(Views(pending), completed, clock)
    }

    constructor ()
      ensures Valid()
      ensures pending == [] && completed == {} && clock == 0 && agingRate == DEFAULT_AGING_RATE
    {
      pending, completed, clock, agingRate := [], {}, 0, DEFAULT_AGING_RATE;
    }

    /** The rate is never negative. */
    constructor WithAgingRate(rate: real)
      ensures Valid()
      ensures pending == [] && completed == {} && clock == 0
      ensures if rate >= 0.0 then agingRate == rate else agingRate == 0.0
    {
      pending, completed, clock := [], {}, 0;
      agingRate := if rate < 0.0 then 0.0 else rate;
    }

    method SubmitScored(task: Task, factors: ScoreFactors)
      requires Valid()
      modifies this`pending
      ensures Valid() && pending == old(pending) + [Pending(task, factors, clock)]
      ensures Step(old(Value()), Submit(Pending(task, factors, clock).View()), Value(), agingRate)
    {
      pending := pending + [Pending(task, factors, clock)];
    }

    method MarkCompleted(id: TaskId)
      requires Valid()
      modifies this`completed
      ensures Valid() && completed == old(completed) + {id}
      ensures Step(old(Value()), Complete(id), Value(), agingRate)
    {
      completed := completed + {id};
    }

    /** One dispatch cycle: removes the best ready task, if any; `at` is where it stood. */
    method DispatchNext() returns (r: Option<Task>, ghost at: nat)
      requires Valid()
      modifies this`pending, this`clock
      ensures Valid() && clock == old(clock) + 1
      ensures r.None? ==> pending == old(pending) && NoneReady(old(Views(pending)), completed)
      ensures r.Some? ==>
                && IsBest(old(Views(pending)), completed, clock, agingRate, at)
                && r.value == old(pending)[at].task
                && pending == SwapRemove(old(pending), at)
      ensures r.Some? ==> Views(pending) == SwapRemove(old(Views(pending)), at)
      ensures r.Some? ==>
                && at < |old(pending)|
                && forall p :: p in old(pending) && (forall d :: d in p.task.dependsOn ==> d in completed) ==>
                     !Outdoes(p, old(pending)[at], agingRate)
      ensures Step(old(Value()), if r.Some? then Dispatch(at) else Idle, Value(), agingRate)
    {
      hide IsBest, NoneReady, Step, SwapRemove, Outdoes;
      ghost var queue, before := Views(pending), Value();
      clock := clock + 1;
      assert Views(pending) == queue;
      var best := FindBest(queue);
      if best.None? {
        IdleIsStep(before, agingRate);
        return None, 0;
      }
      at := best.value;
      DispatchIsStep(before, agingRate, at);
      BestIsNotOutdone(pending, completed, clock, agingRate, at);
      var task := Take(best.value);
      return Some(task), at;
    }

    method Take(at: nat) returns (task: Task)
      requires Valid() && at < |pending|
      modifies this`pending
      ensures Valid()
      ensures task == old(pending)[at].task
      ensures pending == SwapRemove(old(pending), at)
      ensures Views(pending) == SwapRemove(old(Views(pending)), at)
    {
      task := pending[at].task;
      ViewsSwapRemove(pending, at);
      pending := SwapRemove(pending, at);
    }

    /** Scans the queue in order, keeping the first entry that beats all ready ones before it. */
    method FindBest(ghost queue: seq<Entry>) returns (best: Option<nat>)
      requires Valid() && queue == Views(pending)
      ensures best.Some? ==> IsBest(queue, completed, clock, agingRate, best.value)
      ensures best.None? ==> NoneReady(queue, completed)
    {
      best := None;
      var bestScore := F32_MIN;
      var i := 0;
      while i < |pending|
        invariant 0 <= i <= |pending|
        invariant BestSoFar(queue, i, completed, clock, agingRate, best)
        invariant bestScore == if best.None? then F32_MIN else Effective(queue[best.value], clock, agingRate)
      {
        var e := pending[i].View();
        assert e == queue[i];
        if Ready(e, completed) {
          var s := Effective(e, clock, agingRate);
          EffectiveNonNegative(e, clock, agingRate);
          if s > bestScore {
            bestScore := s;
            best := Some(i);
          }
        }
        i := i + 1;
      }
    }
  }

  /** What the theorems about runs ask of a starting point holds of every scheduler. */
  lemma ValidIsWellFormed(s: Scheduler)
    requires s.Valid()
    ensures WellFormed(s.Value())
  {
    forall e | e in s.Value().queue
      ensures e.enqueuedAt <= s.clock && 0.0 <= e.score <= 2.0
    {
      var i :| 0 <= i < |s.pending| && e == s.pending[i].View();
    }
  }

  lemma EffectiveNonNegative(e: Entry, clock: nat, rate: real)
    requires rate >= 0.0 && e.score >= 0.0
    ensures Effective(e, clock, rate) >= 0.0
  {
  }
}
