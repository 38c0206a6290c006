/** What aging buys: a fixed order between waiting tasks, and a bound on overtaking. */
module Aging {
  import opened Results
  import opened Tasks
  import opened Scores
  import opened Scheduling

  /** The clock-independent part of an entry's effective score. */
  ghost function Key(e: Entry, rate: real): real {
    e.score - Aged(rate, e.enqueuedAt)
  }

  lemma EffectiveIsKeyPlusClock(e: Entry, clock: nat, rate: real)
    requires e.enqueuedAt <= clock
    ensures Effective(e, clock, rate) == Key(e, rate) + Aged(rate, clock)
  {
    AgedDifference(rate, clock, e.enqueuedAt);
  }

  lemma AgedDifference(rate: real, a: int, b: int)
    ensures Aged(rate, a - b) == Aged(rate, a) - Aged(rate, b)
  {
    var x, y := a as real, b as real;
    assert (a - b) as real == x - y;
    assert rate * (x - y) == rate * x - rate * y;
  }

  /** Two waiting tasks never change places: their gap is the same at every clock. */
  lemma WaitingOrderIsFixed(a: Entry, b: Entry, rate: real, clock: nat, later: nat)
    requires a.enqueuedAt <= clock && b.enqueuedAt <= clock <= later
    ensures Effective(a, clock, rate) - Effective(b, clock, rate)
         == Effective(a, later, rate) - Effective(b, later, rate)
  {
    EffectiveIsKeyPlusClock(a, clock, rate);
    EffectiveIsKeyPlusClock(b, clock, rate);
    EffectiveIsKeyPlusClock(a, later, rate);
    EffectiveIsKeyPlusClock(b, later, rate);
  }

  /** A dispatched task was enqueued at most `2 / rate` ticks after any task that was ready with it. */
  lemma NoLateOvertaking(s: State, at: nat, w: Entry, rate: real)
    requires WellFormed(s) && rate >= 0.0
    requires IsBest(s.queue, s.completed, s.clock + 1, rate, at)
    requires w in s.queue && Ready(w, s.completed)
    ensures Aged(rate, s.queue[at].enqueuedAt - w.enqueuedAt) <= 2.0
  {
    var e := s.queue[at];
    EffectiveIsKeyPlusClock(e, s.clock + 1, rate);
    EffectiveIsKeyPlusClock(w, s.clock + 1, rate);
    assert Key(w, rate) <= Key(e, rate);
    AgedDifference(rate, e.enqueuedAt, w.enqueuedAt);
  }

  /** At the default rate a task of the lowest priority catches up with one of the highest, with the same factors,
      once it has waited twenty ticks longer, and not before. */
  lemma LowCatchesUp(low: Entry, critical: Entry, f: ScoreFactors, clock: nat)
    requires low.score == f.Score(Low) && critical.score == f.Score(Critical)
    requires low.enqueuedAt <= clock && critical.enqueuedAt <= clock
    ensures Effective(low, clock, DEFAULT_AGING_RATE) >= Effective(critical, clock, DEFAULT_AGING_RATE) <==>
            critical.enqueuedAt >= low.enqueuedAt + 20
  {
    WholeRange(f);
    hide ScoreFactors.Score;
  }

  // ---------------------------------------------------------------------------
  // Runs
  // ---------------------------------------------------------------------------

  /** Any interleaving of arrivals, dispatch cycles and completions. */
  ghost predicate Run(states: seq<State>, ops: seq<Op>, rate: real) {
    && |states| == |ops| + 1
    && forall k :: 0 <= k < |ops| ==> Step(states[k], ops[k], states[k + 1], rate)
  }

  lemma StepsAppend(states: seq<State>, ops: seq<Op>, rate: real, next: State, op: Op)
    requires Run(states, ops, rate) && Step(states[|ops|], op, next, rate)
    ensures Run(states + [next], ops + [op], rate)
  {
  }

  ghost function Dispatches(ops: seq<Op>): nat {
    if ops == [] then 0 else Dispatches(ops[..|ops| - 1]) + (if ops[|ops| - 1].Dispatch? then 1 else 0)
  }

  /** Entries enqueued before tick `t`. */
  ghost function EnqueuedBefore(queue: seq<Entry>, t: nat): nat {
    if queue == [] then 0
    else EnqueuedBefore(queue[..|queue| - 1], t) + (if queue[|queue| - 1].enqueuedAt < t then 1 else 0)
  }

  lemma {:induction false} EnqueuedBeforeConcat(a: seq<Entry>, b: seq<Entry>, t: nat)
    ensures EnqueuedBefore(a + b, t) == EnqueuedBefore(a, t) + EnqueuedBefore(b, t)
  {
    if b == [] {
      assert a + b == a;
    } else {
      assert (a + b)[..|a + b| - 1] == a + b[..|b| - 1];
      EnqueuedBeforeConcat(a, b[..|b| - 1], t);
    }
  }

  lemma {:induction false} EnqueuedBeforeBounds(queue: seq<Entry>, t: nat)
    ensures EnqueuedBefore(queue, t) <= |queue|
    ensures (exists e :: e in queue && e.enqueuedAt < t) ==> EnqueuedBefore(queue, t) > 0
  {
    if queue != [] {
      EnqueuedBeforeBounds(queue[..|queue| - 1], t);
    }
  }

  lemma EnqueuedBeforeOne(e: Entry, t: nat)
    ensures EnqueuedBefore([e], t) == if e.enqueuedAt < t then 1 else 0
  {
    assert [e][..0] == [];
  }

  lemma EnqueuedBeforeRemoval(queue: seq<Entry>, at: nat, t: nat)
    requires at < |queue| && queue[at].enqueuedAt < t
    ensures EnqueuedBefore(SwapRemove(queue, at), t) == EnqueuedBefore(queue, t) - 1
  {
    var n := |queue| - 1;
    var last := queue[n];
    if at < n {
      var l, m := queue[..at], queue[at + 1..n];
      assert queue == l + [queue[at]] + m + [last];
      assert SwapRemove(queue, at) == l + [last] + m;
      EnqueuedBeforeConcat(l + [queue[at]] + m, [last], t);
      EnqueuedBeforeConcat(l + [queue[at]], m, t);
      EnqueuedBeforeConcat(l, [queue[at]], t);
      EnqueuedBeforeConcat(l + [last], m, t);
      EnqueuedBeforeConcat(l, [last], t);
      EnqueuedBeforeOne(queue[at], t);
      EnqueuedBeforeOne(last, t);
    }
  }

  /** While `w` waits, ready, every dispatch uses up one of the entries enqueued before `t`. */
  lemma StepUsesUpOld(s: State, op: Op, s': State, rate: real, w: Entry, t: nat)
    requires Step(s, op, s', rate) && WellFormed(s) && rate > 0.0
    requires w in s.queue && Ready(w, s.completed)
    requires t <= s.clock && w.enqueuedAt < t && Aged(rate, t - w.enqueuedAt) > 2.0
    ensures WellFormed(s') && s'.clock >= s.clock && Ready(w, s'.completed)
    ensures EnqueuedBefore(s'.queue, t) + (if op.Dispatch? then 1 else 0) == EnqueuedBefore(s.queue, t)
  {
    match op
    case Submit(e) =>
      EnqueuedBeforeConcat(s.queue, [e], t);
      EnqueuedBeforeOne(e, t);
    case Dispatch(at) =>
      NoLateOvertaking(s, at, w, rate);
      var e := s.queue[at];
      FewerTicks(rate, e.enqueuedAt - w.enqueuedAt, t - w.enqueuedAt);
      EnqueuedBeforeRemoval(s.queue, at, t);
    case Idle =>
    case Complete(_) =>
  }

  /** Aging is monotone, so a smaller gain means fewer ticks. */
  lemma FewerTicks(rate: real, a: int, b: int)
    requires rate > 0.0 && Aged(rate, a) < Aged(rate, b)
    ensures a < b
  {
    AgedDifference(rate, b, a);
  }

  lemma {:induction false} RunUsesUpOld(states: seq<State>, ops: seq<Op>, rate: real, w: Entry, t: nat)
    requires Run(states, ops, rate) && WellFormed(states[0]) && rate > 0.0
    requires Ready(w, states[0].completed)
    requires forall k :: 0 <= k < |states| ==> w in states[k].queue
    requires t <= states[0].clock && w.enqueuedAt < t && Aged(rate, t - w.enqueuedAt) > 2.0
    ensures var s := states[|ops|]; WellFormed(s) && t <= s.clock && Ready(w, s.completed)
    ensures EnqueuedBefore(states[|ops|].queue, t) + Dispatches(ops) == EnqueuedBefore(states[0].queue, t)
    decreases |ops|
  {
    var n := |ops|;
    if n > 0 {
      RunUsesUpOld(states[..n], ops[..n - 1], rate, w, t);
      StepUsesUpOld(states[n - 1], ops[n - 1], states[n], rate, w, t);
    }
  }

  /** No starvation: once a ready task has waited more than `2 / rate` ticks, it is dispatched before as
      many dispatches have happened as there are tasks queued at that moment, whatever arrives later. */
  lemma BoundedOvertaking(states: seq<State>, ops: seq<Op>, rate: real, w: Entry)
    requires Run(states, ops, rate) && WellFormed(states[0]) && rate > 0.0
    requires Ready(w, states[0].completed)
    requires forall k :: 0 <= k < |states| ==> w in states[k].queue
    requires Aged(rate, states[0].clock - w.enqueuedAt) > 2.0
    ensures Dispatches(ops) < |states[0].queue|
  {
    var t := states[0].clock;
    assert w in states[0].queue;
    FewerTicks(rate, 0, t - w.enqueuedAt);
    RunUsesUpOld(states, ops, rate, w, t);
    assert w in states[|ops|].queue;
    EnqueuedBeforeBounds(states[|ops|].queue, t);
    EnqueuedBeforeBounds(states[0].queue, t);
  }

  // ---------------------------------------------------------------------------
  // Without aging
  // ---------------------------------------------------------------------------

  lemma {:induction false} RunsAppend(first: seq<State>, ops: seq<Op>, second: seq<State>, more: seq<Op>, rate: real)
    requires Run(first, ops, rate) && Run(second, more, rate) && first[|ops|] == second[0]
    ensures Run(first + second[1..], ops + more, rate) && Dispatches(ops + more) == Dispatches(ops) + Dispatches(more)
  {
    var states := first + second[1..];
    assert forall k :: |ops| <= k < |states| ==> states[k] == second[k - |ops|];
    DispatchesConcat(ops, more);
  }

  lemma {:induction false} DispatchesConcat(a: seq<Op>, b: seq<Op>)
    ensures Dispatches(a + b) == Dispatches(a) + Dispatches(b)
  {
    if b == [] {
      assert a + b == a;
    } else {
      assert (a + b)[..|a + b| - 1] == a + b[..|b| - 1];
      DispatchesConcat(a, b[..|b| - 1]);
    }
  }

  /** What stays true of a task that is passed over: it is still where it was, and something can still go before it. */
  ghost predicate Passable(s: State, i: nat, w: Entry) {
    && i < |s.queue| && s.queue[i] == w
    && (w.score < 2.0 || exists j :: 0 <= j < i && s.queue[j].score == 2.0)
  }

  /** The entry at `i` stays there throughout. */
  ghost predicate Stays(states: seq<State>, i: nat, w: Entry) {
    forall k :: 0 <= k < |states| ==> i < |states[k].queue| && states[k].queue[i] == w
  }

  lemma {:induction false} CompleteAll(s: State, ids: seq<TaskId>) returns (states: seq<State>, ops: seq<Op>)
    ensures Run(states, ops, 0.0) && states[0] == s && Dispatches(ops) == 0
    ensures forall k :: 0 <= k < |states| ==> states[k].queue == s.queue
    ensures states[|ops|].clock == s.clock && forall d :: d in ids ==> d in states[|ops|].completed
    ensures s.completed <= states[|ops|].completed
  {
    if ids == [] {
      states, ops := [s], [];
    } else {
      var last := ids[|ids| - 1];
      var before, did := CompleteAll(s, ids[..|ids| - 1]);
      var t := before[|did|];
      var next := t.(completed := t.completed + {last});
      assert Step(t, Complete(last), next, 0.0);
      StepsAppend(before, did, 0.0, next, Complete(last));
      states, ops := before + [next], did + [Complete(last)];
      assert ops[..|did|] == did;
      assert ids == ids[..|ids| - 1] + [last];
    }
  }

  lemma NoAgingIsScore(e: Entry, clock: nat)
    ensures Effective(e, clock, 0.0) == e.score
  {
  }

  lemma {:induction false} SomeBest(queue: seq<Entry>, n: nat, completed: set<TaskId>, clock: nat, rate: real)
    returns (best: Option<nat>)
    requires n <= |queue|
    ensures BestSoFar(queue, n, completed, clock, rate, best)
  {
    hide Effective;
    if n == 0 {
      best := None;
    } else {
      best := SomeBest(queue, n - 1, completed, clock, rate);
      if Ready(queue[n - 1], completed)
         && (best.None? || Effective(queue[n - 1], clock, rate) > Effective(queue[best.value], clock, rate))
      {
        best := Some(n - 1);
      }
    }
  }

  /** Once everything before it that matters is ready, one arrival and one dispatch pass a task over. */
  lemma PassedOver(s: State, i: nat, w: Entry) returns (t: State, u: State, e: Entry, at: nat)
    requires WellFormed(s) && i < |s.queue| && s.queue[i] == w
    requires w.score < 2.0 || exists j :: 0 <= j < i && s.queue[j].score == 2.0 && Ready(s.queue[j], s.completed)
    ensures Step(s, Submit(e), t, 0.0) && Step(t, Dispatch(at), u, 0.0)
    ensures WellFormed(u) && Passable(u, i, w) && i < |t.queue| && t.queue[i] == w
  {
    e := Entry(0, 2.0, s.clock, []);
    t := s.(queue := s.queue + [e]);
    at := BestIsHighest(s, e, i);
    u := AfterDispatch(t, at);
    hide IsBest;
    var last := |s.queue|;
    assert at < last ==> u.queue[at] == e;
    assert forall x :: x in u.queue ==> x in s.queue || x == e;
  }

  /** With a ready task of the highest score behind the queue, the best one is not the task that is passed over. */
  lemma BestIsHighest(s: State, e: Entry, i: nat) returns (at: nat)
    requires WellFormed(s) && i < |s.queue| && e.score == 2.0 && e.deps == []
    requires s.queue[i].score < 2.0
             || exists j :: 0 <= j < i && s.queue[j].score == 2.0 && Ready(s.queue[j], s.completed)
    ensures at <= |s.queue| && at != i && (s.queue[i].score == 2.0 ==> at < i)
    ensures IsBest(s.queue + [e], s.completed, s.clock + 1, 0.0, at)
  {
    var last, queue := |s.queue|, s.queue + [e];
    assert queue[last] == e && Ready(e, s.completed);
    assert forall k :: 0 <= k < last ==> queue[k] == s.queue[k] && s.queue[k] in s.queue;
    var best := SomeBest(queue, last + 1, s.completed, s.clock + 1, 0.0);
    forall k | 0 <= k <= last
      ensures Effective(queue[k], s.clock + 1, 0.0) == queue[k].score <= 2.0
    {
      NoAgingIsScore(queue[k], s.clock + 1);
    }
    hide Effective;
    at := best.value;
    assert queue[at].score == 2.0;
  }

  /** With aging disabled there is no bound: from any state, a task that does not have the highest score, or has it but
      not as the first in the queue, can be passed over any number of times. */
  lemma {:induction false} NoAgingStarves(s: State, i: nat, w: Entry, n: nat) returns (states: seq<State>, ops: seq<Op>)
    requires WellFormed(s) && Passable(s, i, w)
    ensures Run(states, ops, 0.0) && states[0] == s && Stays(states, i, w) && Dispatches(ops) == n
    ensures WellFormed(states[|ops|]) && Passable(states[|ops|], i, w)
  {
    if n == 0 {
      states, ops := [s], [];
    } else {
      var before, did := NoAgingStarves(s, i, w, n - 1);
      var last := before[|did|];
      var deps := [];
      if w.score == 2.0 {
        var j :| 0 <= j < i && last.queue[j].score == 2.0;
        deps := last.queue[j].deps;
      }
      var waited, done := CompleteAll(last, deps);
      var t, u, e, at := PassedOver(waited[|done|], i, w);
      StepsAppend(waited, done, 0.0, t, Submit(e));
      StepsAppend(waited + [t], done + [Submit(e)], 0.0, u, Dispatch(at));
      var more, did' := waited + [t] + [u], done + [Submit(e)] + [Dispatch(at)];
      assert did'[..|did'| - 1] == done + [Submit(e)] && (done + [Submit(e)])[..|done|] == done;
      assert Stays(more, i, w);
      RunsAppend(before, did, more, did', 0.0);
      states, ops := before + more[1..], did + did';
    }
  }

  /** Otherwise it is not passed over at all: whatever arrives or completes before, the next dispatch takes it. */
  lemma FirstInLineIsNext(states: seq<State>, ops: seq<Op>, i: nat, w: Entry, at: nat)
    requires Run(states, ops, 0.0) && WellFormed(states[0]) && i < |states[0].queue| && states[0].queue[i] == w
    requires !Passable(states[0], i, w) && Ready(w, states[0].completed)
    requires ops != [] && ops[|ops| - 1] == Dispatch(at) && Dispatches(ops[..|ops| - 1]) == 0
    ensures at == i
  {
    var n := |ops| - 1;
    QueueOnlyGrows(states[..n + 1], ops[..n], i, w);
    var s := states[n];
    assert Step(s, ops[n], states[n + 1], 0.0);
    forall k | 0 <= k < |s.queue|
      ensures Effective(s.queue[k], s.clock + 1, 0.0) == s.queue[k].score <= 2.0
    {
      NoAgingIsScore(s.queue[k], s.clock + 1);
      assert s.queue[k] in s.queue;
    }
    hide Effective;
  }

  /** Until the first dispatch the queue only grows at its end. */
  lemma {:induction false} QueueOnlyGrows(states: seq<State>, ops: seq<Op>, i: nat, w: Entry)
    requires Run(states, ops, 0.0) && WellFormed(states[0]) && Dispatches(ops) == 0
    requires Ready(w, states[0].completed)
    ensures WellFormed(states[|ops|]) && states[0].queue <= states[|ops|].queue
    ensures Ready(w, states[|ops|].completed)
    decreases |ops|
  {
    var n := |ops|;
    if n > 0 {
      QueueOnlyGrows(states[..n], ops[..n - 1], i, w);
      assert Step(states[n - 1], ops[n - 1], states[n], 0.0);
    }
  }
}
