/** Workflow graphs (workflow/src/lib.rs): building them and putting them in order. */
module Workflow {
  import opened Results
  import opened Sequences
  import opened Tasks

  /** `deps[i]` lists the step indices step `i` depends on, repeats included. */
  type DepLists = seq<seq<nat>>

  ghost predicate InRange(deps: DepLists) {
    forall i :: 0 <= i < |deps| ==> AllBelow(deps[i], |deps|)
  }

  ghost predicate AllBelow(ds: seq<nat>, n: nat) {
    forall d :: d in ds ==> d < n
  }

  /** Each step of the walk depends on the next one. */
  ghost predicate IsWalk(deps: DepLists, w: seq<nat>) {
    && (forall i :: 0 <= i < |w| ==> w[i] < |deps|)
    && (forall i, j :: 0 <= i < |w| && j == i + 1 && j < |w| ==> w[j] in deps[w[i]])
  }

  /** A walk that closes: its last step depends on its first. */
  ghost predicate IsCycle(deps: DepLists, c: seq<nat>) {
    |c| > 0 && IsWalk(deps, c) && c[0] in deps[c[|c| - 1]]
  }

  ghost predicate HasCycle(deps: DepLists) {
    exists c: seq<nat> :: IsCycle(deps, c)
  }

  /** Every step once, each after everything it depends on. */
  ghost predicate IsExecutionOrder(deps: DepLists, order: seq<nat>) {
    && |order| == |deps|
    && NoDup(order)
    && (forall x :: x in order ==> x < |deps|)
    && DepsFirst(deps, order)
  }

  ghost predicate DepsFirst(deps: DepLists, order: seq<nat>)
    requires forall x :: x in order ==> x < |deps|
  {
    forall i: nat, d :: i < |order| && order[i] in order && d in deps[order[i]] ==> d in order[..i]
  }

  // ---------------------------------------------------------------------------
  // Orders and cycles exclude each other
  // ---------------------------------------------------------------------------

  lemma OrderCoversAll(n: nat, order: seq<nat>)
    requires |order| == n && NoDup(order)
    requires forall x :: x in order ==> x < n
    ensures forall x: nat :: x < n ==> x in order
  {
    NoDupFitsIn(order, Below(n));
    forall x: nat | x < n
      ensures x in order
    {
      assert x in Below(n);
      assert x in Elems(order);
    }
  }

  /** Walking a cycle from the position of its first step only ever moves earlier in the order. */
  lemma {:induction false} CycleDescends(deps: DepLists, order: seq<nat>, c: seq<nat>, k: nat, p: nat) returns (q: nat)
    requires IsExecutionOrder(deps, order) && IsCycle(deps, c)
    requires k < |c| && p < |order| && order[p] == c[0]
    ensures q < |order| && order[q] == c[k] && q + k <= p
  {
    if k == 0 {
      q := p;
    } else {
      var prev := CycleDescends(deps, order, c, k - 1, p);
      assert c[k] in deps[c[k - 1]];
      q :| 0 <= q < prev && order[q] == c[k];
    }
  }

  lemma OrderExcludesCycle(deps: DepLists, order: seq<nat>)
    requires IsExecutionOrder(deps, order)
    ensures InRange(deps) && !HasCycle(deps)
  {
    OrderCoversAll(|deps|, order);
    forall i: nat, d | i < |deps| && d in deps[i]
      ensures d < |deps|
    {
      assert i in order;
      var p :| 0 <= p < |order| && order[p] == i;
      assert d in order[..p];
      assert d in order;
    }
    if c :| IsCycle(deps, c) {
      assert c[0] in order;
      var p :| 0 <= p < |order| && order[p] == c[0];
      var q := CycleDescends(deps, order, c, |c| - 1, p);
      assert false;
    }
  }

  /** `next` picks, for each stuck step, a dependency that is stuck as well. */
  ghost predicate PicksStuck(deps: DepLists, stuck: set<nat>, next: map<nat, nat>) {
    && next.Keys == stuck
    && forall x {:trigger next[x]} :: x in stuck ==> x < |deps| && next[x] in deps[x] && next[x] in stuck
  }

  lemma {:induction false} StuckWalk(deps: DepLists, stuck: set<nat>, next: map<nat, nat>, start: nat, len: nat)
    returns (w: seq<nat>)
    requires PicksStuck(deps, stuck, next) && start in stuck
    ensures |w| == len + 1 && w[0] == start
    ensures forall i :: 0 <= i < |w| ==> w[i] in stuck
    ensures IsWalk(deps, w)
    decreases len
  {
    assert next[start] in stuck;
    if len == 0 {
      w := [start];
    } else {
      var v := StuckWalk(deps, stuck, next, next[start], len - 1);
      w := [start] + v;
    }
  }

  /** Steps that all wait for one another contain a cycle. */
  lemma StuckStepsHaveCycle(deps: DepLists, stuck: set<nat>, next: map<nat, nat>)
    requires PicksStuck(deps, stuck, next) && stuck != {}
    ensures HasCycle(deps)
  {
    var start :| start in stuck;
    var w := StuckWalk(deps, stuck, next, start, |stuck|);
    var i, j := Pigeonhole(w, stuck);
    WalkClosesToCycle(deps, w, i, j);
  }

  lemma WalkClosesToCycle(deps: DepLists, w: seq<nat>, i: nat, j: nat)
    requires IsWalk(deps, w) && i < j < |w| && w[i] == w[j]
    ensures IsCycle(deps, w[i..j])
  {
    assert w[j] in deps[w[j - 1]];
  }

  // ---------------------------------------------------------------------------
  // Counting unmet dependencies
  // ---------------------------------------------------------------------------

  /** How many entries of `ds`, repeats counted, are not done yet. */
  ghost function Unmet(ds: seq<nat>, done: set<nat>): nat {
    if ds == [] then 0 else (if ds[0] in done then 0 else 1) + Unmet(ds[1..], done)
  }

  lemma {:induction false} UnmetAfter(ds: seq<nat>, done: set<nat>, x: nat)
    requires x !in done
    ensures Unmet(ds, done) == Unmet(ds, done + {x}) + multiset(ds)[x]
  {
    if ds == [] {
    } else {
      UnmetAfter(ds[1..], done, x);
      assert ds == [ds[0]] + ds[1..];
    }
  }

  lemma {:induction false} UnmetZero(ds: seq<nat>, done: set<nat>)
    ensures Unmet(ds, done) == 0 <==> forall d :: d in ds ==> d in done
  {
    if ds == [] {
    } else {
      UnmetZero(ds[1..], done);
    }
  }

  lemma {:induction false} UnmetInitially(ds: seq<nat>)
    ensures Unmet(ds, {}) == |ds|
  {
    if ds != [] {
      UnmetInitially(ds[1..]);
    }
  }

  ghost function SomeUnmet(ds: seq<nat>, done: set<nat>): (d: nat)
    requires Unmet(ds, done) != 0
    ensures d in ds && d !in done
  {
    if ds[0] !in done then ds[0] else SomeUnmet(ds[1..], done)
  }

  /** When every step outside the order still waits for something outside it, there is a cycle. */
  lemma UnfinishedHasCycle(deps: DepLists, order: seq<nat>)
    requires InRange(deps) && NoDup(order) && |order| < |deps|
    requires forall a: nat :: a < |deps| && a !in order ==> Unmet(deps[a], Elems(order)) != 0
    ensures HasCycle(deps)
  {
    var done := Elems(order);
    var stuck := Below(|deps|) - done;
    ElemsCardinality(order);
    StuckStepsHaveCycle(deps, stuck, NextStuck(deps, done, stuck));
  }

  ghost function NextStuck(deps: DepLists, done: set<nat>, stuck: set<nat>): (next: map<nat, nat>)
    requires InRange(deps) && stuck == Below(|deps|) - done
    requires forall a: nat {:trigger deps[a]} :: a < |deps| && a !in done ==> Unmet(deps[a], done) != 0
    ensures PicksStuck(deps, stuck, next)
  {
    map x | x in stuck :: StuckDep(deps, done, x)
  }

  ghost function StuckDep(deps: DepLists, done: set<nat>, x: nat): (d: nat)
    requires InRange(deps) && x < |deps| && Unmet(deps[x], done) != 0
    ensures d in deps[x] && d !in done && d < |deps|
  {
    SomeUnmet(deps[x], done)
  }

  lemma PrefixMultiplicity(s: seq<nat>, j: nat)
    requires j < |s|
    ensures multiset(s[..j + 1]) == multiset(s[..j])[s[j] := multiset(s[..j])[s[j]] + 1]
    ensures forall x :: multiset(s[..j])[x] <= multiset(s)[x]
    ensures multiset(s[..j])[s[j]] < multiset(s)[s[j]]
  {
    assert s[..j + 1] == s[..j] + [s[j]];
    assert s == s[..j] + s[j..];
    assert s[j..] == [s[j]] + s[j + 1..];
  }

  // ---------------------------------------------------------------------------
  // The graph
  // ---------------------------------------------------------------------------

  datatype Step = Step(task: Task, deps: seq<nat>)

  /** The part of each dependency list read once `i` whole lists and `k` further entries are read. */
  ghost function ReadSoFar(deps: DepLists, i: nat, k: nat, a: nat): seq<nat>
    requires a < |deps| && (i < |deps| ==> k <= |deps[i]|)
  {
    if a < i then deps[a] else if a == i then deps[i][..k] else []
  }

  /** How often step `a` has been read to depend on step `d` so far. */
  ghost function Entries(deps: DepLists, i: nat, k: nat, a: nat, d: nat): nat
    requires a < |deps| && (i < |deps| ==> k <= |deps[i]|)
  {
    multiset(ReadSoFar(deps, i, k, a))[d]
  }

  /** Both tables agree with the part of the dependency lists read so far. */
  ghost predicate Tabulated(deps: DepLists, i: nat, k: nat, indegree: seq<nat>, dependents: seq<seq<nat>>) {
    && |indegree| == |deps| == |dependents|
    && (i < |deps| ==> k <= |deps[i]|)
    && (forall a: nat :: a < |deps| ==> indegree[a] == |ReadSoFar(deps, i, k, a)|)
    && (forall d: nat, a: nat {:trigger Entries(deps, i, k, a, d)} :: d < |deps| && a < |deps| ==>
          multiset(dependents[d])[a] == Entries(deps, i, k, a, d))
    && (forall d: nat, x :: d < |deps| && x in dependents[d] ==> x < |deps|)
  }

  lemma TabulateEntry(deps: DepLists, i: nat, k: nat, indegree: seq<nat>, dependents: seq<seq<nat>>)
    requires i < |deps| && k < |deps[i]| && deps[i][k] < |deps|
    requires Tabulated(deps, i, k, indegree, dependents)
    ensures var d := deps[i][k];
            Tabulated(deps, i, k + 1, indegree[i := indegree[i] + 1], dependents[d := dependents[d] + [i]])
  {
    PrefixMultiplicity(deps[i], k);
    var d' := deps[i][k];
    forall d: nat, a: nat {:trigger Entries(deps, i, k + 1, a, d)} | d < |deps| && a < |deps|
      ensures multiset(dependents[d' := dependents[d'] + [i]][d])[a] == Entries(deps, i, k + 1, a, d)
    {
      assert multiset(dependents[d])[a] == Entries(deps, i, k, a, d);
      if d == d' {
        assert multiset(dependents[d'] + [i])[a] == multiset(dependents[d'])[a] + (if a == i then 1 else 0);
      }
    }
  }

  lemma TabulateRow(deps: DepLists, i: nat, indegree: seq<nat>, dependents: seq<seq<nat>>)
    requires i < |deps| && Tabulated(deps, i, |deps[i]|, indegree, dependents)
    ensures Tabulated(deps, i + 1, 0, indegree, dependents)
  {
    forall a: nat | a < |deps|
      ensures ReadSoFar(deps, i + 1, 0, a) == ReadSoFar(deps, i, |deps[i]|, a)
    {
    }
    forall d: nat, a: nat | d < |deps| && a < |deps|
      ensures multiset(dependents[d])[a] == Entries(deps, i + 1, 0, a, d)
    {
      assert multiset(dependents[d])[a] == Entries(deps, i, |deps[i]|, a, d);
    }
  }

  lemma TabulateNone(deps: DepLists, indegree: seq<nat>, dependents: seq<seq<nat>>)
    requires |indegree| == |deps| == |dependents|
    requires forall a :: 0 <= a < |deps| ==> indegree[a] == 0 && dependents[a] == []
    ensures Tabulated(deps, 0, 0, indegree, dependents)
  {
    forall a: nat | a < |deps|
      ensures ReadSoFar(deps, 0, 0, a) == []
    {
    }
  }

  lemma TabulateAll(deps: DepLists, indegree: seq<nat>, dependents: seq<seq<nat>>)
    requires Tabulated(deps, |deps|, 0, indegree, dependents)
    ensures forall a :: 0 <= a < |deps| ==> indegree[a] == |deps[a]|
    ensures DependentsOf(deps, dependents)
  {
    forall d: nat, a: nat | d < |deps| && a < |deps|
      ensures multiset(dependents[d])[a] == multiset(deps[a])[d]
    {
      assert multiset(dependents[d])[a] == Entries(deps, |deps|, 0, a, d);
    }
  }

  /** The dependency ids `add_step` copies: handles that name no step are skipped. */
  ghost function KnownIds(steps: seq<Step>, deps: seq<nat>): seq<TaskId> {
    if deps == [] then []
    else (if deps[0] < |steps| then [steps[deps[0]].task.id] else []) + KnownIds(steps, deps[1..])
  }

  lemma {:induction false} KnownIdsAppend(steps: seq<Step>, deps: seq<nat>, d: nat)
    ensures KnownIds(steps, deps + [d]) == KnownIds(steps, deps) + (if d < |steps| then [steps[d].task.id] else [])
  {
    if deps == [] {
      assert [d][1..] == [];
    } else {
      KnownIdsAppend(steps, deps[1..], d);
      assert (deps + [d])[1..] == deps[1..] + [d];
    }
  }

  /** Each step depends on earlier steps only, and its task lists exactly their ids. */
  ghost predicate SelfContained(steps: seq<Step>)
    reads set s | s in steps :: s.task
  {
    forall i :: 0 <= i < |steps| ==>
      AllBelow(steps[i].deps, i) && steps[i].task.dependsOn == KnownIds(steps, steps[i].deps)
  }

  lemma {:induction false} KnownIdsOfPrefix(steps: seq<Step>, more: seq<Step>, deps: seq<nat>)
    requires AllBelow(deps, |steps|)
    ensures KnownIds(steps + more, deps) == KnownIds(steps, deps)
  {
    if deps != [] {
      assert deps[0] in deps;
      assert forall d :: d in deps[1..] ==> d in deps;
      KnownIdsOfPrefix(steps, more, deps[1..]);
    }
  }

  /** The copied ids are those of the named steps. */
  lemma {:induction false} KnownIdsName(steps: seq<Step>, deps: seq<nat>, x: TaskId)
    requires x in KnownIds(steps, deps)
    ensures exists d :: d in deps && d < |steps| && steps[d].task.id == x
  {
    if deps[0] < |steps| && steps[deps[0]].task.id == x {
      assert deps[0] in deps;
    } else {
      KnownIdsName(steps, deps[1..], x);
      var d :| d in deps[1..] && d < |steps| && steps[d].task.id == x;
      assert d in deps;
    }
  }

  /** Earlier-only dependencies always admit an order. */
  lemma EarlierDepsAreOrderable(deps: DepLists)
    requires forall i :: 0 <= i < |deps| ==> AllBelow(deps[i], i)
    ensures InRange(deps) && !HasCycle(deps)
  {
    forall i | 0 <= i < |deps|
      ensures AllBelow(deps[i], |deps|)
    {
      assert AllBelow(deps[i], i);
    }
    var order := seq(|deps|, i => i);
    forall i: nat, d | i < |order| && order[i] in order && d in deps[order[i]]
      ensures d in order[..i]
    {
      assert AllBelow(deps[i], i);
      assert order[..i][d] == d;
    }
    assert forall x :: x in order ==> x < |deps|;
    OrderExcludesCycle(deps, order);
  }

  class Dag {
    const id: WorkflowId
    const name: string
    var steps: seq<Step>

    ghost function DepLists(): (r: DepLists)
      reads this
    {
      seq(|steps|, i requires 0 <= i < |steps| reads this => steps[i].deps)
    }

    constructor (id: WorkflowId, name: string)
      ensures this.id == id && this.name == name && steps == []
    {
      this.id, this.name, steps := id, name, [];
    }

    method AddStep(task: Task, deps: seq<nat>) returns (r: nat)
      modifies this`steps, task`workflow, task`dependsOn
      ensures r == |old(steps)|
      ensures steps == old(steps) + [Step(task, deps)]
      ensures task.workflow == Some(id)
      ensures task.dependsOn == old(task.dependsOn) + KnownIds(old(steps), deps)
      ensures (&& old(SelfContained(steps))
               && (forall s :: s in old(steps) ==> s.task != task)
               && old(task.dependsOn) == []
               && AllBelow(deps, |old(steps)|)) ==> SelfContained(steps)
    {
      task.workflow := Some(id);
      var k := 0;
      while k < |deps|
        invariant 0 <= k <= |deps|
        invariant steps == old(steps) && task.workflow == Some(id)
        invariant task.dependsOn == old(task.dependsOn) + KnownIds(steps, deps[..k])
      {
        KnownIdsAppend(steps, deps[..k], deps[k]);
        assert deps[..k + 1] == deps[..k] + [deps[k]];
        if deps[k] < |steps| {
          task.dependsOn := task.dependsOn + [steps[deps[k]].task.id];
        }
        k := k + 1;
      }
      assert deps[..k] == deps;
      r := |steps|;
      steps := steps + [Step(task, deps)];
      if old(SelfContained(steps)) && (forall s :: s in old(steps) ==> s.task != task)
         && old(task.dependsOn) == [] && AllBelow(deps, |old(steps)|) {
        forall i | 0 <= i < |steps|
          ensures AllBelow(steps[i].deps, i) && steps[i].task.dependsOn == KnownIds(steps, steps[i].deps)
        {
          if i < |old(steps)| {
            assert old(steps)[i] in old(steps);
            assert AllBelow(old(steps)[i].deps, i);
            assert AllBelow(steps[i].deps, |old(steps)|);
          }
          KnownIdsOfPrefix(old(steps), [Step(task, deps)], steps[i].deps);
        }
      }
    }

    /** Kahn's algorithm with an in-degree table and a stack of ready steps. */
    method TopologicalOrder() returns (r: Option<seq<nat>>)
      ensures r.Some? ==> IsExecutionOrder(DepLists(), r.value)
      ensures r.None? <==> !InRange(DepLists()) || HasCycle(DepLists())
    {
      ghost var deps := DepLists();
      var n := |steps|;
      var inRange, indegree, dependents := ReadDependencies();
      if !inRange {
        return None;
      }
      var ready := ReadySteps(indegree, deps);
      var order: seq<nat> := [];
      assert Elems(order) == {};
      assert order + ready == ready;
      ghost var table := dependents[..];
      while ready != []
        invariant dependents[..] == table
        invariant Progress(deps, indegree[..], order, ready)
        decreases n - |order|
      {
        var node := ready[|ready| - 1];
        assert ready == ready[..|ready| - 1] + [node];
        ready := ready[..|ready| - 1];
        ready := Release(deps, node, dependents, indegree, order, ready);
        order := order + [node];
        ProgressBounds(deps, indegree[..], order, ready);
      }
      ProgressBounds(deps, indegree[..], order, ready);
      if |order| == n {
        OrderExcludesCycle(deps, order);
        return Some(order);
      }
      UnfinishedHasCycle(deps, order);
      return None;
    }

    /** Tabulates in-degrees and dependents, stopping at the first index out of range. */
    method ReadDependencies() returns (inRange: bool, indegree: array<nat>, dependents: array<seq<nat>>)
      ensures fresh(indegree) && fresh(dependents) && indegree != (dependents as object)
      ensures inRange == InRange(DepLists())
      ensures indegree.Length == |steps| && dependents.Length == |steps|
      ensures inRange ==> forall a :: 0 <= a < |steps| ==> indegree[a] == |DepLists()[a]|
      ensures inRange ==> DependentsOf(DepLists(), dependents[..])
    {
      ghost var deps := DepLists();
      var n := |steps|;
      indegree := new nat[n](_ => 0);
      dependents := new seq<nat>[n](_ => []);
      inRange := true;
      TabulateNone(deps, indegree[..], dependents[..]);
      var i := 0;
      while i < n
        invariant 0 <= i <= n
        invariant Tabulated(deps, i, 0, indegree[..], dependents[..])
        invariant forall a :: 0 <= a < i ==> AllBelow(deps[a], n)
      {
        inRange := ReadRow(deps, i, steps[i].deps, indegree, dependents);
        if !inRange {
          return;
        }
        i := i + 1;
      }
      TabulateAll(deps, indegree[..], dependents[..]);
    }

    /** The steps without dependencies, in index order. */
    method ReadySteps(indegree: array<nat>, ghost deps: DepLists) returns (ready: seq<nat>)
      requires deps == DepLists() && indegree.Length == |deps|
      requires forall a :: 0 <= a < |deps| ==> indegree[a] == |deps[a]|
      ensures Progress(deps, indegree[..], [], ready)
    {
      ready := [];
      var i := 0;
      while i < |steps|
        invariant 0 <= i <= |steps|
        invariant NoDup(ready)
        invariant forall a: nat :: a < |deps| ==> (a in ready <==> a < i && indegree[a] == 0)
        invariant forall a :: a in ready ==> a < i
      {
        if indegree[i] == 0 {
          ready := ready + [i];
        }
        i := i + 1;
      }
      assert [] + ready == ready;
      forall a | 0 <= a < |deps|
        ensures |deps[a]| == Unmet(deps[a], Elems([]))
      {
        UnmetInitially(deps[a]);
        assert Elems<nat>([]) == {};
      }
    }
  }

  /** Reads the dependency list of step `i` into both tables, unless an index is out of range. */
  method ReadRow(ghost deps: DepLists, i: nat, ds: seq<nat>, indegree: array<nat>, dependents: array<seq<nat>>)
    returns (inRange: bool)
    requires i < |deps| && ds == deps[i]
    requires indegree != (dependents as object)
    requires Tabulated(deps, i, 0, indegree[..], dependents[..])
    modifies indegree, dependents
    ensures inRange == AllBelow(ds, |deps|)
    ensures inRange ==> Tabulated(deps, i + 1, 0, indegree[..], dependents[..])
  {
    var k := 0;
    while k < |ds|
      invariant 0 <= k <= |ds|
      invariant Tabulated(deps, i, k, indegree[..], dependents[..])
      invariant AllBelow(ds[..k], |deps|)
    {
      var d := ds[k];
      if d >= indegree.Length {
        assert d in ds;
        return false;
      }
      TabulateEntry(deps, i, k, indegree[..], dependents[..]);
      indegree[i] := indegree[i] + 1;
      dependents[d] := dependents[d] + [i];
      assert ds[..k + 1] == ds[..k] + [d];
      k := k + 1;
    }
    assert ds[..k] == ds;
    TabulateRow(deps, i, indegree[..], dependents[..]);
    return true;
  }

  /** `dependents[d]` lists each step once per entry naming `d` among its dependencies. */
  ghost predicate DependentsOf(deps: DepLists, dependents: seq<seq<nat>>) {
    && |dependents| == |deps|
    && (forall d: nat, x :: d < |deps| && x in dependents[d] ==> x < |deps|)
    && (forall d: nat, a: nat :: d < |deps| && a < |deps| ==> multiset(dependents[d])[a] == multiset(deps[a])[d])
  }

  /** What holds between two rounds: the table counts unmet dependencies, and the steps with none left
      are exactly those already ordered or waiting on the stack. */
  ghost predicate Progress(deps: DepLists, indegree: seq<nat>, order: seq<nat>, ready: seq<nat>) {
    && |indegree| == |deps|
    && NoDup(order + ready)
    && (forall x :: x in order + ready ==> x < |deps|)
    && (forall x :: x in order ==> x < |deps|)
    && (forall a: nat :: a < |deps| ==> indegree[a] == Unmet(deps[a], Elems(order)))
    && (forall a: nat :: a < |deps| ==> (indegree[a] == 0 <==> a in order + ready))
    && DepsFirst(deps, order)
  }

  lemma ProgressBounds(deps: DepLists, indegree: seq<nat>, order: seq<nat>, ready: seq<nat>)
    requires Progress(deps, indegree, order, ready)
    ensures NoDup(order) && |order| <= |deps|
    ensures ready == [] ==> forall a: nat :: a < |deps| && a !in order ==> Unmet(deps[a], Elems(order)) != 0
  {
    assert forall i :: 0 <= i < |order| ==> order[i] == (order + ready)[i];
    NoDupFitsIn(order, Below(|deps|));
    if ready == [] {
      assert order + ready == order;
    }
  }

  /** Orders `node`, which was on top of the stack, and stacks every step that becomes ready. */
  method Release(ghost deps: DepLists, node: nat, dependents: array<seq<nat>>, indegree: array<nat>,
                 ghost order: seq<nat>, waiting: seq<nat>)
    returns (ready: seq<nat>)
    requires indegree.Length == |deps| == dependents.Length
    requires Progress(deps, indegree[..], order, waiting + [node])
    requires DependentsOf(deps, dependents[..])
    requires indegree != (dependents as object)
    modifies indegree
    ensures Progress(deps, indegree[..], order + [node], ready)
  {
    hide Progress, Lowered, DependentsOf;
    ready := waiting;
    NothingLowered(deps, dependents[..], indegree[..], order, waiting, node);
    var ds := dependents[node];
    assert ds[..0] == [];
    var j := 0;
    while j < |ds|
      invariant 0 <= j <= |ds|
      invariant Lowered(deps, indegree[..], order + [node], ready, ds, j)
    {
      var next := ds[j];
      LoweredNext(deps, indegree[..], order + [node], ready, ds, j);
      ghost var was := indegree[..];
      indegree[next] := indegree[next] - 1;
      assert indegree[..] == was[next := was[next] - 1];
      if indegree[next] == 0 {
        ready := ready + [next];
      }
      j := j + 1;
    }
    AllLowered(deps, indegree[..], order + [node], ready, ds);
  }

  /** The first `j` mentions of a new step have been taken off the table; `ready` has who reached zero. */
  ghost predicate Lowered(deps: DepLists, indegree: seq<nat>, order: seq<nat>, ready: seq<nat>, ds: seq<nat>, j: nat) {
    && j <= |ds| && |indegree| == |deps|
    && (forall x :: x in ds ==> x < |deps|)
    && NoDup(order + ready) && (forall x :: x in order + ready ==> x < |deps|)
    && (forall x :: x in order ==> x < |deps|) && DepsFirst(deps, order)
    && (forall a: nat :: a < |deps| ==>
          indegree[a] + multiset(ds[..j])[a] == Unmet(deps[a], Elems(order)) + multiset(ds)[a])
    && (forall a: nat :: a < |deps| ==> (indegree[a] == 0 <==> a in order + ready))
  }

  lemma NothingLowered(deps: DepLists, dependents: seq<seq<nat>>, indegree: seq<nat>, order: seq<nat>,
                       waiting: seq<nat>, node: nat)
    requires Progress(deps, indegree, order, waiting + [node]) && DependentsOf(deps, dependents)
    requires |dependents| == |deps|
    ensures node < |deps| && Lowered(deps, indegree, order + [node], waiting, dependents[node], 0)
  {
    MoveTop(deps, indegree, order, waiting, node);
    var done, order' := Elems(order), order + [node];
    assert Elems(order') == done + {node};
    var ds := dependents[node];
    assert ds[..0] == [];
    forall a: nat | a < |deps|
      ensures indegree[a] == Unmet(deps[a], Elems(order')) + multiset(ds)[a]
      ensures indegree[a] == 0 <==> a in order' + waiting
    {
      assert multiset(ds)[a] == multiset(deps[a])[node];
      UnmetAfter(deps[a], done, node);
      assert a in order + (waiting + [node]) <==> a in order' + waiting;
    }
  }

  lemma LoweredNext(deps: DepLists, indegree: seq<nat>, order: seq<nat>, ready: seq<nat>, ds: seq<nat>, j: nat)
    requires Lowered(deps, indegree, order, ready, ds, j) && j < |ds|
    ensures ds[j] < |indegree| && indegree[ds[j]] > 0
    ensures var now := indegree[ds[j] := indegree[ds[j]] - 1];
            Lowered(deps, now, order, if now[ds[j]] == 0 then ready + [ds[j]] else ready, ds, j + 1)
  {
    hide Unmet, DepsFirst, NoDup, Elems;
    var next := ds[j];
    assert next in ds;
    PrefixMultiplicity(ds, j);
    assert order + (ready + [next]) == (order + ready) + [next];
    NoDupSnoc(order + ready, next);
  }

  lemma AllLowered(deps: DepLists, indegree: seq<nat>, order: seq<nat>, ready: seq<nat>, ds: seq<nat>)
    requires Lowered(deps, indegree, order, ready, ds, |ds|)
    ensures Progress(deps, indegree, order, ready)
  {
    hide Unmet, DepsFirst, NoDup, Elems;
    assert ds[..|ds|] == ds;
  }

  lemma MoveTop(deps: DepLists, indegree: seq<nat>, order: seq<nat>, waiting: seq<nat>, node: nat)
    requires Progress(deps, indegree, order, waiting + [node])
    ensures node < |deps| && node !in order && NoDup(order + [node] + waiting)
    ensures forall x :: x in order + (waiting + [node]) <==> x in order + [node] + waiting
    ensures DepsFirst(deps, order + [node])
    ensures forall a: nat :: a < |deps| ==>
              indegree[a] == Unmet(deps[a], Elems(order + [node])) + multiset(deps[a])[node]
  {
    var was, now := order + (waiting + [node]), order + [node] + waiting;
    assert was[|was| - 1] == node;
    forall i, j | 0 <= i < j < |now|
      ensures now[i] != now[j]
    {
      var f := (k: nat) => if k < |order| then k else if k == |order| then |was| - 1 else k - 1;
      assert now[i] == was[f(i)] && now[j] == was[f(j)];
    }
    assert node in was;
    UnmetZero(deps[node], Elems(order));
    assert node !in order by {
      assert forall q :: 0 <= q < |order| ==> order[q] == was[q];
    }
    assert forall x :: x in order + [node] ==> x < |deps|;
    forall i: nat, d | i < |order + [node]| && (order + [node])[i] in order + [node] && d in deps[(order + [node])[i]]
      ensures d in (order + [node])[..i]
    {
      if i < |order| {
        assert order[i] in order;
        assert (order + [node])[..i] == order[..i];
      } else {
        assert (order + [node])[..i] == order;
      }
    }
    assert Elems(order + [node]) == Elems(order) + {node};
    forall a: nat | a < |deps|
      ensures indegree[a] == Unmet(deps[a], Elems(order + [node])) + multiset(deps[a])[node]
    {
      UnmetAfter(deps[a], Elems(order), node);
    }
  }
}
