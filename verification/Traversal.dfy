/** Breadth-first traversal with hop counts (graph/src/lib.rs). */
module Traversal {
  import opened Sequences
  import opened Graph

  // ---------------------------------------------------------------------------
  // Distances
  // ---------------------------------------------------------------------------

  ghost predicate Linked(s: Snapshot, u: NodeId, v: NodeId) {
    exists e :: e in s.Edges(u) && e.to == v
  }

  /** A directed path of exactly `k` edges leads from `start` to `v`; its inner nodes need not exist. */
  ghost predicate Reaches(s: Snapshot, start: NodeId, v: NodeId, k: nat)
    decreases k
  {
    if k == 0 then v == start
    else exists u :: Reaches(s, start, u, k - 1) && Linked(s, u, v)
  }

  ghost predicate IsDistance(s: Snapshot, start: NodeId, v: NodeId, k: nat) {
    Reaches(s, start, v, k) && forall j: nat :: j < k ==> !Reaches(s, start, v, j)
  }

  // ---------------------------------------------------------------------------
  // The search
  // ---------------------------------------------------------------------------

  /** A node found at some number of hops. */
  datatype Found = Found(id: NodeId, hops: nat)

  ghost function Ids(q: seq<Found>): (r: seq<NodeId>)
    ensures |r| == |q| && forall i :: 0 <= i < |q| ==> r[i] == q[i].id
  {
    seq(|q|, i requires 0 <= i < |q| => q[i].id)
  }

  ghost predicate Sorted(q: seq<Found>) {
    forall i, j :: 0 <= i < j < |q| ==> q[i].hops <= q[j].hops
  }

  /** `dist` holds the true distance of every node visited so far. */
  ghost predicate Sound(s: Snapshot, start: NodeId, dist: map<NodeId, nat>) {
    start in dist && forall v :: v in dist ==> IsDistance(s, start, v, dist[v])
  }

  /** Every node in `done` within the hop limit has had all its targets visited. */
  ghost predicate Expanded(s: Snapshot, limit: nat, dist: map<NodeId, nat>, done: set<NodeId>) {
    forall u, e :: u in done && u in dist && dist[u] < limit && e in s.Edges(u) ==> e.to in dist
  }

  /** Everything closer than `level` is done, and nothing visited is further than one hop beyond it. */
  ghost predicate Layered(dist: map<NodeId, nat>, done: set<NodeId>, level: nat) {
    && (forall v :: v in dist && dist[v] < level ==> v in done)
    && (forall v :: v in dist ==> dist[v] <= level + 1)
  }

  /** The queue lists the visited nodes that are not done, with their distances, nearest first. */
  ghost predicate Waiting(dist: map<NodeId, nat>, done: set<NodeId>, queue: seq<Found>) {
    && NoDup(Ids(queue))
    && Sorted(queue)
    && (forall q :: q in queue ==> q.id in dist && q.id !in done && q.hops == dist[q.id])
    && (forall v :: v in dist && v !in done ==> Found(v, dist[v]) in queue)
  }

  /** The output lists the visited nodes that exist, except the start, nearest first. */
  ghost predicate Listed(s: Snapshot, start: NodeId, dist: map<NodeId, nat>, out: seq<Found>) {
    && NoDup(Ids(out))
    && Sorted(out)
    && (forall f :: f in out <==> f.id in dist && f.hops == dist[f.id] && f.id != start && f.id in s.nodes)
  }

  /** Up to the level reached, every node some path leads to has been visited, at no greater distance. */
  lemma {:induction false} LevelsComplete(s: Snapshot, start: NodeId, limit: nat, dist: map<NodeId, nat>,
                                          done: set<NodeId>, level: nat, v: NodeId, k: nat)
    requires Sound(s, start, dist) && Expanded(s, limit, dist, done)
    requires forall w :: w in dist && dist[w] < level ==> w in done
    requires k <= level && k <= limit && Reaches(s, start, v, k)
    ensures v in dist && dist[v] <= k
    decreases k
  {
    if k > 0 {
      var u :| Reaches(s, start, u, k - 1) && Linked(s, u, v);
      LevelsComplete(s, start, limit, dist, done, level, u, k - 1);
      var e :| e in s.Edges(u) && e.to == v;
      assert e.to in dist;
    }
  }

  /** A target not yet visited is exactly one hop beyond the current level. */
  lemma NewNodeDistance(s: Snapshot, start: NodeId, limit: nat, dist: map<NodeId, nat>, done: set<NodeId>,
        u: NodeId, v: NodeId)
    requires Sound(s, start, dist) && Expanded(s, limit, dist, done)
    requires u in dist && Layered(dist, done, dist[u]) && dist[u] < limit
    requires Linked(s, u, v) && v !in dist
    ensures IsDistance(s, start, v, dist[u] + 1)
  {
    assert Reaches(s, start, u, dist[u] + 1 - 1);
    forall j: nat | j < dist[u] + 1
      ensures !Reaches(s, start, v, j)
    {
      if Reaches(s, start, v, j) {
        LevelsComplete(s, start, limit, dist, done, dist[u], v, j);
      }
    }
  }

  lemma AppendFound(q: seq<Found>, f: Found)
    requires NoDup(Ids(q)) && Sorted(q)
    requires forall x :: x in q ==> x.id != f.id && x.hops <= f.hops
    ensures NoDup(Ids(q + [f])) && Sorted(q + [f])
  {
    assert forall i :: 0 <= i < |q| ==> q[i] in q;
  }

  /** The existing targets of the edges, other than the start, in order and with repeats. */
  function Others(edges: seq<Edge>, start: NodeId, present: set<NodeId>): seq<NodeId> {
    if edges == [] then []
    else
      var last := edges[|edges| - 1];
      Others(edges[..|edges| - 1], start, present) + if last.to in present && last.to != start then [last.to] else []
  }

  lemma OthersSnoc(edges: seq<Edge>, e: Edge, start: NodeId, present: set<NodeId>)
    ensures Others(edges + [e], start, present)
         == Others(edges, start, present) + if e.to in present && e.to != start then [e.to] else []
  {
    assert (edges + [e])[..|edges|] == edges;
  }

  /** What a search of one hop lists: the neighbours in the order of the edges. */
  ghost function OneHop(s: Snapshot, start: NodeId): seq<NodeId> {
    Firsts(Others(s.Edges(start), start, s.nodes.Keys))
  }

  /** Before the start is done nothing is listed; afterwards a search of one hop lists nothing more. */
  ghost predicate InEdgeOrder(s: Snapshot, start: NodeId, limit: nat, done: set<NodeId>, visited: set<NodeId>,
                              out: seq<Found>)
  {
    if start in done then limit == 1 ==> Ids(out) == OneHop(s, start) else visited == {start} && out == []
  }

  lemma OnlyStartIsZero(s: Snapshot, start: NodeId, dist: map<NodeId, nat>, v: NodeId)
    requires Sound(s, start, dist) && v in dist
    ensures dist[v] == 0 <==> v == start
  {
    assert Reaches(s, start, start, 0);
  }

  /** Returns exactly the existing nodes, other than the start, within `limit` hops: each once, with its
      distance, in order of distance. Those one hop away come in the order of the start's edges. */
  method TraverseWithHops(g: KnowledgeGraph, start: NodeId, limit: nat) returns (out: seq<Found>)
    ensures NoDup(Ids(out)) && Sorted(out)
    ensures forall f :: f in out <==>
              f.id in g.nodes && f.id != start && f.hops <= limit && IsDistance(g.Value(), start, f.id, f.hops)
    ensures limit == 1 ==> Ids(out) == OneHop(g.Value(), start)
  {
    hide Linked, IsDistance, Waiting, Layered, Expanded, Sound, Listed, NoDup, Sorted, Universe, OneHop;
    ghost var s := g.Value();
    ghost var dist: map<NodeId, nat> := map[start := 0];
    ghost var done: set<NodeId> := {};
    var visited := {start};
    var queue := [Found(start, 0)];
    out := [];
    InitialSearch(s, start, limit);
    ghost var universe := Universe(s, start);
    while queue != []
      invariant visited == dist.Keys && visited <= universe
      invariant Sound(s, start, dist) && Expanded(s, limit, dist, done) && done <= dist.Keys
      invariant Waiting(dist, done, queue)
      invariant queue != [] ==> Layered(dist, done, queue[0].hops)
      invariant Listed(s, start, dist, out)
      invariant forall v :: v in dist ==> dist[v] <= limit
      invariant InEdgeOrder(s, start, limit, done, visited, out) && (start in done || queue == [Found(start, 0)])
      decreases |universe| - |done|
    {
      var id, hops := queue[0].id, queue[0].hops;
      PopFirst(dist, done, queue);
      OnlyStartIsZero(s, start, dist, id);
      queue := queue[1..];
      if hops < limit {
        visited, queue, out, dist := Expand(g, start, limit, id, hops, visited, queue, out, dist, done);
      }
      assert id != start ==> start in done;
      MarkDone(s, limit, dist, done, id, queue);
      done := done + {id};
      SubsetCardinality(done, universe);
    }
    FinishedSearch(s, start, limit, dist, done, out);
  }

  lemma InitialSearch(s: Snapshot, start: NodeId, limit: nat)
    ensures var dist, queue := map[start := 0], [Found(start, 0)];
            && Sound(s, start, dist) && Expanded(s, limit, dist, {}) && Waiting(dist, {}, queue)
            && Layered(dist, {}, queue[0].hops) && Listed(s, start, dist, []) && start in Universe(s, start)
  {
    assert Ids([Found(start, 0)]) == [start];
  }

  lemma PopFirst(dist: map<NodeId, nat>, done: set<NodeId>, queue: seq<Found>)
    requires Waiting(dist, done, queue) && queue != []
    ensures Waiting(dist, done + {queue[0].id}, queue[1..])
    ensures queue[0].id in dist && queue[0].id !in done && queue[0].hops == dist[queue[0].id]
  {
    var head, rest := queue[0], queue[1..];
    assert Ids(rest) == Ids(queue)[1..];
    assert head in queue;
    forall q | q in rest
      ensures q.id in dist && q.id !in done + {head.id} && q.hops == dist[q.id]
    {
      var i :| 0 <= i < |rest| && rest[i] == q;
      assert queue[i + 1] == q && q in queue;
      assert Ids(queue)[i + 1] != Ids(queue)[0];
    }
    forall v | v in dist && v !in done + {head.id}
      ensures Found(v, dist[v]) in rest
    {
      var i :| 0 <= i < |queue| && queue[i] == Found(v, dist[v]);
      assert rest[i - 1] == queue[i];
    }
  }

  /** With the current node done, expanded or too far out, the search stands at the level of the next one. */
  lemma MarkDone(s: Snapshot, limit: nat, dist: map<NodeId, nat>, done: set<NodeId>, id: NodeId, queue: seq<Found>)
    requires id in dist && Layered(dist, done, dist[id]) && Waiting(dist, done + {id}, queue)
    requires (dist[id] >= limit && Expanded(s, limit, dist, done)) || Expanded(s, limit, dist, done + {id})
    ensures Expanded(s, limit, dist, done + {id})
    ensures queue != [] ==> Layered(dist, done + {id}, queue[0].hops)
  {
    if queue != [] {
      assert queue[0] in queue;
      assert forall q :: q in queue ==> queue[0].hops <= q.hops;
      assert forall v :: v in dist && v !in done + {id} ==> Found(v, dist[v]) in queue;
    }
  }

  /** Everything that holds while the targets of `id`, at `hops`, are being visited. */
  ghost predicate Expanding(s: Snapshot, start: NodeId, limit: nat, id: NodeId, hops: nat,
                            queue: seq<Found>, out: seq<Found>, dist: map<NodeId, nat>, done: set<NodeId>) {
    && Sound(s, start, dist) && Expanded(s, limit, dist, done)
    && Waiting(dist, done + {id}, queue)
    && id in dist && dist[id] == hops < limit && Layered(dist, done, hops)
    && Listed(s, start, dist, out)
    && (forall v :: v in dist ==> dist[v] <= limit)
  }

  lemma Discover(s: Snapshot, start: NodeId, limit: nat, id: NodeId, hops: nat,
                 queue: seq<Found>, out: seq<Found>, dist: map<NodeId, nat>, done: set<NodeId>, v: NodeId)
    requires Expanding(s, start, limit, id, hops, queue, out, dist, done)
    requires Linked(s, id, v) && v !in dist && v !in done
    ensures var f := Found(v, hops + 1);
            Expanding(s, start, limit, id, hops, queue + [f], if v in s.nodes then out + [f] else out,
                      dist[v := hops + 1], done)
  {
    DiscoverSound(s, start, limit, id, hops, dist, done, v);
    DiscoverWaiting(queue, dist, done + {id}, v, hops);
    DiscoverListed(s, start, out, dist, v, hops);
  }

  lemma DiscoverSound(s: Snapshot, start: NodeId, limit: nat, id: NodeId, hops: nat, dist: map<NodeId, nat>,
        done: set<NodeId>, v: NodeId)
    requires Sound(s, start, dist) && Expanded(s, limit, dist, done)
    requires id in dist && dist[id] == hops < limit && Layered(dist, done, hops)
    requires Linked(s, id, v) && v !in dist && v !in done
    ensures var dist' := dist[v := hops + 1];
            Sound(s, start, dist') && Expanded(s, limit, dist', done) && Layered(dist', done, hops)
  {
    hide Linked, IsDistance;
    NewNodeDistance(s, start, limit, dist, done, id, v);
  }

  lemma DiscoverListed(s: Snapshot, start: NodeId, out: seq<Found>, dist: map<NodeId, nat>, v: NodeId, hops: nat)
    requires Listed(s, start, dist, out) && start in dist && v !in dist
    requires forall w :: w in dist ==> dist[w] <= hops + 1
    ensures Listed(s, start, dist[v := hops + 1], if v in s.nodes then out + [Found(v, hops + 1)] else out)
  {
    var f := Found(v, hops + 1);
    AppendFound(out, f);
    assert forall x :: x in out + [f] <==> x in out || x == f;
  }

  lemma DiscoverWaiting(queue: seq<Found>, dist: map<NodeId, nat>, done: set<NodeId>, v: NodeId, hops: nat)
    requires Waiting(dist, done, queue) && v !in dist && v !in done
    requires forall w :: w in dist ==> dist[w] <= hops + 1
    ensures Waiting(dist[v := hops + 1], done, queue + [Found(v, hops + 1)])
  {
    var now, f := queue + [Found(v, hops + 1)], Found(v, hops + 1);
    AppendFound(queue, f);
    assert now[|queue|] == f;
    forall w | w in dist[v := hops + 1] && w !in done
      ensures Found(w, dist[v := hops + 1][w]) in now
    {
      if w != v {
        assert Found(w, dist[w]) in queue;
      }
    }
  }

  /** Visits the targets of one node: those not seen before are queued and, if they exist, listed. */
  method Expand(g: KnowledgeGraph, start: NodeId, limit: nat, id: NodeId, hops: nat, visited0: set<NodeId>,
                queue0: seq<Found>, out0: seq<Found>, ghost dist0: map<NodeId, nat>, ghost done: set<NodeId>)
    returns (visited: set<NodeId>, queue: seq<Found>, out: seq<Found>, ghost dist: map<NodeId, nat>)
    requires visited0 == dist0.Keys && done <= dist0.Keys && visited0 <= Universe(g.Value(), start)
    requires Expanding(g.Value(), start, limit, id, hops, queue0, out0, dist0, done)
    ensures visited == dist.Keys && done <= dist.Keys && visited <= Universe(g.Value(), start)
    ensures Expanding(g.Value(), start, limit, id, hops, queue, out, dist, done)
    ensures Expanded(g.Value(), limit, dist, done + {id})
    ensures id == start && visited0 == {start} && out0 == [] ==> Ids(out) == OneHop(g.Value(), start)
  {
    hide Expanding, Linked, SeenInOrder, OneHop;
    ghost var s := g.Value();
    visited, queue, out, dist := visited0, queue0, out0, dist0;
    var edges := g.Value().Edges(id);
    ghost var first := id == start && visited0 == {start} && out0 == [];
    NothingSeen(start, g.nodes.Keys);
    assert edges[..0] == [];
    var j := 0;
    while j < |edges|
      invariant 0 <= j <= |edges|
      invariant visited == dist.Keys && done <= dist.Keys && visited <= Universe(s, start)
      invariant Expanding(s, start, limit, id, hops, queue, out, dist, done)
      invariant forall i :: 0 <= i < j ==> edges[i].to in dist
      invariant first ==> SeenInOrder(edges[..j], start, g.nodes.Keys, visited, out)
    {
      var v := edges[j].to;
      TakeSnoc(edges, j);
      if first {
        SeenNext(edges[..j], edges[j], start, g.nodes.Keys, visited, out, hops + 1);
      }
      assert v in visited ==> visited + {v} == visited;
      if v !in visited {
        TargetIsLinked(s, start, id, edges[j]);
        Discover(s, start, limit, id, hops, queue, out, dist, done, v);
        visited := visited + {v};
        if v in g.nodes {
          out := out + [Found(v, hops + 1)];
        }
        queue := queue + [Found(v, hops + 1)];
        dist := dist[v := hops + 1];
      }
      j := j + 1;
    }
    AllTargetsVisited(s, start, limit, id, hops, queue, out, dist, done);
    assert edges[..|edges|] == edges;
    if first {
      AllSeenInOrder(s, start, visited, out);
    }
  }

  lemma AllSeenInOrder(s: Snapshot, start: NodeId, visited: set<NodeId>, out: seq<Found>)
    requires SeenInOrder(s.Edges(start), start, s.nodes.Keys, visited, out)
    ensures Ids(out) == OneHop(s, start)
  {
  }

  ghost function Targets(edges: seq<Edge>): set<NodeId> {
    set e | e in edges :: e.to
  }

  /** Of the start's first edges: their targets have been visited, and the existing ones are listed in order. */
  ghost predicate SeenInOrder(edges: seq<Edge>, start: NodeId, present: set<NodeId>, visited: set<NodeId>,
                              out: seq<Found>)
  {
    Ids(out) == Firsts(Others(edges, start, present)) && visited == {start} + Targets(edges)
  }

  lemma NothingSeen(start: NodeId, present: set<NodeId>)
    ensures SeenInOrder([], start, present, {start}, [])
  {
  }

  lemma SeenNext(edges: seq<Edge>, e: Edge, start: NodeId, present: set<NodeId>, visited: set<NodeId>,
                 out: seq<Found>, hops: nat)
    requires SeenInOrder(edges, start, present, visited, out)
    ensures SeenInOrder(edges + [e], start, present, visited + {e.to},
                        if e.to in present && e.to !in visited then out + [Found(e.to, hops)] else out)
  {
    hide Firsts, Others, Targets;
    var others := Others(edges, start, present);
    OthersSnoc(edges, e, start, present);
    OthersAre(edges, start, present);
    TargetsSnoc(edges, e);
    FirstsSnoc(others, e.to);
    assert Ids(out + [Found(e.to, hops)]) == Ids(out) + [e.to];
    assert Firsts(others) + [] == Firsts(others) && others + [] == others;
  }

  lemma TargetsSnoc(edges: seq<Edge>, e: Edge)
    ensures Targets(edges + [e]) == Targets(edges) + {e.to}
  {
    assert forall x :: x in edges + [e] <==> x in edges || x == e;
  }

  lemma {:induction false} OthersAre(edges: seq<Edge>, start: NodeId, present: set<NodeId>)
    ensures forall v :: v in Others(edges, start, present) <==> v in present && v != start && v in Targets(edges)
  {
    if edges != [] {
      var front, last := edges[..|edges| - 1], edges[|edges| - 1];
      OthersAre(front, start, present);
      TargetsSnoc(front, last);
      assert edges == front + [last];
      hide Targets;
    }
  }

  lemma TargetIsLinked(s: Snapshot, start: NodeId, id: NodeId, e: Edge)
    requires e in s.Edges(id)
    ensures Linked(s, id, e.to) && e.to in Universe(s, start)
  {
  }

  lemma AllTargetsVisited(s: Snapshot, start: NodeId, limit: nat, id: NodeId, hops: nat,
                          queue: seq<Found>, out: seq<Found>, dist: map<NodeId, nat>, done: set<NodeId>)
    requires Expanding(s, start, limit, id, hops, queue, out, dist, done)
    requires forall i :: 0 <= i < |s.Edges(id)| ==> s.Edges(id)[i].to in dist
    ensures Expanded(s, limit, dist, done + {id})
  {
  }

  ghost function Universe(s: Snapshot, start: NodeId): set<NodeId> {
    {start} + set u, e | u in s.adjacency && e in s.adjacency[u] :: e.to
  }

  lemma FinishedSearch(s: Snapshot, start: NodeId, limit: nat, dist: map<NodeId, nat>, done: set<NodeId>,
                       out: seq<Found>)
    requires Sound(s, start, dist) && Expanded(s, limit, dist, done) && Waiting(dist, done, [])
    requires Listed(s, start, dist, out)
    requires forall v :: v in dist ==> dist[v] <= limit
    ensures NoDup(Ids(out)) && Sorted(out)
    ensures forall f :: f in out <==>
              f.id in s.nodes && f.id != start && f.hops <= limit && IsDistance(s, start, f.id, f.hops)
  {
    forall v, k: nat | k <= limit && IsDistance(s, start, v, k)
      ensures v in dist && k == dist[v]
    {
      LevelsComplete(s, start, limit, dist, done, limit, v, k);
    }
  }
}
