/** Running a query against a graph (sdk/src/kql.rs): which nodes answer it, how the answer is ordered and cut, and
    when that determines the answer. */
module KqlExecution {
  import opened Results
  import opened Sequences
  import opened Ordering
  import opened Text
  import opened Graph
  import opened Kql
  import Traversal

  // ---------------------------------------------------------------------------
  // Relations as typed in a query
  // ---------------------------------------------------------------------------

  /** Character tables: lower-casing of text and of single characters, and what is alphanumeric. */
  datatype Words = Words(lower: Lower, lowerChar: char -> string, alphanumeric: char -> bool)

  /** Only letters and digits, in lower case. */
  function Squash(w: Words, s: string): string {
    if s == "" then ""
    else (if w.alphanumeric(s[0]) then w.lowerChar(s[0]) else "") + Squash(w, s[1..])
  }

  const NAMED_KINDS: seq<EdgeKind> := [DependsOn, Implements, References, CreatedBy, RelatedTo]

  function FirstNamed(w: Words, kinds: seq<EdgeKind>, want: string): Option<EdgeKind> {
    if kinds == [] then None
    else if Squash(w, EdgeToken(w.lower, kinds[0])) == want then Some(kinds[0])
    else FirstNamed(w, kinds[1..], want)
  }

  /** The kind a word stands for, however it is spelled; other words go by their token. */
  function EdgeKindOfQuery(w: Words, token: string): EdgeKind {
    var named := FirstNamed(w, NAMED_KINDS, Squash(w, token));
    if named.Some? then named.value else EdgeKindOf(w.lower, token)
  }

  /** The five names stay different when squashed. */
  ghost predicate NamesDiffer(w: Words) {
    forall i, j :: 0 <= i < j < |NAMED_KINDS| ==>
      Squash(w, EdgeToken(w.lower, NAMED_KINDS[i])) != Squash(w, EdgeToken(w.lower, NAMED_KINDS[j]))
  }

  lemma {:induction false} FirstNamedFinds(w: Words, kinds: seq<EdgeKind>, want: string)
    ensures var r := FirstNamed(w, kinds, want);
            match r
            case Some(k) => k in kinds && Squash(w, EdgeToken(w.lower, k)) == want
            case None => forall k :: k in kinds ==> Squash(w, EdgeToken(w.lower, k)) != want
  {
    if kinds != [] {
      FirstNamedFinds(w, kinds[1..], want);
    }
  }

  /** Every spelling that differs only in case and in other characters names the same relation, and no other word
      does, except by its own token. */
  lemma SpellingsAgree(w: Words, token: string, kind: EdgeKind)
    requires NamesDiffer(w) && kind in NAMED_KINDS
    ensures Squash(w, token) == Squash(w, EdgeToken(w.lower, kind)) ==> EdgeKindOfQuery(w, token) == kind
    ensures EdgeKindOfQuery(w, token) == kind ==>
              Squash(w, token) == Squash(w, EdgeToken(w.lower, kind)) || EdgeKindOf(w.lower, token) == kind
  {
    hide Squash, EdgeToken, EdgeKindOf;
    FirstNamedFinds(w, NAMED_KINDS, Squash(w, token));
  }

  // ---------------------------------------------------------------------------
  // What a query asks for
  // ---------------------------------------------------------------------------

  predicate Holds(n: Node, f: Filter) {
    match f
    case Confidence(op, value) => op.Apply(n.confidence, value)
    case And(terms) => forall t :: t in terms ==> Holds(n, t)
    case Or(terms) => exists t :: t in terms && Holds(n, t)
    case Not(inner) => !Holds(n, inner)
  }

  /** With a bound, only dated nodes strictly inside it; dates compare as text. */
  predicate InTime(n: Node, q: Query) {
    || (q.before.None? && q.after.None?)
    || (&& n.date.Some?
        && (q.before.Some? ==> !AtMost(q.before.value, n.date.value))
        && (q.after.Some? ==> !AtMost(n.date.value, q.after.value)))
  }

  predicate Admits(q: Query, n: Node) {
    (forall f :: f in q.filters ==> Holds(n, f)) && InTime(n, q)
  }

  predicate SelectorMatches(w: Words, q: Query, n: Node) {
    && (q.kind.Some? ==> EqIgnoreCase(NodeToken(w.lower, n.kind), q.kind.value))
    && (q.text.Some? ==> Contains(w.lower(n.name), w.lower(q.text.value)))
  }

  predicate Selected(w: Words, g: Snapshot, q: Query, id: NodeId) {
    id in g.nodes && SelectorMatches(w, q, g.nodes[id]) && Admits(q, g.nodes[id])
  }

  /** Nodes of the kind a query relates to. */
  predicate OfRelatedKind(w: Words, q: Query, n: Node)
    requires q.related.Some?
  {
    q.related.value == "*" || EqIgnoreCase(NodeToken(w.lower, n.kind), q.related.value)
  }

  predicate Follows(w: Words, q: Query, e: Edge) {
    q.via.Some? ==> e.kind == EdgeKindOfQuery(w, q.via.value)
  }

  /** The targets of the edges that a query follows, in order. */
  function Targets(w: Words, q: Query, edges: seq<Edge>): seq<NodeId> {
    if edges == [] then []
    else
      var last := edges[|edges| - 1];
      Targets(w, q, edges[..|edges| - 1]) + if Follows(w, q, last) then [last.to] else []
  }

  /** A node that may answer the `RELATED` part when it is reached from `n`. */
  predicate Answers(w: Words, g: Snapshot, q: Query, n: NodeId, m: NodeId)
    requires q.related.Some?
  {
    m in g.nodes && m != n && OfRelatedKind(w, q, g.nodes[m]) && Admits(q, g.nodes[m])
  }

  function Kept(w: Words, g: Snapshot, q: Query, n: NodeId, ids: seq<NodeId>): seq<NodeId>
    requires q.related.Some?
  {
    if ids == [] then []
    else
      var last := ids[|ids| - 1];
      Kept(w, g, q, n, ids[..|ids| - 1]) + if Answers(w, g, q, n, last) then [last] else []
  }

  /** The answers one hop from a node, in the order of its edges. */
  function AnswersFrom(w: Words, g: Snapshot, q: Query, n: NodeId): seq<NodeId>
    requires q.related.Some?
  {
    Kept(w, g, q, n, Targets(w, q, g.Edges(n)))
  }

  function AnswersFromAll(w: Words, g: Snapshot, q: Query, selected: seq<NodeId>): seq<NodeId>
    requires q.related.Some?
  {
    if selected == [] then []
    else AnswersFromAll(w, g, q, selected[..|selected| - 1]) + AnswersFrom(w, g, q, selected[|selected| - 1])
  }

  /** The related nodes in the order in which they are found from the selected ones, whether or not the limit cuts
      those off. */
  function RelatedIds(w: Words, g: Snapshot, q: Query, selected: seq<NodeId>): seq<NodeId> {
    if q.related.None? then [] else Firsts(AnswersFromAll(w, g, q, selected))
  }

  /** One edge the query follows leads from `n` to another node that exists. */
  ghost predicate Leads(w: Words, g: Snapshot, q: Query, n: NodeId, m: NodeId) {
    m in g.nodes && m != n && exists e :: e in g.Edges(n) && e.to == m && Follows(w, q, e)
  }

  /** A node that answers the `RELATED` part: of the right kind, admitted, and one hop from a selected node. */
  ghost predicate Related(w: Words, g: Snapshot, q: Query, m: NodeId) {
    && q.related.Some? && m in g.nodes && OfRelatedKind(w, q, g.nodes[m]) && Admits(q, g.nodes[m])
    && exists n :: Selected(w, g, q, n) && Leads(w, g, q, n, m)
  }

  lemma {:induction false} TargetsAre(w: Words, q: Query, edges: seq<Edge>)
    ensures forall m :: m in Targets(w, q, edges) <==> exists e :: e in edges && e.to == m && Follows(w, q, e)
  {
    hide Follows;
    if edges != [] {
      var front, last := edges[..|edges| - 1], edges[|edges| - 1];
      TargetsAre(w, q, front);
      assert edges == front + [last];
    }
  }

  lemma {:induction false} KeptAre(w: Words, g: Snapshot, q: Query, n: NodeId, ids: seq<NodeId>)
    requires q.related.Some?
    ensures forall m :: m in Kept(w, g, q, n, ids) <==> m in ids && Answers(w, g, q, n, m)
  {
    hide Answers;
    if ids != [] {
      var front, last := ids[..|ids| - 1], ids[|ids| - 1];
      KeptAre(w, g, q, n, front);
      assert ids == front + [last];
    }
  }

  lemma {:induction false} AnswersFromAllAre(w: Words, g: Snapshot, q: Query, selected: seq<NodeId>)
    requires q.related.Some?
    ensures forall m :: m in AnswersFromAll(w, g, q, selected) <==>
              exists n :: n in selected && m in AnswersFrom(w, g, q, n)
  {
    hide AnswersFrom;
    if selected != [] {
      var front, last := selected[..|selected| - 1], selected[|selected| - 1];
      AnswersFromAllAre(w, g, q, front);
      assert selected == front + [last];
    }
  }

  /** Found from every selected node, each related node is there once. */
  lemma RelatedIdsAre(w: Words, g: Snapshot, q: Query, selected: seq<NodeId>)
    requires Lists(selected, AllSelected(w, g, q))
    ensures Lists(RelatedIds(w, g, q, selected), AllRelated(w, g, q))
  {
    AllArePresent(w, g, q);
    if q.related.Some? {
      FirstsFacts(AnswersFromAll(w, g, q, selected));
      AnswersFromAllAre(w, g, q, selected);
      forall n
        ensures forall m :: m in AnswersFrom(w, g, q, n) <==> Leads(w, g, q, n, m) && Answers(w, g, q, n, m)
      {
        TargetsAre(w, q, g.Edges(n));
        KeptAre(w, g, q, n, Targets(w, q, g.Edges(n)));
      }
      hide Follows, OfRelatedKind, Admits, AllSelected, AllRelated, AnswersFrom, AnswersFromAll;
      hide Firsts, NoDup, Selected;
    } else {
      NothingFound();
    }
  }

  // ---------------------------------------------------------------------------
  // The order of an answer
  // ---------------------------------------------------------------------------

  /** A node as an answer shows it. */
  datatype Match = Match(name: string, kind: string, confidence: nat, date: Option<string>, provenance: Option<string>)

  /** What is shown of a node; a node that is not there is never shown. */
  function Shown(w: Words, g: Snapshot, id: NodeId): Match {
    if id in g.nodes then
      var n := g.nodes[id];
      Match(n.name, NodeToken(w.lower, n.kind), n.confidence, n.date, n.provenance)
    else Match("", "", 0, None, None)
  }

  function Matches(w: Words, g: Snapshot, ids: seq<NodeId>): (r: seq<Match>)
    ensures |r| == |ids| && forall i :: 0 <= i < |r| ==> r[i] == Shown(w, g, ids[i])
  {
    seq(|ids|, i requires 0 <= i < |ids| => Shown(w, g, ids[i]))
  }

  function Direction(q: Query): SortDir {
    if q.order.Some? then q.order.value else Desc
  }

  predicate RanksAtMost(dir: SortDir, x: Match, y: Match) {
    if x.confidence != y.confidence then (dir.Desc? <==> y.confidence < x.confidence) else AtMost(x.name, y.name)
  }

  function RankOrder(dir: SortDir): Order<Match> {
    (x, y) => RanksAtMost(dir, x, y)
  }

  lemma RanksAreOrdered(dir: SortDir)
    ensures TotalPreorder(RankOrder(dir))
  {
    hide AtMost;
    forall x: Match, y: Match
      ensures RanksAtMost(dir, x, y) || RanksAtMost(dir, y, x)
    {
      AtMostTotal(x.name, y.name);
    }
    forall x, y, z | RanksAtMost(dir, x, y) && RanksAtMost(dir, y, z)
      ensures RanksAtMost(dir, x, z)
    {
      if x.confidence == y.confidence == z.confidence {
        AtMostTransitive(x.name, y.name, z.name);
      }
    }
  }

  /** Nodes in the order of what is shown of them. */
  function NodeOrder(w: Words, g: Snapshot, q: Query): Order<NodeId> {
    (x, y) => RanksAtMost(Direction(q), Shown(w, g, x), Shown(w, g, y))
  }

  lemma NodesAreOrdered(w: Words, g: Snapshot, q: Query)
    ensures TotalPreorder(NodeOrder(w, g, q))
  {
    RanksAreOrdered(Direction(q));
    hide RanksAtMost, Shown;
    assert forall x, y :: NodeOrder(w, g, q)(x, y) == RankOrder(Direction(q))(Shown(w, g, x), Shown(w, g, y));
  }

  lemma TiedNodes(w: Words, g: Snapshot, q: Query, x: NodeId, y: NodeId)
    ensures Tied(NodeOrder(w, g, q), x, y) <==>
            Shown(w, g, x).confidence == Shown(w, g, y).confidence && Shown(w, g, x).name == Shown(w, g, y).name
  {
    hide AtMost;
    var a, b, le := Shown(w, g, x), Shown(w, g, y), NodeOrder(w, g, q);
    assert le(x, y) == RanksAtMost(Direction(q), a, b) && le(y, x) == RanksAtMost(Direction(q), b, a);
    hide Shown;
    AtMostTotal(a.name, a.name);
    if Tied(NodeOrder(w, g, q), x, y) && a.confidence == b.confidence {
      AtMostAntisymmetric(a.name, b.name);
    }
  }

  function Limited<T>(limit: Option<nat>, s: seq<T>): seq<T> {
    if limit.Some? && limit.value < |s| then s[..limit.value] else s
  }

  /** What was found, sorted with ties left in the order they were found in, and cut at the limit. */
  function Answer(q: Query, found: seq<Match>): seq<Match> {
    RanksAreOrdered(Direction(q));
    Limited(q.limit, SortBy(RankOrder(Direction(q)), found))
  }

  /** The nodes that an answer shows. */
  function Ranked(w: Words, g: Snapshot, q: Query, ids: seq<NodeId>): seq<NodeId> {
    NodesAreOrdered(w, g, q);
    SortBy(NodeOrder(w, g, q), ids)
  }

  /** `x` may stand before `y`: the more trusted first, or the less trusted if the query asks for that, and by name
      among equally trusted ones. */
  ghost predicate MayStandBefore(q: Query, x: Match, y: Match) {
    || (x.confidence == y.confidence && AtMost(x.name, y.name))
    || (q.order == Some(Asc) && x.confidence < y.confidence)
    || (q.order != Some(Asc) && x.confidence > y.confidence)
  }

  /** As many of the matches found as the limit allows, in that order, and none left out that would have to stand before
      one of them. */
  ghost predicate IsTop(q: Query, found: seq<Match>, answer: seq<Match>) {
    && |answer| == (if q.limit.Some? && q.limit.value < |found| then q.limit.value else |found|)
    && (forall i, j :: 0 <= i < j < |answer| ==> MayStandBefore(q, answer[i], answer[j]))
    && multiset(answer) <= multiset(found)
    && forall x, y :: x in multiset(answer) && y in multiset(found) - multiset(answer) ==> MayStandBefore(q, x, y)
  }

  lemma AnswerIsTop(q: Query, found: seq<Match>)
    ensures IsTop(q, found, Answer(q, found))
  {
    RanksAreOrdered(Direction(q));
    var le := RankOrder(Direction(q));
    var all := SortBy(le, found);
    RanksMean(q);
    CutOfSorted(le, all, |Answer(q, found)|);
    hide RankOrder, MayStandBefore, TotalPreorder, AtMost, SortBy;
    assert |all| == |multiset(all)| && |found| == |multiset(found)|;
  }

  lemma RanksMean(q: Query)
    ensures forall x, y :: RankOrder(Direction(q))(x, y) <==> MayStandBefore(q, x, y)
  {
  }

  lemma CutOfSorted(le: Order<Match>, all: seq<Match>, n: nat)
    requires Sorted(le, all) && n <= |all|
    ensures all[..|all|] == all && multiset(all[..n]) <= multiset(all)
    ensures forall x, y :: x in multiset(all[..n]) && y in multiset(all) - multiset(all[..n]) ==> le(x, y)
  {
    var shown, rest := all[..n], all[n..];
    assert all == shown + rest;
    forall x, y | x in multiset(shown) && y in multiset(rest)
      ensures le(x, y)
    {
      var i :| 0 <= i < n && shown[i] == x;
      var j :| 0 <= j < |rest| && rest[j] == y;
      assert all[i] == x && all[n + j] == y;
    }
    assert multiset(all) - multiset(shown) == multiset(rest);
  }

  method OrderAndLimit(q: Query, found: seq<Match>) returns (answer: seq<Match>)
    ensures answer == Answer(q, found) && IsTop(q, found, answer)
  {
    AnswerIsTop(q, found);
    hide IsTop;
    RanksAreOrdered(Direction(q));
    answer := SortBy(RankOrder(Direction(q)), found);
    if q.limit.Some? && q.limit.value < |answer| {
      answer := answer[..q.limit.value];
    }
  }

  lemma {:induction false} PlacedMatch(w: Words, g: Snapshot, q: Query, ids: seq<NodeId>, id: NodeId)
    requires TotalPreorder(RankOrder(Direction(q))) && TotalPreorder(NodeOrder(w, g, q))
    requires Sorted(NodeOrder(w, g, q), ids) && Sorted(RankOrder(Direction(q)), Matches(w, g, ids))
    ensures Matches(w, g, Placed(NodeOrder(w, g, q), ids, id))
         == Placed(RankOrder(Direction(q)), Matches(w, g, ids), Shown(w, g, id))
  {
    hide TotalPreorder, RankOrder, NodeOrder, Shown, Placed, Sorted, Matches;
    var le, ms, m := RankOrder(Direction(q)), Matches(w, g, ids), Shown(w, g, id);
    PlacedNext(NodeOrder(w, g, q), ids, id);
    PlacedNext(le, ms, m);
    if ids == [] {
      MatchesConcat(w, g, [], [id]);
    } else {
      var n := |ids| - 1;
      OrderShown(w, g, q, ids[n], id);
      MatchesFront(w, g, ids);
      if le(ms[n], m) {
        MatchesConcat(w, g, ids, [id]);
      } else {
        PlacedMatch(w, g, q, ids[..n], id);
        MatchesConcat(w, g, Placed(NodeOrder(w, g, q), ids[..n], id), [ids[n]]);
      }
    }
  }

  lemma OrderShown(w: Words, g: Snapshot, q: Query, x: NodeId, y: NodeId)
    ensures NodeOrder(w, g, q)(x, y) == RankOrder(Direction(q))(Shown(w, g, x), Shown(w, g, y))
  {
  }

  lemma MatchesFront(w: Words, g: Snapshot, ids: seq<NodeId>)
    requires ids != []
    ensures var n := |ids| - 1; Matches(w, g, ids)[..n] == Matches(w, g, ids[..n])
  {
  }

  lemma MatchesConcat(w: Words, g: Snapshot, a: seq<NodeId>, b: seq<NodeId>)
    ensures Matches(w, g, a + b) == Matches(w, g, a) + Matches(w, g, b)
    ensures |b| == 1 ==> Matches(w, g, b) == [Shown(w, g, b[0])]
  {
  }

  /** Sorting nodes and showing them is showing them and sorting what is shown. */
  lemma {:induction false} SortedMatches(w: Words, g: Snapshot, q: Query, ids: seq<NodeId>)
    requires TotalPreorder(RankOrder(Direction(q))) && TotalPreorder(NodeOrder(w, g, q))
    ensures Matches(w, g, SortBy(NodeOrder(w, g, q), ids)) == SortBy(RankOrder(Direction(q)), Matches(w, g, ids))
  {
    hide TotalPreorder, RankOrder, NodeOrder, Shown, Placed;
    if ids != [] {
      var n, ms := |ids| - 1, Matches(w, g, ids);
      SortedMatches(w, g, q, ids[..n]);
      assert ms[..n] == Matches(w, g, ids[..n]);
      PlacedMatch(w, g, q, SortBy(NodeOrder(w, g, q), ids[..n]), ids[n]);
    }
  }

  lemma AnswerShowsRanked(w: Words, g: Snapshot, q: Query, ids: seq<NodeId>)
    ensures Answer(q, Matches(w, g, ids)) == Matches(w, g, Limited(q.limit, Ranked(w, g, q, ids)))
    ensures multiset(Ranked(w, g, q, ids)) == multiset(ids) && Sorted(NodeOrder(w, g, q), Ranked(w, g, q, ids))
  {
    hide RankOrder, NodeOrder, Shown, SortBy;
    RanksAreOrdered(Direction(q));
    NodesAreOrdered(w, g, q);
    SortedMatches(w, g, q, ids);
  }

  // ---------------------------------------------------------------------------
  // Running the query
  // ---------------------------------------------------------------------------

  method FindSelected(w: Words, g: Snapshot, q: Query) returns (ids: seq<NodeId>)
    ensures NoDup(ids) && forall id :: id in ids <==> Selected(w, g, q, id)
  {
    hide SelectorMatches, Admits, NoDup;
    NothingFound();
    ids := [];
    var todo := g.nodes.Keys;
    while todo != {}
      invariant todo <= g.nodes.Keys && NoDup(ids)
      invariant forall id :: id in ids <==> Selected(w, g, q, id) && id !in todo
    {
      var id :| id in todo;
      if SelectorMatches(w, q, g.nodes[id]) && Admits(q, g.nodes[id]) {
        NoDupSnoc(ids, id);
        ids := ids + [id];
      }
      todo := todo - {id};
    }
  }

  lemma NothingFound()
    ensures NoDup<NodeId>([])
  {
  }

  lemma TargetsSnoc(w: Words, q: Query, edges: seq<Edge>, e: Edge)
    ensures Targets(w, q, edges + [e]) == Targets(w, q, edges) + if Follows(w, q, e) then [e.to] else []
  {
    assert (edges + [e])[..|edges|] == edges;
  }

  lemma KeptSnoc(w: Words, g: Snapshot, q: Query, n: NodeId, ids: seq<NodeId>, id: NodeId)
    requires q.related.Some?
    ensures Kept(w, g, q, n, ids + [id]) == Kept(w, g, q, n, ids) + if Answers(w, g, q, n, id) then [id] else []
  {
    assert (ids + [id])[..|ids|] == ids;
  }

  /** Keeping only answers and keeping only first occurrences may change places. */
  lemma {:induction false} KeptFirsts(w: Words, g: Snapshot, q: Query, n: NodeId, ids: seq<NodeId>)
    requires q.related.Some?
    ensures Kept(w, g, q, n, Firsts(ids)) == Firsts(Kept(w, g, q, n, ids))
  {
    hide Answers;
    if ids != [] {
      var front, last := ids[..|ids| - 1], ids[|ids| - 1];
      KeptFirsts(w, g, q, n, front);
      KeptAre(w, g, q, n, front);
      KeptSnoc(w, g, q, n, Firsts(front), last);
      FirstsSnoc(Kept(w, g, q, n, front), last);
      assert last in front ==> Firsts(ids) == Firsts(front);
      assert Kept(w, g, q, n, front) + [] == Kept(w, g, q, n, front);
    }
  }

  /** The neighbours that a traversal lists lose nothing by leaving the start and missing nodes out. */
  lemma {:induction false} KeptOthers(w: Words, g: Snapshot, q: Query, n: NodeId, edges: seq<Edge>)
    requires q.related.Some? && q.via.None?
    ensures Kept(w, g, q, n, Traversal.Others(edges, n, g.nodes.Keys)) == Kept(w, g, q, n, Targets(w, q, edges))
  {
    if edges != [] {
      var front, last := edges[..|edges| - 1], edges[|edges| - 1];
      KeptOthers(w, g, q, n, front);
      var others, targets := Traversal.Others(front, n, g.nodes.Keys), Targets(w, q, front);
      KeptSnoc(w, g, q, n, others, last.to);
      KeptSnoc(w, g, q, n, targets, last.to);
      hide Answers;
      assert others + [] == others;
    }
  }

  /** One hop, by traversal or along the edges of one kind: the answers among what is found, each where it comes first,
      are those that the edges lead to. */
  method Neighbors(w: Words, graph: KnowledgeGraph, q: Query, n: NodeId) returns (ids: seq<NodeId>)
    requires q.related.Some?
    ensures Firsts(Kept(w, graph.Value(), q, n, ids)) == Firsts(AnswersFrom(w, graph.Value(), q, n))
    ensures forall i :: 0 <= i < |ids| ==> ids[i] in graph.nodes
  {
    hide Kept, AnswersFrom, Firsts, EdgeKindOfQuery, Traversal.OneHop, Traversal.IsDistance, NoDup;
    var g := graph.Value();
    if q.via.Some? {
      ids := NeighborsVia(w, graph, q, n, EdgeKindOfQuery(w, q.via.value));
    } else {
      var found := Traversal.TraverseWithHops(graph, n, 1);
      ids := [];
      for i := 0 to |found|
        invariant ids == Traversal.Ids(found)[..i]
      {
        ids := ids + [found[i].id];
      }
      assert Traversal.Ids(found)[..|found|] == Traversal.Ids(found);
      FoundIsPresent(g, n, found);
      ListedByTraversal(w, g, q, n);
    }
  }

  /** The targets of the edges of one kind, as far as they exist. */
  method NeighborsVia(w: Words, graph: KnowledgeGraph, q: Query, n: NodeId, kind: EdgeKind)
      returns (ids: seq<NodeId>)
    requires q.related.Some? && q.via.Some? && kind == EdgeKindOfQuery(w, q.via.value)
    ensures Kept(w, graph.Value(), q, n, ids) == AnswersFrom(w, graph.Value(), q, n)
    ensures forall i :: 0 <= i < |ids| ==> ids[i] in graph.nodes
  {
    hide EdgeKindOfQuery, OfRelatedKind, Admits, Kept, Targets;
    var g := graph.Value();
    ids := [];
    var edges := g.Edges(n);
    NothingKept(w, g, q, n);
    assert edges[..0] == [];
    for i := 0 to |edges|
      invariant Kept(w, g, q, n, ids) == Kept(w, g, q, n, Targets(w, q, edges[..i]))
      invariant forall j :: 0 <= j < |ids| ==> ids[j] in graph.nodes
    {
      ghost var targets, to := Targets(w, q, edges[..i]), edges[i].to;
      TakeSnoc(edges, i);
      TargetsSnoc(w, q, edges[..i], edges[i]);
      KeptSnoc(w, g, q, n, targets, to);
      KeptSnoc(w, g, q, n, ids, to);
      assert targets + [] == targets && Kept(w, g, q, n, targets) + [] == Kept(w, g, q, n, targets);
      if edges[i].kind == kind && edges[i].to in g.nodes {
        ids := ids + [edges[i].to];
      }
    }
    assert edges[..|edges|] == edges;
  }

  lemma NothingKept(w: Words, g: Snapshot, q: Query, n: NodeId)
    requires q.related.Some?
    ensures Targets(w, q, []) == [] && Kept(w, g, q, n, []) == []
  {
  }

  lemma FoundIsPresent(g: Snapshot, n: NodeId, found: seq<Traversal.Found>)
    requires forall f :: f in found ==> f.id in g.nodes
    ensures forall i :: 0 <= i < |found| ==> Traversal.Ids(found)[i] in g.nodes
  {
    assert forall i :: 0 <= i < |found| ==> found[i] in found;
  }

  lemma ListedByTraversal(w: Words, g: Snapshot, q: Query, n: NodeId)
    requires q.related.Some? && q.via.None?
    ensures Firsts(Kept(w, g, q, n, Traversal.OneHop(g, n))) == Firsts(AnswersFrom(w, g, q, n))
  {
    hide Firsts, Kept;
    var others := Traversal.Others(g.Edges(n), n, g.nodes.Keys);
    KeptFirsts(w, g, q, n, others);
    KeptOthers(w, g, q, n, g.Edges(n));
    var kept := Kept(w, g, q, n, others);
    FirstsConcat([], kept);
    assert [] + Firsts(kept) == Firsts(kept) && [] + kept == kept;
  }

  /** The related nodes among the neighbours of the selected ones, each where it comes first. */
  method FindRelated(w: Words, graph: KnowledgeGraph, q: Query, selected: seq<NodeId>) returns (ids: seq<NodeId>)
    requires q.related.Some?
    ensures ids == RelatedIds(w, graph.Value(), q, selected)
  {
    hide Firsts, AnswersFrom, Kept;
    var g := graph.Value();
    ids := [];
    assert selected[..0] == [];
    NoFirsts<NodeId>();
    for i := 0 to |selected|
      invariant ids == Firsts(AnswersFromAll(w, g, q, selected[..i]))
    {
      var near := Neighbors(w, graph, q, selected[i]);
      var before := AnswersFromAll(w, g, q, selected[..i]);
      TakeSnoc(selected, i);
      assert selected[..i + 1][..i] == selected[..i];
      ids := TakeRelated(w, graph, q, selected[i], near, ids, before);
      FirstsConcat(before, Kept(w, g, q, selected[i], near));
      FirstsConcat(before, AnswersFrom(w, g, q, selected[i]));
    }
    assert selected[..|selected|] == selected;
  }

  method TakeRelated(w: Words, graph: KnowledgeGraph, q: Query, n: NodeId, near: seq<NodeId>, ids0: seq<NodeId>,
                     ghost before: seq<NodeId>)
      returns (ids: seq<NodeId>)
    requires q.related.Some? && ids0 == Firsts(before)
    requires forall i :: 0 <= i < |near| ==> near[i] in graph.nodes
    ensures ids == Firsts(before + Kept(w, graph.Value(), q, n, near))
  {
    hide OfRelatedKind, Admits, Firsts;
    var g := graph.Value();
    ids := ids0;
    assert near[..0] == [] && before + [] == before;
    for i := 0 to |near|
      invariant ids == Firsts(before + Kept(w, g, q, n, near[..i]))
    {
      var m := near[i];
      TakeSnoc(near, i);
      KeptSnoc(w, g, q, n, near[..i], m);
      ghost var kept := before + Kept(w, g, q, n, near[..i]);
      FirstsSnoc(kept, m);
      FirstsFacts(kept);
      assert kept + [m] == before + (Kept(w, g, q, n, near[..i]) + [m]);
      assert ids + [] == ids && Kept(w, g, q, n, near[..i]) + [] == Kept(w, g, q, n, near[..i]);
      if m != n && OfRelatedKind(w, q, graph.nodes[m]) && Admits(q, graph.nodes[m]) && m !in ids {
        ids := ids + [m];
      }
    }
    assert near[..|near|] == near;
  }

  /** Lists each of the nodes once. */
  ghost predicate Lists(ids: seq<NodeId>, within: set<NodeId>) {
    NoDup(ids) && forall id :: id in ids <==> id in within
  }

  ghost function AllSelected(w: Words, g: Snapshot, q: Query): set<NodeId> {
    set id | id in g.nodes && Selected(w, g, q, id)
  }

  ghost function AllRelated(w: Words, g: Snapshot, q: Query): set<NodeId> {
    set id | id in g.nodes && Related(w, g, q, id)
  }

  lemma AllArePresent(w: Words, g: Snapshot, q: Query)
    ensures forall id :: id in AllSelected(w, g, q) <==> Selected(w, g, q, id)
    ensures forall id :: id in AllRelated(w, g, q) <==> Related(w, g, q, id)
  {
  }

  /** The answer to a query: the selected nodes, walked in some order, and the nodes related to any of them, found in
      that order; each sorted and cut on its own. */
  method Execute(w: Words, graph: KnowledgeGraph, q: Query)
      returns (primary: seq<Match>, related: seq<Match>, ghost selected: seq<NodeId>)
    ensures Lists(selected, AllSelected(w, graph.Value(), q))
    ensures Lists(RelatedIds(w, graph.Value(), q, selected), AllRelated(w, graph.Value(), q))
    ensures primary == Answer(q, Matches(w, graph.Value(), selected))
    ensures related == Answer(q, Matches(w, graph.Value(), RelatedIds(w, graph.Value(), q, selected)))
    ensures IsTop(q, Matches(w, graph.Value(), selected), primary)
    ensures IsTop(q, Matches(w, graph.Value(), RelatedIds(w, graph.Value(), q, selected)), related)
  {
    hide Selected, NoDup, Answer, IsTop, AllSelected, AllRelated, RelatedIds;
    var g := graph.Value();
    var found := FindSelected(w, g, q);
    var ids: seq<NodeId> := [];
    NothingRelated(w, g, q, found);
    if q.related.Some? {
      ids := FindRelated(w, graph, q, found);
    }
    AllArePresent(w, g, q);
    RelatedIdsAre(w, g, q, found);
    primary := OrderAndLimit(q, Matches(w, g, found));
    related := OrderAndLimit(q, Matches(w, g, ids));
    selected := found;
  }

  lemma NothingRelated(w: Words, g: Snapshot, q: Query, selected: seq<NodeId>)
    ensures q.related.None? ==> RelatedIds(w, g, q, selected) == []
  {
  }

  // ---------------------------------------------------------------------------
  // When the selected nodes determine the answer
  // ---------------------------------------------------------------------------

  lemma SameBagOfIds(a: seq<NodeId>, b: seq<NodeId>)
    requires NoDup(a) && NoDup(b) && forall id :: id in a <==> id in b
    ensures multiset(a) == multiset(b)
  {
    forall id
      ensures multiset(a)[id] == multiset(b)[id]
    {
      CountOnce(a, id);
      CountOnce(b, id);
    }
  }

  lemma {:induction false} CountOnce(a: seq<NodeId>, id: NodeId)
    requires NoDup(a)
    ensures multiset(a)[id] == if id in a then 1 else 0
  {
    if a != [] {
      var front, last := a[..|a| - 1], a[|a| - 1];
      assert a == front + [last];
      NoDupSnoc(front, last);
      CountOnce(front, id);
    }
  }

  ghost predicate Within(q: Query, p: nat) {
    q.limit.Some? ==> p < q.limit.value
  }

  /** Nodes with the same confidence and name that are not shown the same lie beyond the limit. */
  ghost predicate NoTieShown(w: Words, g: Snapshot, q: Query, ids: seq<NodeId>) {
    forall x, y :: x in ids && y in ids && Shown(w, g, x) != Shown(w, g, y)
                   && Shown(w, g, x).confidence == Shown(w, g, y).confidence
                   && Shown(w, g, x).name == Shown(w, g, y).name ==>
      !Within(q, Ahead(NodeOrder(w, g, q), ids, x))
  }

  lemma RankedAgree(w: Words, g: Snapshot, q: Query, within: set<NodeId>, a: seq<NodeId>, b: seq<NodeId>)
    requires Lists(a, within) && Lists(b, within)
    ensures var (s, t) := (Ranked(w, g, q, a), Ranked(w, g, q, b));
            && Lists(s, within) && Lists(t, within) && |s| == |t| && multiset(s) == multiset(a)
            && forall p :: 0 <= p < |s| ==> Tied(NodeOrder(w, g, q), s[p], t[p])
  {
    hide NodeOrder, Ranked, Tied;
    NodesAreOrdered(w, g, q);
    AnswerShowsRanked(w, g, q, a);
    AnswerShowsRanked(w, g, q, b);
    SameBagOfIds(a, b);
    SortedAgree(NodeOrder(w, g, q), Ranked(w, g, q, a), Ranked(w, g, q, b));
    RelistedOnce(within, a, Ranked(w, g, q, a));
    RelistedOnce(within, b, Ranked(w, g, q, b));
  }

  /** A rearrangement of a list without repeats has none. */
  lemma RelistedOnce(within: set<NodeId>, a: seq<NodeId>, b: seq<NodeId>)
    requires Lists(a, within) && multiset(a) == multiset(b)
    ensures Lists(b, within)
  {
    SameElements(a, b);
    forall i, j | 0 <= i < j < |b|
      ensures b[i] != b[j]
    {
      CountOnce(a, b[i]);
      assert b == b[..j] + b[j..];
      assert b[i] in multiset(b[..j]) && b[j] in multiset(b[j..]);
    }
  }

  /** What stands at a place within the limit is tied only with nodes shown the same. */
  lemma TiedAtPlace(w: Words, g: Snapshot, q: Query, within: set<NodeId>, ids: seq<NodeId>, p: nat, y: NodeId)
    requires Lists(ids, within) && NoTieShown(w, g, q, ids) && p < |Ranked(w, g, q, ids)| && Within(q, p) && y in within
    requires Tied(NodeOrder(w, g, q), Ranked(w, g, q, ids)[p], y)
    ensures Shown(w, g, Ranked(w, g, q, ids)[p]) == Shown(w, g, y)
  {
    hide NodeOrder, Ranked, Ahead, Shown;
    var le, s := NodeOrder(w, g, q), Ranked(w, g, q, ids);
    NodesAreOrdered(w, g, q);
    AnswerShowsRanked(w, g, q, ids);
    RankedAgree(w, g, q, within, ids, ids);
    TiedNodes(w, g, q, s[p], y);
    AheadOfBag(le, s, ids, s[p]);
    AheadComeFirst(le, s, s[p], p);
    assert s[p] in within;
  }

  lemma AlikeWhenNoTieShown(w: Words, g: Snapshot, q: Query, within: set<NodeId>, a: seq<NodeId>, b: seq<NodeId>)
    requires Lists(a, within) && Lists(b, within) && NoTieShown(w, g, q, a)
    ensures Answer(q, Matches(w, g, a)) == Answer(q, Matches(w, g, b))
  {
    hide NodeOrder, Ranked, NoTieShown, Answer, Tied;
    AnswerShowsRanked(w, g, q, a);
    AnswerShowsRanked(w, g, q, b);
    RankedAgree(w, g, q, within, a, b);
    var s, t := Ranked(w, g, q, a), Ranked(w, g, q, b);
    forall p | 0 <= p < |s| && Within(q, p)
      ensures Shown(w, g, s[p]) == Shown(w, g, t[p])
    {
      assert t[p] in t;
      TiedAtPlace(w, g, q, within, a, p, t[p]);
    }
  }

  /** A list that starts with `x` shows it before all that are tied with it. */
  lemma MovedFirst(w: Words, g: Snapshot, q: Query, within: set<NodeId>, ids: seq<NodeId>, x: NodeId)
    returns (other: seq<NodeId>)
    requires Lists(ids, within) && x in ids && Within(q, Ahead(NodeOrder(w, g, q), ids, x))
    ensures Lists(other, within) && other != [] && other[0] == x
    ensures var (p, answer) := (Ahead(NodeOrder(w, g, q), ids, x), Answer(q, Matches(w, g, other)));
            p < |answer| && answer[p] == Shown(w, g, x)
  {
    hide NodeOrder, Ahead, Answer, Shown;
    other := PutInFrontOfAll(within, ids, x);
    var le := NodeOrder(w, g, q);
    NodesAreOrdered(w, g, q);
    SameBagOfIds(ids, other);
    AheadOfBag(le, ids, other, x);
    FirstStaysFirst(le, other);
    AnswerShowsRanked(w, g, q, other);
  }

  lemma PutInFrontOfAll(within: set<NodeId>, ids: seq<NodeId>, x: NodeId) returns (other: seq<NodeId>)
    requires Lists(ids, within) && x in ids
    ensures Lists(other, within) && other != [] && other[0] == x
  {
    var i :| 0 <= i < |ids| && ids[i] == x;
    other := [x] + (ids[..i] + ids[i + 1..]);
    BagWithout(ids, i);
    assert multiset(other) == multiset{x} + multiset(ids[..i] + ids[i + 1..]);
    assert x in multiset(ids);
    assert multiset(other) == multiset(ids);
    RelistedOnce(within, ids, other);
  }

  /** The answer of selected nodes is the same for every walk of the node table exactly when no nodes of one confidence
      and name that are shown differently come within the limit. */
  lemma SelectedAreDetermined(w: Words, g: Snapshot, q: Query, ids: seq<NodeId>)
    requires Lists(ids, AllSelected(w, g, q))
    ensures NoTieShown(w, g, q, ids) <==>
            forall other :: Lists(other, AllSelected(w, g, q)) ==>
              Answer(q, Matches(w, g, other)) == Answer(q, Matches(w, g, ids))
  {
    hide NodeOrder, Ahead, Answer, Shown, Matches, AllSelected;
    var within := AllSelected(w, g, q);
    if NoTieShown(w, g, q, ids) {
      forall other | Lists(other, within)
        ensures Answer(q, Matches(w, g, other)) == Answer(q, Matches(w, g, ids))
      {
        AlikeWhenNoTieShown(w, g, q, within, ids, other);
      }
    } else {
      var x, y :| x in ids && y in ids && Shown(w, g, x) != Shown(w, g, y)
                  && Shown(w, g, x).confidence == Shown(w, g, y).confidence
                  && Shown(w, g, x).name == Shown(w, g, y).name
                  && Within(q, Ahead(NodeOrder(w, g, q), ids, x));
      TiedNodes(w, g, q, x, y);
      NodesAreOrdered(w, g, q);
      AheadOfTied(NodeOrder(w, g, q), ids, x, y);
      var a := MovedFirst(w, g, q, within, ids, x);
      var b := MovedFirst(w, g, q, within, ids, y);
      assert Answer(q, Matches(w, g, a)) != Answer(q, Matches(w, g, b));
    }
  }

  // ---------------------------------------------------------------------------
  // When the related nodes determine the answer
  // ---------------------------------------------------------------------------

  /** Some selected node leads to `x` before it leads to `y`, if to `y` at all. */
  ghost predicate CanLead(w: Words, g: Snapshot, q: Query, x: NodeId, y: NodeId)
    requires q.related.Some?
  {
    exists n :: Selected(w, g, q, n) && OccursFirst(AnswersFrom(w, g, q, n), x, y)
  }

  lemma OccursConcat(a: seq<NodeId>, b: seq<NodeId>, x: NodeId, y: NodeId)
    ensures OccursFirst(a, x, y) ==> OccursFirst(a + b, x, y)
    ensures OccursFirst(a + b, x, y) ==> OccursFirst(a, x, y) || OccursFirst(b, x, y)
  {
    var c := a + b;
    if OccursFirst(a, x, y) {
      var i :| 0 <= i < |a| && a[i] == x && y !in a[..i];
      assert c[i] == x && c[..i] == a[..i];
    }
    if OccursFirst(c, x, y) {
      var i :| 0 <= i < |c| && c[i] == x && y !in c[..i];
      if i < |a| {
        assert c[..i] == a[..i];
      } else {
        assert c[..i] == a + b[..i - |a|] && b[i - |a|] == x;
      }
    }
  }

  lemma {:induction false} LedBySome(w: Words, g: Snapshot, q: Query, selected: seq<NodeId>, x: NodeId, y: NodeId)
    requires q.related.Some? && OccursFirst(AnswersFromAll(w, g, q, selected), x, y)
    ensures exists n :: n in selected && OccursFirst(AnswersFrom(w, g, q, n), x, y)
  {
    hide OccursFirst, AnswersFrom;
    if selected == [] {
      NothingOccurs(x, y);
    } else {
      var front, last := selected[..|selected| - 1], selected[|selected| - 1];
      assert selected == front + [last];
      OccursConcat(AnswersFromAll(w, g, q, front), AnswersFrom(w, g, q, last), x, y);
      if !OccursFirst(AnswersFrom(w, g, q, last), x, y) {
        LedBySome(w, g, q, front, x, y);
      }
    }
  }

  lemma NothingOccurs(x: NodeId, y: NodeId)
    ensures !OccursFirst([], x, y)
  {
  }

  lemma {:induction false} LedByFirst(w: Words, g: Snapshot, q: Query, selected: seq<NodeId>, x: NodeId, y: NodeId)
    requires q.related.Some? && selected != [] && OccursFirst(AnswersFrom(w, g, q, selected[0]), x, y)
    ensures OccursFirst(AnswersFromAll(w, g, q, selected), x, y)
  {
    hide OccursFirst, AnswersFrom;
    var front, last := selected[..|selected| - 1], selected[|selected| - 1];
    if front == [] {
      assert AnswersFromAll(w, g, q, front) == [];
      assert [] + AnswersFrom(w, g, q, last) == AnswersFrom(w, g, q, last);
    } else {
      LedByFirst(w, g, q, front, x, y);
      OccursConcat(AnswersFromAll(w, g, q, front), AnswersFrom(w, g, q, last), x, y);
    }
  }

  /** Nothing that comes after a shown node, tied with it, can be led to before it. */
  ghost predicate NoRival(w: Words, g: Snapshot, q: Query, ranked: seq<NodeId>)
    requires q.related.Some?
  {
    forall p, r :: 0 <= p < r < |ranked| && Within(q, p) && Tied(NodeOrder(w, g, q), ranked[p], ranked[r]) ==>
      !CanLead(w, g, q, ranked[r], ranked[p])
  }

  /** Of two related nodes that are tied, one is ranked first if it is led to first. */
  lemma RankedByLead(w: Words, g: Snapshot, q: Query, selected: seq<NodeId>, x: NodeId, y: NodeId)
    requires q.related.Some? && Lists(selected, AllSelected(w, g, q)) && Tied(NodeOrder(w, g, q), x, y) && x != y
    requires x in AllRelated(w, g, q) && y in AllRelated(w, g, q)
    ensures ComesBefore(Ranked(w, g, q, RelatedIds(w, g, q, selected)), x, y) <==>
            OccursFirst(AnswersFromAll(w, g, q, selected), x, y)
  {
    hide NodeOrder, OccursFirst, ComesBefore, AnswersFromAll, AllSelected, AllRelated, SortBy, Firsts;
    RelatedIdsAre(w, g, q, selected);
    NodesAreOrdered(w, g, q);
    SortIsStable(NodeOrder(w, g, q), RelatedIds(w, g, q, selected), x, y);
    FirstsFacts(AnswersFromAll(w, g, q, selected));
    FirstsOrder(AnswersFromAll(w, g, q, selected), x, y);
  }

  /** Without rivals every walk ranks the same nodes at the places shown. */
  lemma {:induction false} SamePlaces(w: Words, g: Snapshot, q: Query, a: seq<NodeId>, b: seq<NodeId>, n: nat)
    requires q.related.Some? && Lists(a, AllSelected(w, g, q)) && Lists(b, AllSelected(w, g, q))
    requires NoRival(w, g, q, Ranked(w, g, q, RelatedIds(w, g, q, a)))
    requires n <= |Ranked(w, g, q, RelatedIds(w, g, q, a))| && (n > 0 ==> Within(q, n - 1))
    ensures n <= |Ranked(w, g, q, RelatedIds(w, g, q, b))|
    ensures Ranked(w, g, q, RelatedIds(w, g, q, a))[..n] == Ranked(w, g, q, RelatedIds(w, g, q, b))[..n]
  {
    hide NodeOrder, Ranked, RelatedIds, CanLead, AllSelected, AllRelated, ComesBefore, Tied;
    var within := AllRelated(w, g, q);
    RelatedIdsAre(w, g, q, a);
    RelatedIdsAre(w, g, q, b);
    var s, t := Ranked(w, g, q, RelatedIds(w, g, q, a)), Ranked(w, g, q, RelatedIds(w, g, q, b));
    RankedAgree(w, g, q, within, RelatedIds(w, g, q, a), RelatedIds(w, g, q, b));
    if n > 0 {
      var p := n - 1;
      SamePlaces(w, g, q, a, b, p);
      if s[p] != t[p] {
        var x, y := s[p], t[p];
        assert x in within && y in within;
        var r :| 0 <= r < |s| && s[r] == y;
        var k :| 0 <= k < |t| && t[k] == x;
        BeyondPrefix(s, t, p, r, k);
        IsBefore(t, p, k);
        TiedEitherWay(w, g, q, x, y);
        RankedByLead(w, g, q, b, y, x);
        LedBySome(w, g, q, b, y, x);
        assert !CanLead(w, g, q, y, x);
        LeaderIsSelected(w, g, q, b, y, x);
        assert false;
      }
      assert s[..n] == s[..p] + [s[p]] && t[..n] == t[..p] + [t[p]];
    }
  }

  lemma TiedEitherWay(w: Words, g: Snapshot, q: Query, x: NodeId, y: NodeId)
    ensures Tied(NodeOrder(w, g, q), x, y) <==> Tied(NodeOrder(w, g, q), y, x)
  {
  }

  lemma LeaderIsSelected(w: Words, g: Snapshot, q: Query, selected: seq<NodeId>, x: NodeId, y: NodeId)
    requires q.related.Some? && Lists(selected, AllSelected(w, g, q))
    requires exists n :: n in selected && OccursFirst(AnswersFrom(w, g, q, n), x, y)
    ensures CanLead(w, g, q, x, y)
  {
    hide OccursFirst, AnswersFrom, Selected;
    AllArePresent(w, g, q);
  }

  /** After equal beginnings, different elements occur only later. */
  lemma BeyondPrefix(s: seq<NodeId>, t: seq<NodeId>, p: nat, r: nat, k: nat)
    requires NoDup(s) && NoDup(t) && p < |s| && p < |t| && s[..p] == t[..p] && s[p] != t[p]
    requires r < |s| && s[r] == t[p] && k < |t| && t[k] == s[p]
    ensures p < r && p < k
  {
    TakenAt(s, p);
    TakenAt(t, p);
  }

  /** The related nodes shown are the same for every walk of the node table exactly when no node that comes after a
      shown one, tied with it, can be led to before it. */
  lemma RelatedNodesAreDetermined(w: Words, g: Snapshot, q: Query, selected: seq<NodeId>)
    requires q.related.Some? && Lists(selected, AllSelected(w, g, q))
    ensures NoRival(w, g, q, Ranked(w, g, q, RelatedIds(w, g, q, selected))) <==>
            forall other :: Lists(other, AllSelected(w, g, q)) ==>
              Limited(q.limit, Ranked(w, g, q, RelatedIds(w, g, q, other)))
              == Limited(q.limit, Ranked(w, g, q, RelatedIds(w, g, q, selected)))
  {
    hide Ranked, RelatedIds, AllSelected, NoRival;
    var s := Ranked(w, g, q, RelatedIds(w, g, q, selected));
    if NoRival(w, g, q, s) {
      forall other | Lists(other, AllSelected(w, g, q))
        ensures Limited(q.limit, Ranked(w, g, q, RelatedIds(w, g, q, other))) == Limited(q.limit, s)
      {
        SameShown(w, g, q, selected, other);
      }
    } else {
      var other := RivalShown(w, g, q, selected);
    }
  }

  lemma SameShown(w: Words, g: Snapshot, q: Query, a: seq<NodeId>, b: seq<NodeId>)
    requires q.related.Some? && Lists(a, AllSelected(w, g, q)) && Lists(b, AllSelected(w, g, q))
    requires NoRival(w, g, q, Ranked(w, g, q, RelatedIds(w, g, q, a)))
    ensures Limited(q.limit, Ranked(w, g, q, RelatedIds(w, g, q, b)))
         == Limited(q.limit, Ranked(w, g, q, RelatedIds(w, g, q, a)))
  {
    hide Ranked, RelatedIds, AllSelected, NoRival, NodeOrder;
    RelatedIdsAre(w, g, q, a);
    RelatedIdsAre(w, g, q, b);
    var s, t := Ranked(w, g, q, RelatedIds(w, g, q, a)), Ranked(w, g, q, RelatedIds(w, g, q, b));
    RankedAgree(w, g, q, AllRelated(w, g, q), RelatedIds(w, g, q, a), RelatedIds(w, g, q, b));
    var n := if q.limit.Some? && q.limit.value < |s| then q.limit.value else |s|;
    SamePlaces(w, g, q, a, b, n);
    assert s[..|s|] == s && t[..|t|] == t;
  }

  /** Walking first the node that leads to the rival shows the rival first. */
  lemma RivalShown(w: Words, g: Snapshot, q: Query, selected: seq<NodeId>) returns (other: seq<NodeId>)
    requires q.related.Some? && Lists(selected, AllSelected(w, g, q))
    requires !NoRival(w, g, q, Ranked(w, g, q, RelatedIds(w, g, q, selected)))
    ensures Lists(other, AllSelected(w, g, q))
    ensures Limited(q.limit, Ranked(w, g, q, RelatedIds(w, g, q, other)))
         != Limited(q.limit, Ranked(w, g, q, RelatedIds(w, g, q, selected)))
  {
    hide Ranked, RelatedIds, AllSelected, NodeOrder, OccursFirst, ComesBefore, Tied;
    hide AnswersFrom, AnswersFromAll, Selected;
    var s := Ranked(w, g, q, RelatedIds(w, g, q, selected));
    var p, r :| 0 <= p < r < |s| && Within(q, p) && Tied(NodeOrder(w, g, q), s[p], s[r])
                && CanLead(w, g, q, s[r], s[p]);
    var n :| Selected(w, g, q, n) && OccursFirst(AnswersFrom(w, g, q, n), s[r], s[p]);
    AllArePresent(w, g, q);
    other := PutInFrontOfAll(AllSelected(w, g, q), selected, n);
    var t := Ranked(w, g, q, RelatedIds(w, g, q, other));
    RelatedIdsAre(w, g, q, selected);
    RelatedIdsAre(w, g, q, other);
    RankedAgree(w, g, q, AllRelated(w, g, q), RelatedIds(w, g, q, selected), RelatedIds(w, g, q, other));
    LedByFirst(w, g, q, other, s[r], s[p]);
    TiedEitherWay(w, g, q, s[p], s[r]);
    assert s[p] in s && s[r] in s;
    RankedByLead(w, g, q, other, s[r], s[p]);
    NotAtPlace(s, t, p, r);
  }

  lemma TakenAt(s: seq<NodeId>, n: nat)
    requires n <= |s|
    ensures forall m {:trigger s[m]} :: 0 <= m < n ==> s[..n][m] == s[m]
  {
  }

  lemma NotAtPlace(s: seq<NodeId>, t: seq<NodeId>, p: nat, r: nat)
    requires NoDup(s) && NoDup(t) && |s| == |t| && p < r < |s| && ComesBefore(t, s[r], s[p])
    ensures s[..p + 1] != t[..p + 1]
  {
    var i, j :| 0 <= i < j < |t| && t[i] == s[r] && t[j] == s[p];
    TakenAt(s, p + 1);
    TakenAt(t, p + 1);
  }

  /** Nothing shown differently that comes after a shown node, tied with it, can be led to before it. */
  ghost predicate NoRivalShown(w: Words, g: Snapshot, q: Query, ranked: seq<NodeId>)
    requires q.related.Some?
  {
    forall p, r :: 0 <= p < r < |ranked| && Within(q, p) && Tied(NodeOrder(w, g, q), ranked[p], ranked[r])
                   && Shown(w, g, ranked[p]) != Shown(w, g, ranked[r]) ==>
      !CanLead(w, g, q, ranked[r], ranked[p])
  }

  lemma OneBeforeOther(s: seq<NodeId>, x: NodeId, y: NodeId)
    requires x in s && y in s && x != y
    ensures ComesBefore(s, x, y) || ComesBefore(s, y, x)
  {
    var i :| 0 <= i < |s| && s[i] == x;
    var j :| 0 <= j < |s| && s[j] == y;
  }

  lemma SortedBefore(le: Order<NodeId>, s: seq<NodeId>, x: NodeId, y: NodeId)
    requires Sorted(le, s) && ComesBefore(s, x, y)
    ensures le(x, y)
  {
  }

  /** Without rivals shown differently, every walk ranks a shown node before all those that it was ranked before and
      that are shown differently. */
  lemma OrderKept(w: Words, g: Snapshot, q: Query, a: seq<NodeId>, b: seq<NodeId>, i: nat, j: nat)
    requires q.related.Some? && Lists(a, AllSelected(w, g, q)) && Lists(b, AllSelected(w, g, q))
    requires var s := Ranked(w, g, q, RelatedIds(w, g, q, a));
             && NoRivalShown(w, g, q, s) && i < j < |s| && Within(q, i)
             && Shown(w, g, s[i]) != Shown(w, g, s[j])
    ensures var s := Ranked(w, g, q, RelatedIds(w, g, q, a));
            ComesBefore(Ranked(w, g, q, RelatedIds(w, g, q, b)), s[i], s[j])
  {
    hide NodeOrder, Ranked, RelatedIds, CanLead, AllSelected, AllRelated, ComesBefore, Sorted, Shown;
    var le, within := NodeOrder(w, g, q), AllRelated(w, g, q);
    var s, t := Ranked(w, g, q, RelatedIds(w, g, q, a)), Ranked(w, g, q, RelatedIds(w, g, q, b));
    RelatedIdsAre(w, g, q, a);
    RelatedIdsAre(w, g, q, b);
    RankedAgree(w, g, q, within, RelatedIds(w, g, q, a), RelatedIds(w, g, q, b));
    AnswerShowsRanked(w, g, q, RelatedIds(w, g, q, a));
    AnswerShowsRanked(w, g, q, RelatedIds(w, g, q, b));
    var x, y := s[i], s[j];
    assert x in within && y in within;
    OneBeforeOther(t, x, y);
    if ComesBefore(t, y, x) {
      IsBefore(s, i, j);
      SortedBefore(le, s, x, y);
      SortedBefore(le, t, y, x);
      assert !CanLead(w, g, q, y, x);
      RankedByLead(w, g, q, b, y, x);
      LedBySome(w, g, q, b, y, x);
      LeaderIsSelected(w, g, q, b, y, x);
      assert false;
    }
  }

  ghost function Of(ids: set<NodeId>, val: NodeId -> Match, v: Match): set<NodeId> {
    set id | id in ids && val(id) == v
  }

  /** Two lists without repeats that have the same values place by place have as many elements of each value. */
  lemma {:induction false} AsManyOf(s: seq<NodeId>, t: seq<NodeId>, val: NodeId -> Match, v: Match)
    requires NoDup(s) && NoDup(t) && |s| == |t| && forall i :: 0 <= i < |s| ==> val(s[i]) == val(t[i])
    ensures |Of(Elems(s), val, v)| == |Of(Elems(t), val, v)|
  {
    if s == [] {
      assert Of(Elems(s), val, v) == {} == Of(Elems(t), val, v);
    } else {
      var n := |s| - 1;
      AsManyOf(s[..n], t[..n], val, v);
      OneMoreOf(s[..n], s[n], val, v);
      OneMoreOf(t[..n], t[n], val, v);
      assert s == s[..n] + [s[n]] && t == t[..n] + [t[n]];
    }
  }

  lemma OneMoreOf(s: seq<NodeId>, x: NodeId, val: NodeId -> Match, v: Match)
    requires NoDup(s + [x])
    ensures |Of(Elems(s + [x]), val, v)| == |Of(Elems(s), val, v)| + if val(x) == v then 1 else 0
  {
    NoDupSnoc(s, x);
    hide NoDup;
    assert Elems(s + [x]) == Elems(s) + {x} && x !in Elems(s);
    OfOneMore(Elems(s), x, val, v);
  }

  lemma OfOneMore(ids: set<NodeId>, x: NodeId, val: NodeId -> Match, v: Match)
    requires x !in ids
    ensures |Of(ids + {x}, val, v)| == |Of(ids, val, v)| + if val(x) == v then 1 else 0
  {
    if val(x) == v {
      assert Of(ids + {x}, val, v) == Of(ids, val, v) + {x};
    } else {
      assert Of(ids + {x}, val, v) == Of(ids, val, v);
    }
  }

  /** Of two sets of one size, if one has something the other lacks, so does the other. */
  lemma Exchange(a: set<NodeId>, b: set<NodeId>, x: NodeId) returns (z: NodeId)
    requires |a| == |b| && x in b && x !in a
    ensures z in a && z !in b
  {
    if a <= b {
      SubsetCardinality(a, b);
    }
    z :| z in a && z !in b;
  }

  /** If the second list keeps the first `n` elements of the first before all later ones of other values, both have the
      same values at the first `n` places. */
  lemma {:induction false} SameValues(s: seq<NodeId>, t: seq<NodeId>, val: NodeId -> Match, n: nat)
    requires NoDup(s) && NoDup(t) && |s| == |t| && (forall x :: x in s <==> x in t) && n <= |s|
    requires forall i, j :: 0 <= i < j < |s| && i < n && val(s[i]) != val(s[j]) ==> ComesBefore(t, s[i], s[j])
    ensures forall p :: 0 <= p < n ==> val(s[p]) == val(t[p])
  {
    if n > 0 {
      SameValues(s, t, val, n - 1);
      SameValueNext(s, t, val, n - 1);
    }
  }

  lemma {:induction false} SameValueNext(s: seq<NodeId>, t: seq<NodeId>, val: NodeId -> Match, p: nat)
    requires NoDup(s) && NoDup(t) && |s| == |t| && (forall x :: x in s <==> x in t) && p < |s|
    requires forall i, j :: 0 <= i < j < |s| && i <= p && val(s[i]) != val(s[j]) ==> ComesBefore(t, s[i], s[j])
    requires forall i :: 0 <= i < p ==> val(s[i]) == val(t[i])
    ensures val(s[p]) == val(t[p])
  {
    hide ComesBefore, Of;
    var x, y := s[p], t[p];
    if val(x) == val(y) {
      return;
    }
    PrefixOnce(s, p);
    PrefixOnce(t, p);
    AsManyOf(s[..p], t[..p], val, val(x));
    AsManyOf(s[..p], t[..p], val, val(y));
    OfAre(s, t, val, p);
    var later := y;
    if y in Elems(s[..p]) {
      later := Exchange(Of(Elems(t[..p]), val, val(y)), Of(Elems(s[..p]), val, val(y)), y);
    }
    assert later in t && later !in Elems(s[..p]) && later != x;
    var r :| 0 <= r < |s| && s[r] == later;
    AfterPrefix(s, p, r);
    EarlierInPrefix(t, p, x, later);
    var w := Exchange(Of(Elems(s[..p]), val, val(x)), Of(Elems(t[..p]), val, val(x)), x);
    var k :| 0 <= k < p && s[k] == w;
    EarlierInPrefix(t, p, w, later);
    assert false;
  }

  lemma PrefixOnce(s: seq<NodeId>, p: nat)
    requires NoDup(s) && p < |s|
    ensures NoDup(s[..p]) && s[p] !in Elems(s[..p])
  {
  }

  lemma OfAre(s: seq<NodeId>, t: seq<NodeId>, val: NodeId -> Match, p: nat)
    requires p <= |s| && p <= |t|
    ensures forall id, v {:trigger id in Of(Elems(s[..p]), val, v)} ::
              id in Of(Elems(s[..p]), val, v) <==> val(id) == v && exists i :: 0 <= i < p && s[i] == id
    ensures forall id, v {:trigger id in Of(Elems(t[..p]), val, v)} ::
              id in Of(Elems(t[..p]), val, v) <==> val(id) == v && exists i :: 0 <= i < p && t[i] == id
    ensures forall id :: id in Elems(s[..p]) <==> exists i :: 0 <= i < p && s[i] == id
    ensures forall id :: id in Elems(t[..p]) <==> exists i :: 0 <= i < p && t[i] == id
  {
    TakenAt(s, p);
    TakenAt(t, p);
    forall id
      ensures id in Elems(s[..p]) <==> exists i :: 0 <= i < p && s[i] == id
      ensures id in Elems(t[..p]) <==> exists i :: 0 <= i < p && t[i] == id
    {
      if id in Elems(s[..p]) {
        var i :| 0 <= i < p && s[..p][i] == id;
      }
      if i :| 0 <= i < p && s[i] == id {
        assert s[..p][i] == id;
      }
      if id in Elems(t[..p]) {
        var i :| 0 <= i < p && t[..p][i] == id;
      }
      if i :| 0 <= i < p && t[i] == id {
        assert t[..p][i] == id;
      }
    }
  }

  lemma AfterPrefix(s: seq<NodeId>, p: nat, r: nat)
    requires p < |s| && r < |s| && s[r] != s[p] && !exists i :: 0 <= i < p && s[i] == s[r]
    ensures p < r
  {
  }

  /** What comes before something within the first places, or before the next one, is within them. */
  lemma EarlierInPrefix(t: seq<NodeId>, p: nat, x: NodeId, y: NodeId)
    requires NoDup(t) && p < |t| && ComesBefore(t, x, y) && (y in Elems(t[..p]) || y == t[p])
    ensures x in Elems(t[..p])
  {
    var i, j :| 0 <= i < j < |t| && t[i] == x && t[j] == y;
    if y in Elems(t[..p]) {
      var k :| 0 <= k < p && t[..p][k] == y;
      assert t[k] == y;
    }
    assert j <= p;
    assert t[..p][i] == x;
  }

  /** The related answer is the same for every walk if nothing shown differently that comes after a shown node, tied
      with it, can be led to before it; and where no two related nodes are shown alike, only then. */
  lemma RelatedAnswerIsDetermined(w: Words, g: Snapshot, q: Query, selected: seq<NodeId>)
    requires q.related.Some? && Lists(selected, AllSelected(w, g, q))
    ensures var same := forall other :: Lists(other, AllSelected(w, g, q)) ==>
              Answer(q, Matches(w, g, RelatedIds(w, g, q, other)))
              == Answer(q, Matches(w, g, RelatedIds(w, g, q, selected)));
            var settled := NoRivalShown(w, g, q, Ranked(w, g, q, RelatedIds(w, g, q, selected)));
            && (settled ==> same)
            && ((forall x, y :: x in AllRelated(w, g, q) && y in AllRelated(w, g, q) && x != y ==>
                   Shown(w, g, x) != Shown(w, g, y)) ==> (settled <==> same))
  {
    hide Ranked, RelatedIds, AllSelected, AllRelated, NoRival, NoRivalShown, Answer, Shown;
    var s := Ranked(w, g, q, RelatedIds(w, g, q, selected));
    if NoRivalShown(w, g, q, s) {
      forall other | Lists(other, AllSelected(w, g, q))
        ensures Answer(q, Matches(w, g, RelatedIds(w, g, q, other)))
             == Answer(q, Matches(w, g, RelatedIds(w, g, q, selected)))
      {
        SameAnswerShown(w, g, q, selected, other);
      }
    } else if forall x, y :: x in AllRelated(w, g, q) && y in AllRelated(w, g, q) && x != y ==>
                Shown(w, g, x) != Shown(w, g, y)
    {
      RivalsAreRivals(w, g, q, s);
      var other := RivalShown(w, g, q, selected);
      DifferentNodesShown(w, g, q, selected, other);
    }
  }

  lemma RivalsAreRivals(w: Words, g: Snapshot, q: Query, ranked: seq<NodeId>)
    requires q.related.Some?
    ensures NoRival(w, g, q, ranked) ==> NoRivalShown(w, g, q, ranked)
  {
  }

  lemma SameAnswerShown(w: Words, g: Snapshot, q: Query, a: seq<NodeId>, b: seq<NodeId>)
    requires q.related.Some? && Lists(a, AllSelected(w, g, q)) && Lists(b, AllSelected(w, g, q))
    requires NoRivalShown(w, g, q, Ranked(w, g, q, RelatedIds(w, g, q, a)))
    ensures Answer(q, Matches(w, g, RelatedIds(w, g, q, b))) == Answer(q, Matches(w, g, RelatedIds(w, g, q, a)))
  {
    hide Ranked, RelatedIds, AllSelected, AllRelated, NoRivalShown, Answer, Shown, NodeOrder, Tied, ComesBefore;
    RelatedIdsAre(w, g, q, a);
    RelatedIdsAre(w, g, q, b);
    var s, t := Ranked(w, g, q, RelatedIds(w, g, q, a)), Ranked(w, g, q, RelatedIds(w, g, q, b));
    RankedAgree(w, g, q, AllRelated(w, g, q), RelatedIds(w, g, q, a), RelatedIds(w, g, q, b));
    AnswerShowsRanked(w, g, q, RelatedIds(w, g, q, a));
    AnswerShowsRanked(w, g, q, RelatedIds(w, g, q, b));
    var n := if q.limit.Some? && q.limit.value < |s| then q.limit.value else |s|;
    var val := (id: NodeId) => Shown(w, g, id);
    forall i, j | 0 <= i < j < |s| && i < n && val(s[i]) != val(s[j])
      ensures ComesBefore(t, s[i], s[j])
    {
      OrderKept(w, g, q, a, b, i, j);
    }
    SameValues(s, t, val, n);
    var x, y := Limited(q.limit, s), Limited(q.limit, t);
    assert |x| == |y| == n && forall i :: 0 <= i < n ==> x[i] == s[i] && y[i] == t[i];
  }

  /** Where no two related nodes are shown alike, different nodes give different answers. */
  lemma DifferentNodesShown(w: Words, g: Snapshot, q: Query, a: seq<NodeId>, b: seq<NodeId>)
    requires q.related.Some? && Lists(a, AllSelected(w, g, q)) && Lists(b, AllSelected(w, g, q))
    requires forall x, y :: x in AllRelated(w, g, q) && y in AllRelated(w, g, q) && x != y ==>
               Shown(w, g, x) != Shown(w, g, y)
    requires Limited(q.limit, Ranked(w, g, q, RelatedIds(w, g, q, b)))
          != Limited(q.limit, Ranked(w, g, q, RelatedIds(w, g, q, a)))
    ensures Answer(q, Matches(w, g, RelatedIds(w, g, q, b))) != Answer(q, Matches(w, g, RelatedIds(w, g, q, a)))
  {
    hide Ranked, RelatedIds, AllSelected, AllRelated, Answer, Shown, NodeOrder, Tied;
    RelatedIdsAre(w, g, q, a);
    RelatedIdsAre(w, g, q, b);
    RankedAgree(w, g, q, AllRelated(w, g, q), RelatedIds(w, g, q, a), RelatedIds(w, g, q, b));
    AnswerShowsRanked(w, g, q, RelatedIds(w, g, q, a));
    AnswerShowsRanked(w, g, q, RelatedIds(w, g, q, b));
    var x := Limited(q.limit, Ranked(w, g, q, RelatedIds(w, g, q, a)));
    var y := Limited(q.limit, Ranked(w, g, q, RelatedIds(w, g, q, b)));
    assert |x| == |y|;
    var i :| 0 <= i < |x| && x[i] != y[i];
    assert x[i] in AllRelated(w, g, q) && y[i] in AllRelated(w, g, q);
    assert Matches(w, g, x)[i] != Matches(w, g, y)[i];
  }

  lemma TwoInList(s: seq<NodeId>, a: NodeId, b: NodeId)
    requires NoDup(s) && a != b && a in s && b in s && forall id :: id in s ==> id == a || id == b
    ensures s == [a, b] || s == [b, a]
  {
    ElemsCardinality(s);
    assert Elems(s) == {a, b};
    assert |s| == 2 && s[0] in s && s[1] in s;
  }

  /** Three edges that are followed to nodes that answer. */
  lemma ThreeAnswers(w: Words, g: Snapshot, q: Query, n: NodeId, e: Edge, f: Edge, h: Edge)
    requires q.related.Some? && g.Edges(n) == [e, f, h]
    requires Follows(w, q, e) && Follows(w, q, f) && Follows(w, q, h)
    requires Answers(w, g, q, n, e.to) && Answers(w, g, q, n, f.to) && Answers(w, g, q, n, h.to)
    ensures AnswersFrom(w, g, q, n) == [e.to, f.to, h.to]
  {
    ThreeTargets(w, q, e, f, h);
    ThreeKept(w, g, q, n, e.to, f.to, h.to);
    hide Follows, Answers, Targets, Kept;
  }

  lemma NoTargets(w: Words, q: Query)
    ensures Targets(w, q, []) == []
  {
  }

  lemma ThreeTargets(w: Words, q: Query, e: Edge, f: Edge, h: Edge)
    requires Follows(w, q, e) && Follows(w, q, f) && Follows(w, q, h)
    ensures Targets(w, q, [e, f, h]) == [e.to, f.to, h.to]
  {
    hide Follows, Targets;
    NoTargets(w, q);
    TargetsSnoc(w, q, [], e);
    TargetsSnoc(w, q, [e], f);
    TargetsSnoc(w, q, [e, f], h);
    assert [] + [e] == [e] && [e] + [f] == [e, f] && [e, f] + [h] == [e, f, h];
  }

  lemma ThreeKept(w: Words, g: Snapshot, q: Query, n: NodeId, x: NodeId, y: NodeId, z: NodeId)
    requires q.related.Some? && Answers(w, g, q, n, x) && Answers(w, g, q, n, y) && Answers(w, g, q, n, z)
    ensures Kept(w, g, q, n, [x, y, z]) == [x, y, z]
  {
    hide Answers, Kept;
    NothingKept(w, g, q, n);
    KeptSnoc(w, g, q, n, [], x);
    KeptSnoc(w, g, q, n, [x], y);
    KeptSnoc(w, g, q, n, [x, y], z);
    assert [] + [x] == [x] && [x] + [y] == [x, y] && [x, y] + [z] == [x, y, z];
  }

  lemma {:induction false} FirstsOfOnce(a: seq<NodeId>)
    requires NoDup(a)
    ensures Firsts(a) == a
  {
    hide Firsts, NoDup;
    if a == [] {
      NoFirsts<NodeId>();
    } else {
      var front, last := a[..|a| - 1], a[|a| - 1];
      PrefixOnce(a, |a| - 1);
      FirstsOfOnce(front);
      FirstsSnoc(front, last);
      assert a == front + [last] && (last in front ==> last in Elems(front));
    }
  }

  lemma {:induction false} NothingNew(a: seq<NodeId>, b: seq<NodeId>)
    requires forall x :: x in b ==> x in a
    ensures Firsts(a + b) == Firsts(a)
  {
    hide Firsts;
    if b == [] {
      assert a + [] == a;
    } else {
      var front, last := b[..|b| - 1], b[|b| - 1];
      assert b == front + [last];
      NothingNew(a, front);
      FirstsSnoc(a + front, last);
      assert a + b == a + front + [last];
    }
  }

  /** Two selected nodes that lead to the same nodes: the order of the first one counts. */
  lemma FoundBetween(w: Words, g: Snapshot, q: Query, a: NodeId, b: NodeId)
    requires q.related.Some? && NoDup(AnswersFrom(w, g, q, a))
    requires forall x :: x in AnswersFrom(w, g, q, b) ==> x in AnswersFrom(w, g, q, a)
    ensures RelatedIds(w, g, q, [a, b]) == AnswersFrom(w, g, q, a)
  {
    hide AnswersFrom, Firsts, NoDup;
    var first, second := AnswersFrom(w, g, q, a), AnswersFrom(w, g, q, b);
    assert [a, b][..1] == [a] && [a][..0] == [];
    assert AnswersFromAll(w, g, q, [a]) == [] + first == first;
    assert AnswersFromAll(w, g, q, [a, b]) == first + second;
    FirstsOfOnce(first);
    NothingNew(first, second);
  }

  lemma {:induction false} SortedStays<T(!new)>(le: Order<T>, s: seq<T>)
    requires TotalPreorder(le) && Sorted(le, s)
    ensures SortBy(le, s) == s
  {
    if s != [] {
      var front, last := s[..|s| - 1], s[|s| - 1];
      FrontSorted(le, s);
      SortedStays(le, front);
      PlacedNext(le, front, last);
      assert front == [] || le(front[|front| - 1], last);
    }
  }

  /** Tied and shown differently, the last of three is a rival of the one between if it can be led to first. */
  lemma RivalBetween(w: Words, g: Snapshot, q: Query, n: NodeId, x: NodeId, y: NodeId, z: NodeId)
    requires q.related.Some? && q.limit.None? && Selected(w, g, q, n) && AnswersFrom(w, g, q, n) == [z, y, x]
    requires Tied(NodeOrder(w, g, q), x, y) && Tied(NodeOrder(w, g, q), y, z) && Tied(NodeOrder(w, g, q), x, z)
    requires y != z && Shown(w, g, y) != Shown(w, g, z)
    ensures !NoRivalShown(w, g, q, Ranked(w, g, q, [x, y, z]))
  {
    hide NodeOrder, Shown, AnswersFrom, Selected;
    var ids := [x, y, z];
    NodesAreOrdered(w, g, q);
    assert Sorted(NodeOrder(w, g, q), ids);
    SortedStays(NodeOrder(w, g, q), ids);
    var led := AnswersFrom(w, g, q, n);
    assert led[0] == z && led[..0] == [];
    assert OccursFirst(led, z, y);
    assert CanLead(w, g, q, z, y);
    assert ids[1] == y && ids[2] == z && Within(q, 1);
  }

  /** A graph of two nodes that lead to the same three, two of which differ in nothing but their ids. */
  ghost predicate AlikeEnds(w: Words, g: Snapshot, q: Query, a: NodeId, b: NodeId, x: NodeId, y: NodeId, z: NodeId) {
    && q.related.Some? && q.limit.None? && a != b && (forall id :: Selected(w, g, q, id) <==> id == a || id == b)
    && AnswersFrom(w, g, q, a) == [x, y, z] && AnswersFrom(w, g, q, b) == [z, y, x] && x != y && y != z && x != z
    && Shown(w, g, x) == Shown(w, g, z) != Shown(w, g, y)
    && Shown(w, g, x).name == Shown(w, g, y).name && Shown(w, g, x).confidence == Shown(w, g, y).confidence
  }

  lemma AlikeEndsExist()
    returns (w: Words, g: Snapshot, q: Query, a: NodeId, b: NodeId, x: NodeId, y: NodeId, z: NodeId)
    ensures AlikeEnds(w, g, q, a, b, x, y, z)
  {
    w := Words(s => s, c => [c], c => true);
    a, b, x, y, z := NodeId("a"), NodeId("b"), NodeId("x"), NodeId("y"), NodeId("z");
    var from, to := Node(a, Concept, "m", 50, None, None), Node(x, Concept, "n", 50, None, None);
    var dated := to.(date := Some("2025-01-01"));
    g := Snapshot(map[a := from, b := from, x := to, y := dated, z := to],
                  map[a := [Edge(a, x, RelatedTo), Edge(a, y, RelatedTo), Edge(a, z, RelatedTo)],
                      b := [Edge(b, z, RelatedTo), Edge(b, y, RelatedTo), Edge(b, x, RelatedTo)]]);
    q := Query(None, Some("m"), Some("*"), None, [], None, None, None, None, [ReturnDocuments]);
    assert Contains("m", "m") && !Contains("n", "m") by {
      assert "n"[0] != "m"[0] && "n"[1..] == "";
    }
    hide Contains;
    assert forall id :: Selected(w, g, q, id) <==> id == a || id == b;
    hide Selected;
    ThreeAnswers(w, g, q, a, Edge(a, x, RelatedTo), Edge(a, y, RelatedTo), Edge(a, z, RelatedTo));
    ThreeAnswers(w, g, q, b, Edge(b, z, RelatedTo), Edge(b, y, RelatedTo), Edge(b, x, RelatedTo));
    hide AnswersFrom;
  }

  /** A rival may take the place of a node shown alike and leave the answer as it is: two nodes shown alike around a
      third, led to in either order. */
  lemma AlikeNodesMayHideRivals() returns (w: Words, g: Snapshot, q: Query, selected: seq<NodeId>)
    ensures q.related.Some? && Lists(selected, AllSelected(w, g, q))
    ensures !NoRivalShown(w, g, q, Ranked(w, g, q, RelatedIds(w, g, q, selected)))
    ensures forall other :: Lists(other, AllSelected(w, g, q)) ==>
              Answer(q, Matches(w, g, RelatedIds(w, g, q, other)))
              == Answer(q, Matches(w, g, RelatedIds(w, g, q, selected)))
  {
    var a, b, x, y, z;
    w, g, q, a, b, x, y, z := AlikeEndsExist();
    hide Selected, AnswersFrom, RelatedIds, Shown, NodeOrder, Tied, Answer, Ranked, NoRivalShown;
    selected := [a, b];
    AllArePresent(w, g, q);
    FoundBetween(w, g, q, a, b);
    FoundBetween(w, g, q, b, a);
    TiedNodes(w, g, q, x, y);
    TiedNodes(w, g, q, y, z);
    TiedNodes(w, g, q, x, z);
    RivalBetween(w, g, q, b, x, y, z);
    forall other | Lists(other, AllSelected(w, g, q))
      ensures Matches(w, g, RelatedIds(w, g, q, other)) == Matches(w, g, RelatedIds(w, g, q, selected))
    {
      assert a in other && b in other;
      TwoInList(other, a, b);
    }
  }

  /** Two nodes of one name and confidence and a limit of one: either may be shown. */
  lemma AnswerCanDependOnWalk(w: Words) returns (g: Snapshot, q: Query, a: seq<NodeId>, b: seq<NodeId>)
    ensures Lists(a, AllSelected(w, g, q)) && Lists(b, AllSelected(w, g, q))
    ensures Answer(q, Matches(w, g, a)) != Answer(q, Matches(w, g, b))
  {
    var one, two := NodeId("1"), NodeId("2");
    g := Snapshot(map[one := Node(one, Concept, "x", 50, None, None),
                      two := Node(two, Concept, "x", 50, Some("2025-01-01"), None)], map[]);
    q := Query(None, None, None, None, [], None, None, None, Some(1), [ReturnDocuments]);
    a := [one, two];
    AllArePresent(w, g, q);
    assert Lists(a, AllSelected(w, g, q));
    SelectedAreDetermined(w, g, q, a);
    ItselfFirst(w, g, q, one, two);
    assert !NoTieShown(w, g, q, a) by {
      assert one in a && two in a && Shown(w, g, one) != Shown(w, g, two);
    }
    b :| Lists(b, AllSelected(w, g, q)) && Answer(q, Matches(w, g, b)) != Answer(q, Matches(w, g, a));
  }

  lemma ItselfFirst(w: Words, g: Snapshot, q: Query, x: NodeId, y: NodeId)
    requires Tied(NodeOrder(w, g, q), x, y)
    ensures Ahead(NodeOrder(w, g, q), [x, y], x) == 0
  {
    TiedNodes(w, g, q, x, x);
    AheadBounded(NodeOrder(w, g, q), [x, y], x);
  }
}
