/** Extracting entities and relations into a graph (graph/src/extract.rs): the pass over parsed sentences, which may
    be repeated without changing anything further. */
module Extraction {
  import opened Results
  import opened Sequences
  import opened Graph
  import opened Sentences

  // ---------------------------------------------------------------------------
  // Mentions
  // ---------------------------------------------------------------------------

  ghost function MentionsIn(lower: Lower, entities: seq<string>, name: string): nat {
    if entities == [] then 0
    else MentionsIn(lower, entities[..|entities| - 1], name)
         + if lower(entities[|entities| - 1]) == name then 1 else 0
  }

  ghost function Mentions(lower: Lower, parsed: seq<SentenceParse>, name: string): nat {
    if parsed == [] then 0
    else Mentions(lower, parsed[..|parsed| - 1], name) + MentionsIn(lower, parsed[|parsed| - 1].entities, name)
  }

  ghost predicate Counts(counts: map<string, nat>, mentions: string -> nat) {
    forall name :: if mentions(name) == 0 then name !in counts else name in counts && counts[name] == mentions(name)
  }

  /** The mentions in whole sentences and in the first `n` entities of a further one. */
  ghost function Mentioned(lower: Lower, parsed: seq<SentenceParse>, entities: seq<string>): string -> nat {
    name => Mentions(lower, parsed, name) + MentionsIn(lower, entities, name)
  }

  lemma OneMoreMention(lower: Lower, parsed: seq<SentenceParse>, entities: seq<string>, e: string)
    ensures forall name :: Mentioned(lower, parsed, entities + [e])(name)
                        == Mentioned(lower, parsed, entities)(name) + if lower(e) == name then 1 else 0
  {
    assert (entities + [e])[..|entities|] == entities;
  }

  lemma OneMoreSentence(lower: Lower, parsed: seq<SentenceParse>, p: SentenceParse)
    ensures forall name :: Mentioned(lower, parsed + [p], [])(name) == Mentioned(lower, parsed, p.entities)(name)
  {
    assert (parsed + [p])[..|parsed|] == parsed;
  }

  method CountMentions(lower: Lower, parsed: seq<SentenceParse>) returns (counts: map<string, nat>)
    ensures Counts(counts, Mentioned(lower, parsed, []))
  {
    counts := map[];
    hide Mentioned;
    NoMentions(lower);
    assert parsed[..0] == [];
    for i := 0 to |parsed|
      invariant Counts(counts, Mentioned(lower, parsed[..i], []))
    {
      var entities := parsed[i].entities;
      assert entities[..0] == [];
      for j := 0 to |entities|
        invariant Counts(counts, Mentioned(lower, parsed[..i], entities[..j]))
      {
        TakeSnoc(entities, j);
        OneMoreMention(lower, parsed[..i], entities[..j], entities[j]);
        var name := lower(entities[j]);
        counts := counts[name := (if name in counts then counts[name] else 0) + 1];
      }
      assert entities[..|entities|] == entities;
      TakeSnoc(parsed, i);
      OneMoreSentence(lower, parsed[..i], parsed[i]);
    }
    assert parsed[..|parsed|] == parsed;
  }

  lemma NoMentions(lower: Lower)
    ensures forall name :: Mentioned(lower, [], [])(name) == 0
  {
  }

  /** 45 for the first mention and 15 for every further one, up to 100. */
  function ConfidenceFor(count: nat): (r: nat)
    ensures r <= 100
  {
    Min(45 + (if count > 0 then count - 1 else 0) * 15, 100)
  }

  /** Each further mention adds the same until the cap is reached, with the fifth. */
  lemma ConfidenceGrows(count: nat)
    ensures ConfidenceFor(0) == ConfidenceFor(1) == 45 && (ConfidenceFor(count) == 100 <==> count >= 5)
    ensures 0 < count < 4 ==> ConfidenceFor(count + 1) == ConfidenceFor(count) + 15
  {
  }

  // ---------------------------------------------------------------------------
  // Nodes
  // ---------------------------------------------------------------------------

  ghost predicate Keyed(nodes: map<NodeId, Node>) {
    forall id :: id in nodes ==> nodes[id].id == id
  }

  /** No two nodes have the same name up to case. */
  ghost predicate DistinctNames(lower: Lower, nodes: map<NodeId, Node>) {
    forall a, b :: a in nodes && b in nodes && lower(nodes[a].name) == lower(nodes[b].name) ==> a == b
  }

  /** None of the names, up to case, is that of two nodes. */
  ghost predicate Unambiguous(lower: Lower, names: set<string>, nodes: map<NodeId, Node>) {
    forall a, b | a in nodes && b in nodes && lower(nodes[a].name) in names ::
      lower(nodes[a].name) == lower(nodes[b].name) ==> a == b
  }

  ghost function Names(lower: Lower, nodes: map<NodeId, Node>): set<string> {
    set id | id in nodes :: lower(nodes[id].name)
  }

  /** The first spelling of a name, over the sentences in order. */
  function FirstIn(lower: Lower, entities: seq<string>, name: string): (r: Option<string>)
    ensures r.Some? ==> lower(r.value) == name
  {
    if entities == [] then None
    else if lower(entities[0]) == name then Some(entities[0])
    else FirstIn(lower, entities[1..], name)
  }

  function FirstSpelling(lower: Lower, parsed: seq<SentenceParse>, name: string): (r: Option<string>)
    ensures r.Some? ==> lower(r.value) == name
  {
    if parsed == [] then None
    else
      var r := FirstIn(lower, parsed[0].entities, name);
      if r.Some? then r else FirstSpelling(lower, parsed[1..], name)
  }

  lemma {:induction false} FoundIn(lower: Lower, entities: seq<string>, i: nat)
    requires i < |entities|
    ensures FirstIn(lower, entities, lower(entities[i])).Some?
  {
    if i > 0 {
      FoundIn(lower, entities[1..], i - 1);
    }
  }

  lemma {:induction false} FoundSpelling(lower: Lower, parsed: seq<SentenceParse>, i: nat, j: nat)
    requires i < |parsed| && j < |parsed[i].entities|
    ensures FirstSpelling(lower, parsed, lower(parsed[i].entities[j])).Some?
  {
    if i > 0 {
      FoundSpelling(lower, parsed[1..], i - 1, j);
    } else {
      FoundIn(lower, parsed[0].entities, j);
    }
  }

  lemma {:induction false} MentionedSomewhere(lower: Lower, parsed: seq<SentenceParse>, name: string)
    requires Mentions(lower, parsed, name) > 0
    ensures exists i, j :: 0 <= i < |parsed| && 0 <= j < |parsed[i].entities| && lower(parsed[i].entities[j]) == name
  {
    var front, last := parsed[..|parsed| - 1], parsed[|parsed| - 1];
    if Mentions(lower, front, name) > 0 {
      MentionedSomewhere(lower, front, name);
      var i, j :| 0 <= i < |front| && 0 <= j < |front[i].entities| && lower(front[i].entities[j]) == name;
      assert parsed[i] == front[i];
    } else {
      var j := MentionedAt(lower, last.entities, name);
    }
  }

  lemma {:induction false} MentionedAt(lower: Lower, entities: seq<string>, name: string) returns (j: nat)
    requires MentionsIn(lower, entities, name) > 0
    ensures j < |entities| && lower(entities[j]) == name
  {
    if lower(entities[|entities| - 1]) == name {
      j := |entities| - 1;
    } else {
      j := MentionedAt(lower, entities[..|entities| - 1], name);
    }
  }

  /** The first spelling of a mentioned name. */
  function Display(lower: Lower, parsed: seq<SentenceParse>, name: string): string {
    var r := FirstSpelling(lower, parsed, name);
    if r.Some? then r.value else name
  }

  lemma DisplayFound(lower: Lower, parsed: seq<SentenceParse>, name: string)
    requires Mentions(lower, parsed, name) > 0
    ensures lower(Display(lower, parsed, name)) == name
  {
    MentionedSomewhere(lower, parsed, name);
    var i, j :| 0 <= i < |parsed| && 0 <= j < |parsed[i].entities| && lower(parsed[i].entities[j]) == name;
    FoundSpelling(lower, parsed, i, j);
  }

  /** A mentioned name is shown as it is spelled where it is mentioned first. */
  lemma {:induction false} SpellingIsFirst(lower: Lower, parsed: seq<SentenceParse>, name: string, i: nat, j: nat)
    requires i < |parsed| && j < |parsed[i].entities| && lower(parsed[i].entities[j]) == name
    requires forall k, l ::
               0 <= k < |parsed| && 0 <= l < |parsed[k].entities| && lower(parsed[k].entities[l]) == name ==>
                 i < k || (i == k && j <= l)
    ensures Display(lower, parsed, name) == parsed[i].entities[j]
    decreases |parsed|
  {
    if i == 0 {
      FirstInIs(lower, parsed[0].entities, name, j);
    } else {
      NotIn(lower, parsed[0].entities, name);
      var rest := parsed[1..];
      assert forall k :: 0 <= k < |rest| ==> rest[k] == parsed[k + 1];
      SpellingIsFirst(lower, rest, name, i - 1, j);
    }
  }

  lemma {:induction false} FirstInIs(lower: Lower, entities: seq<string>, name: string, j: nat)
    requires j < |entities| && lower(entities[j]) == name
    requires forall l :: 0 <= l < j ==> lower(entities[l]) != name
    ensures FirstIn(lower, entities, name) == Some(entities[j])
  {
    if j > 0 {
      FirstInIs(lower, entities[1..], name, j - 1);
    }
  }

  lemma {:induction false} NotIn(lower: Lower, entities: seq<string>, name: string)
    requires forall l :: 0 <= l < |entities| ==> lower(entities[l]) != name
    ensures FirstIn(lower, entities, name) == None
  {
    if entities != [] {
      NotIn(lower, entities[1..], name);
    }
  }

  /** The parts of a pass that stay the same throughout. */
  datatype Pass = Pass(lower: Lower, classify: string -> NodeKind, parsed: seq<SentenceParse>,
                       provenance: Option<string>, counts: map<string, nat>)

  ghost predicate PassOk(p: Pass) {
    Counts(p.counts, Mentioned(p.lower, p.parsed, []))
  }

  /** A node that was there: if it stands for its name, it is no less trusted than its mentions say. */
  ghost function Reinforced(p: Pass, id: NodeId, node: Node, labels: map<string, NodeId>): Node {
    var name := p.lower(node.name);
    if name in labels && labels[name] == id && name in p.counts then
      node.(confidence := Max(node.confidence, ConfidenceFor(p.counts[name])))
    else node
  }

  ghost function NewNode(p: Pass, id: NodeId, name: string): Node
    requires name in p.counts
  {
    var display := Display(p.lower, p.parsed, name);
    Node(id, p.classify(display), display, ConfidenceFor(p.counts[name]), None, p.provenance)
  }

  /** The nodes once the names in `labels` have been seen to: all old ones are there, those that stand for a name
      reinforced, and each new one stands for a name that no old one had. */
  ghost predicate NodesDone(p: Pass, before: map<NodeId, Node>, cur: map<NodeId, Node>, labels: map<string, NodeId>) {
    && Keyed(cur) && OldKept(p, before, cur, labels) && NewMade(p, before, cur, labels) && Labelled(p, cur, labels)
  }

  ghost predicate OldKept(p: Pass, before: map<NodeId, Node>, cur: map<NodeId, Node>, labels: map<string, NodeId>) {
    forall id :: id in before ==> id in cur && cur[id] == Reinforced(p, id, before[id], labels)
  }

  ghost predicate NewMade(p: Pass, before: map<NodeId, Node>, cur: map<NodeId, Node>, labels: map<string, NodeId>) {
    forall id :: id in cur && id !in before ==>
      var name := p.lower(cur[id].name);
      && name in labels && labels[name] == id && name in p.counts
      && name !in Names(p.lower, before) && cur[id] == NewNode(p, id, name)
  }

  ghost predicate Labelled(p: Pass, cur: map<NodeId, Node>, labels: map<string, NodeId>) {
    && labels.Keys <= p.counts.Keys
    && forall name :: name in labels ==> labels[name] in cur && p.lower(cur[labels[name]].name) == name
  }

  lemma NothingDone(p: Pass, nodes: map<NodeId, Node>)
    requires Keyed(nodes)
    ensures NodesDone(p, nodes, nodes, map[])
  {
  }

  ghost function Bumped(p: Pass, cur: map<NodeId, Node>, id: NodeId, name: string): map<NodeId, Node>
    requires id in cur && name in p.counts
  {
    cur[id := cur[id].(confidence := Max(cur[id].confidence, ConfidenceFor(p.counts[name])))]
  }

  lemma BumpedOld(p: Pass, before: map<NodeId, Node>, cur: map<NodeId, Node>, labels: map<string, NodeId>, id: NodeId,
                  name: string)
    requires name in p.counts && name !in labels && id in cur && id in before && p.lower(cur[id].name) == name
    requires OldKept(p, before, cur, labels)
    ensures OldKept(p, before, Bumped(p, cur, id, name), labels[name := id])
  {
    hide Max, ConfidenceFor;
  }

  lemma BumpedNew(p: Pass, before: map<NodeId, Node>, cur: map<NodeId, Node>, labels: map<string, NodeId>, id: NodeId,
                  name: string)
    requires name in p.counts && id in cur && id in before && NewMade(p, before, cur, labels)
    requires name !in labels
    ensures NewMade(p, before, Bumped(p, cur, id, name), labels[name := id])
  {
    hide Max, ConfidenceFor, NewNode, Names;
  }

  lemma BumpedLabels(p: Pass, cur: map<NodeId, Node>, labels: map<string, NodeId>, id: NodeId, name: string)
    requires name in p.counts && id in cur && p.lower(cur[id].name) == name && Labelled(p, cur, labels)
    ensures Labelled(p, Bumped(p, cur, id, name), labels[name := id])
  {
    hide Max, ConfidenceFor;
  }

  lemma BumpDone(p: Pass, before: map<NodeId, Node>, cur: map<NodeId, Node>, labels: map<string, NodeId>, name: string,
                 id: NodeId)
    requires NodesDone(p, before, cur, labels) && name in p.counts && name !in labels
    requires id in cur && p.lower(cur[id].name) == name
    ensures id in before && name in Names(p.lower, before)
    ensures NodesDone(p, before, Bumped(p, cur, id, name), labels[name := id])
  {
    OldName(p, before, cur, labels, id, name);
    BumpedOld(p, before, cur, labels, id, name);
    BumpedNew(p, before, cur, labels, id, name);
    BumpedLabels(p, cur, labels, id, name);
    hide OldKept, NewMade, Labelled, Names, Max, ConfidenceFor;
  }

  /** A node whose name has not been seen to is an old one. */
  lemma OldName(p: Pass, before: map<NodeId, Node>, cur: map<NodeId, Node>, labels: map<string, NodeId>, id: NodeId,
                name: string)
    requires OldKept(p, before, cur, labels) && NewMade(p, before, cur, labels) && name !in labels
    requires id in cur && p.lower(cur[id].name) == name
    ensures id in before && name in Names(p.lower, before)
  {
    hide NewNode, Max, ConfidenceFor;
    assert p.lower(before[id].name) in Names(p.lower, before);
  }

  ghost function Added(p: Pass, cur: map<NodeId, Node>, id: NodeId, name: string): map<NodeId, Node>
    requires name in p.counts
  {
    cur[id := NewNode(p, id, name)]
  }

  lemma NewNodeNamed(p: Pass, id: NodeId, name: string)
    requires PassOk(p) && name in p.counts
    ensures p.lower(NewNode(p, id, name).name) == name && NewNode(p, id, name).id == id
  {
    assert Mentioned(p.lower, p.parsed, [])(name) == Mentions(p.lower, p.parsed, name);
    DisplayFound(p.lower, p.parsed, name);
  }

  lemma AddedOld(p: Pass, before: map<NodeId, Node>, cur: map<NodeId, Node>, labels: map<string, NodeId>, id: NodeId,
                 name: string)
    requires name in p.counts && name !in Names(p.lower, cur) && id !in cur && OldKept(p, before, cur, labels)
    ensures OldKept(p, before, Added(p, cur, id, name), labels[name := id]) && name !in Names(p.lower, before)
  {
    hide NewNode, Max, ConfidenceFor;
    forall k | k in before
      ensures p.lower(before[k].name) != name
    {
      assert p.lower(cur[k].name) in Names(p.lower, cur);
    }
  }

  lemma AddedNew(p: Pass, before: map<NodeId, Node>, cur: map<NodeId, Node>, labels: map<string, NodeId>, id: NodeId,
                 name: string)
    requires PassOk(p) && name in p.counts && name !in Names(p.lower, before) && NewMade(p, before, cur, labels)
    requires name !in labels
    ensures NewMade(p, before, Added(p, cur, id, name), labels[name := id])
  {
    NewNodeNamed(p, id, name);
    hide NewNode, Names, PassOk;
  }

  lemma AddedLabels(p: Pass, cur: map<NodeId, Node>, labels: map<string, NodeId>, id: NodeId, name: string)
    requires PassOk(p) && name in p.counts && id !in cur && Labelled(p, cur, labels)
    ensures Labelled(p, Added(p, cur, id, name), labels[name := id])
  {
    NewNodeNamed(p, id, name);
    hide NewNode, PassOk;
  }

  lemma AddDone(p: Pass, before: map<NodeId, Node>, cur: map<NodeId, Node>, labels: map<string, NodeId>, name: string,
                id: NodeId)
    requires PassOk(p) && NodesDone(p, before, cur, labels) && name in p.counts && name !in labels
    requires id !in cur && name !in Names(p.lower, cur)
    ensures NodesDone(p, before, Added(p, cur, id, name), labels[name := id])
    ensures name !in Names(p.lower, before)
  {
    NewNodeNamed(p, id, name);
    AddedOld(p, before, cur, labels, id, name);
    AddedNew(p, before, cur, labels, id, name);
    AddedLabels(p, cur, labels, id, name);
    hide OldKept, NewMade, Labelled, NewNode, Names, PassOk;
  }

  /** A node of every name. */
  ghost predicate IndexOk(lower: Lower, nodes: map<NodeId, Node>, index: map<string, NodeId>) {
    && index.Keys == Names(lower, nodes)
    && forall name :: name in index ==> index[name] in nodes && lower(nodes[index[name]].name) == name
  }

  method IndexNames(lower: Lower, g: Snapshot) returns (index: map<string, NodeId>)
    requires Keyed(g.nodes)
    ensures IndexOk(lower, g.nodes, index)
  {
    index := map[];
    var todo := g.nodes.Keys;
    while todo != {}
      invariant todo <= g.nodes.Keys
      invariant forall id :: id in g.nodes && id !in todo ==> lower(g.nodes[id].name) in index
      invariant forall name :: name in index ==>
                  index[name] in g.nodes && lower(g.nodes[index[name]].name) == name && name in Names(lower, g.nodes)
    {
      var id :| id in todo;
      assert lower(g.nodes[id].name) in Names(lower, g.nodes);
      todo, index := todo - {id}, index[lower(g.nodes[id].name) := g.nodes[id].id];
    }
  }

  lemma BumpedIndex(p: Pass, cur: map<NodeId, Node>, index: map<string, NodeId>, id: NodeId, name: string)
    requires IndexOk(p.lower, cur, index) && id in cur && name in p.counts
    ensures IndexOk(p.lower, Bumped(p, cur, id, name), index)
  {
    hide Max, ConfidenceFor;
    var cur' := Bumped(p, cur, id, name);
    assert forall k :: k in cur <==> k in cur';
    assert forall k :: k in cur ==> cur'[k].name == cur[k].name;
    assert forall n :: n in Names(p.lower, cur) ==> exists k :: k in cur' && p.lower(cur'[k].name) == n;
    assert forall n :: n in Names(p.lower, cur') ==> exists k :: k in cur && p.lower(cur[k].name) == n;
    assert Names(p.lower, cur') == Names(p.lower, cur);
  }

  lemma AddedIndex(p: Pass, cur: map<NodeId, Node>, index: map<string, NodeId>, id: NodeId, name: string)
    requires PassOk(p) && IndexOk(p.lower, cur, index) && id !in cur && name in p.counts
    ensures IndexOk(p.lower, Added(p, cur, id, name), index[name := id])
  {
    NewNodeNamed(p, id, name);
    hide NewNode, PassOk;
    var cur' := Added(p, cur, id, name);
    assert forall k :: k in cur ==> k in cur' && cur'[k] == cur[k];
    assert p.lower(cur'[id].name) in Names(p.lower, cur');
    assert forall n :: n in Names(p.lower, cur) ==> exists k :: k in cur && p.lower(cur'[k].name) == n;
    assert Names(p.lower, cur') == Names(p.lower, cur) + {name};
  }

  /** Ids that are minted from number `n` on are not in use. */
  ghost predicate Unused(mint: nat -> NodeId, g: Snapshot, n: nat) {
    Minted(mint) && forall k :: k >= n ==> mint(k) !in g.nodes && mint(k) !in g.adjacency
  }

  /** The same edges; a node without edges may have an empty list or none. */
  ghost predicate SameEdges(a: Snapshot, b: Snapshot) {
    forall k :: a.Edges(k) == b.Edges(k)
  }

  lemma SameEdgesThrough(a: Snapshot, b: Snapshot, c: Snapshot)
    ensures SameEdges(a, b) && SameEdges(b, c) ==> SameEdges(a, c)
    ensures SameEdges(a, a)
  {
  }

  lemma UnusedNow(mint: nat -> NodeId, g: Snapshot, n: nat)
    requires Unused(mint, g, n)
    ensures mint(n) !in g.nodes && mint(n) !in g.adjacency
  {
  }

  lemma UnusedNext(mint: nat -> NodeId, g: Snapshot, g': Snapshot, n: nat)
    requires Unused(mint, g, n)
    requires g'.nodes.Keys <= g.nodes.Keys + {mint(n)} && g'.adjacency.Keys <= g.adjacency.Keys + {mint(n)}
    ensures Unused(mint, g', n + 1)
  {
  }

  method CreateNode(p: Pass, graph: KnowledgeGraph, id: NodeId, name: string)
    requires name in p.counts && id !in graph.nodes
    modifies graph
    ensures graph.nodes == Added(p, old(graph.nodes), id, name)
    ensures graph.adjacency == old(graph.adjacency)[id := old(graph.Value()).Edges(id)]
  {
    hide Display, ConfidenceFor;
    var display := Display(p.lower, p.parsed, name);
    graph.AddNode(id, p.classify(display), display, ConfidenceFor(p.counts[name]));
    if p.provenance.Some? {
      graph.SetProvenance(id, p.provenance.value);
    }
  }

  lemma OneMoreOf(done: set<string>, names: set<string>, name: string, added: nat, reinforced: nat)
    requires name !in done && Tallied(done, names, added, reinforced)
    ensures Tallied(done + {name}, names, added + (if name in names then 0 else 1),
                    reinforced + (if name in names then 1 else 0))
  {
    var more := done + {name};
    if name in names {
      assert more - names == done - names;
      assert more * names == done * names + {name} && name !in done * names;
    } else {
      assert more * names == done * names;
      assert more - names == (done - names) + {name} && name !in done - names;
    }
  }

  lemma KeysGrow(labels: map<string, NodeId>, name: string, node: NodeId)
    ensures labels[name := node].Keys == labels.Keys + {name}
  {
  }

  lemma MoveOver(done: set<string>, todo: set<string>, name: string)
    requires name in todo && done !! todo
    ensures name !in done && (done + {name}) !! (todo - {name}) && done + {name} + (todo - {name}) == done + todo
    ensures |todo - {name}| < |todo|
  {
  }

  /** One name: an existing node is reinforced, else one is created. */
  method EnsureNode(p: Pass, graph: KnowledgeGraph, index: map<string, NodeId>, name: string, id: NodeId,
                    ghost before: map<NodeId, Node>, ghost labels: map<string, NodeId>)
      returns (index': map<string, NodeId>, node: NodeId, created: bool)
    requires PassOk(p) && NodesDone(p, before, graph.nodes, labels) && IndexOk(p.lower, graph.nodes, index)
    requires name in p.counts && name !in labels && id !in graph.nodes && id !in graph.adjacency
    modifies graph
    ensures NodesDone(p, before, graph.nodes, labels[name := node])
    ensures IndexOk(p.lower, graph.nodes, index') && created == (name !in Names(p.lower, before))
    ensures SameEdges(old(graph.Value()), graph.Value())
    ensures graph.nodes.Keys <= old(graph.nodes.Keys) + {id}
    ensures graph.adjacency.Keys <= old(graph.adjacency.Keys) + {id}
    ensures graph.adjacency == if created then old(graph.adjacency)[id := []] else old(graph.adjacency)
  {
    hide NodesDone, PassOk, ConfidenceFor, Names;
    index' := index;
    if name in index {
      node, created := index[name], false;
      BumpDone(p, before, graph.nodes, labels, name, node);
      BumpedIndex(p, graph.nodes, index, node, name);
      LowConfidence(p.counts[name]);
      graph.BumpConfidence(node, ConfidenceFor(p.counts[name]));
    } else {
      node, created := id, true;
      AddDone(p, before, graph.nodes, labels, name, id);
      AddedIndex(p, graph.nodes, index, id, name);
      CreateNode(p, graph, id, name);
      index' := index[name := id];
    }
  }

  lemma LowConfidence(count: nat)
    ensures Min(ConfidenceFor(count), 100) == ConfidenceFor(count)
  {
  }

  /** Where a graph stands once the names in `labels` have been seen to. */
  ghost predicate NodesEnsured(p: Pass, start: Snapshot, g: Snapshot, labels: map<string, NodeId>,
                               added: nat, reinforced: nat)
  {
    && NodesDone(p, start.nodes, g.nodes, labels) && SameEdges(start, g)
    && Tallied(labels.Keys, Names(p.lower, start.nodes), added, reinforced)
    && (added == 0 ==> g.adjacency == start.adjacency)
  }

  /** Of the names seen to, how many were new and how many were there. */
  ghost predicate Tallied(done: set<string>, names: set<string>, added: nat, reinforced: nat) {
    added == |done - names| && reinforced == |done * names|
  }

  lemma NothingEnsured(p: Pass, g: Snapshot)
    requires Keyed(g.nodes)
    ensures NodesEnsured(p, g, g, map[], 0, 0)
  {
    NothingDone(p, g.nodes);
    var names, labels: map<string, NodeId> := Names(p.lower, g.nodes), map[];
    assert labels.Keys - names == {} && labels.Keys * names == {};
  }

  lemma OneMoreEnsured(p: Pass, start: Snapshot, g: Snapshot, g': Snapshot, labels: map<string, NodeId>,
                       added: nat, reinforced: nat, name: string, node: NodeId, created: bool)
    requires NodesEnsured(p, start, g, labels, added, reinforced) && name !in labels
    requires NodesDone(p, start.nodes, g'.nodes, labels[name := node]) && SameEdges(g, g')
    requires created == (name !in Names(p.lower, start.nodes)) && (!created ==> g'.adjacency == g.adjacency)
    ensures NodesEnsured(p, start, g', labels[name := node],
                         added + (if created then 1 else 0), reinforced + (if created then 0 else 1))
  {
    hide NodesDone, Names, SameEdges, Tallied;
    OneMoreOf(labels.Keys, Names(p.lower, start.nodes), name, added, reinforced);
    KeysGrow(labels, name, node);
    SameEdgesThrough(start, g, g');
  }

  /** All names that were counted, in some order. Where two nodes have a name, either may come to stand for it. */
  method EnsureNodes(p: Pass, graph: KnowledgeGraph, mint: nat -> NodeId)
      returns (labels: map<string, NodeId>, added: nat, reinforced: nat)
    requires PassOk(p) && Keyed(graph.nodes) && Unused(mint, graph.Value(), 0)
    modifies graph
    ensures NodesEnsured(p, old(graph.Value()), graph.Value(), labels, added, reinforced)
    ensures labels.Keys == p.counts.Keys
  {
    hide PassOk, Names, IndexOk, Keyed, Unused, SameEdges, NodesDone, NodesEnsured, Added, Bumped;
    NothingEnsured(p, graph.Value());
    var index := IndexNames(p.lower, graph.Value());
    labels, added, reinforced := map[], 0, 0;
    var todo := p.counts.Keys;
    ghost var done: set<string> := {};
    var n := 0;
    while todo != {}
      invariant labels.Keys == done && done !! todo && done + todo == p.counts.Keys
      invariant NodesEnsured(p, old(graph.Value()), graph.Value(), labels, added, reinforced)
      invariant IndexOk(p.lower, graph.nodes, index) && Unused(mint, graph.Value(), n)
      decreases |todo|
    {
      var name :| name in todo;
      MoveOver(done, todo, name);
      var node, created;
      ghost var prior := graph.Value();
      UnusedNow(mint, prior, n);
      EnsuredNodes(p, old(graph.Value()), prior, labels, added, reinforced);
      index, node, created := EnsureNode(p, graph, index, name, mint(n), old(graph.nodes), labels);
      UnusedNext(mint, prior, graph.Value(), n);
      OneMoreEnsured(p, old(graph.Value()), prior, graph.Value(), labels, added, reinforced, name, node, created);
      added, reinforced := added + (if created then 1 else 0), reinforced + (if created then 0 else 1);
      KeysGrow(labels, name, node);
      labels, todo, done, n := labels[name := node], todo - {name}, done + {name}, n + 1;
    }
  }

  lemma EnsuredNodes(p: Pass, start: Snapshot, g: Snapshot, labels: map<string, NodeId>, added: nat, reinforced: nat)
    requires NodesEnsured(p, start, g, labels, added, reinforced)
    ensures NodesDone(p, start.nodes, g.nodes, labels)
  {
    hide NodesDone;
  }

  // ---------------------------------------------------------------------------
  // Edges
  // ---------------------------------------------------------------------------

  type Pair = (NodeId, NodeId)

  /** The ordered pairs of nodes that some edge connects. */
  ghost function Pairs(g: Snapshot): set<Pair> {
    set k, i | k in g.adjacency && 0 <= i < |g.adjacency[k]| :: (g.adjacency[k][i].from, g.adjacency[k][i].to)
  }

  ghost predicate SamePair(a: Edge, b: Edge) {
    a.from == b.from && a.to == b.to
  }

  /** At most one edge from one node to another. */
  ghost predicate OnePerPair(g: Snapshot) {
    forall k, l, i, j | 0 <= i < |g.Edges(k)| && 0 <= j < |g.Edges(l)| ::
      SamePair(g.Edges(k)[i], g.Edges(l)[j]) ==> k == l && i == j
  }

  lemma PairOfEdge(g: Snapshot, k: NodeId, i: nat)
    requires i < |g.Edges(k)|
    ensures (g.Edges(k)[i].from, g.Edges(k)[i].to) in Pairs(g)
  {
    assert k in g.adjacency && g.adjacency[k] == g.Edges(k);
  }

  lemma ConnectAddsPair(g: Snapshot, e: Edge)
    ensures Pairs(Connected(g, e)) == Pairs(g) + {(e.from, e.to)}
  {
    var g' := Connected(g, e);
    forall p | p in Pairs(g)
      ensures p in Pairs(g')
    {
      var k, i :| k in g.adjacency && 0 <= i < |g.adjacency[k]| && p == (g.adjacency[k][i].from, g.adjacency[k][i].to);
      assert g'.adjacency[k][i] == g.adjacency[k][i];
    }
    assert g'.adjacency[e.from][|g.Edges(e.from)|] == e;
    forall p | p in Pairs(g')
      ensures p in Pairs(g) || p == (e.from, e.to)
    {
      var k, i :| k in g'.adjacency && 0 <= i < |g'.adjacency[k]|
                  && p == (g'.adjacency[k][i].from, g'.adjacency[k][i].to);
      if k != e.from || i < |g.Edges(k)| {
        assert g'.adjacency[k][i] == g.Edges(k)[i];
        PairOfEdge(g, k, i);
      }
    }
  }

  lemma ConnectKeepsOne(g: Snapshot, e: Edge)
    requires OnePerPair(g) && (e.from, e.to) !in Pairs(g)
    ensures OnePerPair(Connected(g, e))
  {
    hide Pairs;
    var g' := Connected(g, e);
    forall k, i | 0 <= i < |g.Edges(k)|
      ensures g.Edges(k)[i].from != e.from || g.Edges(k)[i].to != e.to
    {
      PairOfEdge(g, k, i);
    }
    forall k, i | 0 <= i < |g'.Edges(k)|
      ensures if k == e.from && i == |g.Edges(k)| then g'.Edges(k)[i] == e
              else i < |g.Edges(k)| && g'.Edges(k)[i] == g.Edges(k)[i]
    {
    }
  }

  lemma SameEdgesSamePairs(a: Snapshot, b: Snapshot)
    requires SameEdges(a, b)
    ensures Pairs(a) == Pairs(b) && (OnePerPair(a) ==> OnePerPair(b))
  {
    forall p | p in Pairs(a) ensures p in Pairs(b) {
      var k, i :| k in a.adjacency && 0 <= i < |a.adjacency[k]| && p == (a.adjacency[k][i].from, a.adjacency[k][i].to);
      assert a.Edges(k) == b.Edges(k);
      PairOfEdge(b, k, i);
    }
    forall p | p in Pairs(b) ensures p in Pairs(a) {
      var k, i :| k in b.adjacency && 0 <= i < |b.adjacency[k]| && p == (b.adjacency[k][i].from, b.adjacency[k][i].to);
      assert a.Edges(k) == b.Edges(k);
      PairOfEdge(a, k, i);
    }
  }

  // ---------------------------------------------------------------------------
  // What a sentence asks for
  // ---------------------------------------------------------------------------

  /** Different nodes mentioned next to each other, among the first `n` gaps. */
  ghost function Neighbours(ids: seq<NodeId>, n: nat): set<Pair>
    requires n <= |ids|
  {
    if n <= 1 then {}
    else Neighbours(ids, n - 1) + if ids[n - 2] == ids[n - 1] then {} else {(ids[n - 2], ids[n - 1])}
  }

  ghost function From(u: seq<NodeId>, i: nat, m: nat): set<Pair>
    requires i < |u| && m <= |u|
  {
    set j | i < j < m :: (u[i], u[j])
  }

  /** Nodes mentioned in the same sentence, the one that came first first, for the first `n` nodes. */
  ghost function Together(u: seq<NodeId>, n: nat): set<Pair>
    requires n <= |u|
  {
    if n == 0 then {} else Together(u, n - 1) + From(u, n - 1, |u|)
  }

  ghost function Wanted(ids: seq<NodeId>): set<Pair> {
    Neighbours(ids, |ids|) + Together(Firsts(ids), |Firsts(ids)|)
  }

  /** Edges were only appended, from a node to another one, both there. */
  ghost predicate Grown(a: Snapshot, b: Snapshot) {
    forall k ::
      && a.Edges(k) <= b.Edges(k)
      && forall i :: |a.Edges(k)| <= i < |b.Edges(k)| ==>
           var e := b.Edges(k)[i];
           e.from == k && e.from != e.to && e.from in b.nodes && e.to in b.nodes
  }

  lemma GrownThrough(a: Snapshot, b: Snapshot, c: Snapshot)
    ensures Grown(a, b) && Grown(b, c) && b.nodes == c.nodes ==> Grown(a, c)
    ensures Grown(a, a)
  {
  }

  lemma ConnectGrows(g: Snapshot, e: Edge)
    requires e.from != e.to && e.from in g.nodes && e.to in g.nodes
    ensures Grown(g, Connected(g, e))
  {
  }

  /** What linking keeps: `seen` is what is connected, and `added` counts what was not connected at first. */
  ghost predicate Linking(start: Snapshot, g: Snapshot, seen: set<Pair>, added: nat) {
    && seen == Pairs(g) && (OnePerPair(start) ==> OnePerPair(g)) && Grown(start, g) && g.nodes == start.nodes
    && Pairs(start) <= seen && |seen| == |Pairs(start)| + added && (added == 0 ==> g == start)
  }

  lemma LinkStep(start: Snapshot, g: Snapshot, seen: set<Pair>, added: nat, e: Edge)
    requires Linking(start, g, seen, added) && (e.from, e.to) !in seen
    requires e.from != e.to && e.from in g.nodes && e.to in g.nodes
    ensures Linking(start, Connected(g, e), seen + {(e.from, e.to)}, added + 1)
  {
    ConnectAddsPair(g, e);
    if OnePerPair(g) {
      ConnectKeepsOne(g, e);
    }
    ConnectGrows(g, e);
    GrownThrough(start, g, Connected(g, e));
    hide Pairs, OnePerPair, Grown;
    assert |seen + {(e.from, e.to)}| == |seen| + 1;
  }

  /** An edge unless there is one already. */
  method Link(graph: KnowledgeGraph, from: NodeId, to: NodeId, kind: EdgeKind, seen: set<Pair>, added: nat,
              ghost start: Snapshot)
      returns (seen': set<Pair>, added': nat)
    requires Linking(start, graph.Value(), seen, added)
    requires from != to && from in graph.nodes && to in graph.nodes
    modifies graph`adjacency
    ensures Linking(start, graph.Value(), seen', added') && seen' == seen + {(from, to)}
    ensures (from, to) in seen ==> graph.adjacency == old(graph.adjacency)
    ensures (from, to) !in seen ==> graph.Value() == Connected(old(graph.Value()), Edge(from, to, kind))
  {
    seen', added' := seen, added;
    if (from, to) !in seen {
      LinkStep(start, graph.Value(), seen, added, Edge(from, to, kind));
      hide Linking;
      ghost var g' := Connected(graph.Value(), Edge(from, to, kind));
      graph.Connect(from, to, kind);
      assert graph.Value() == g';
      seen', added' := seen + {(from, to)}, added + 1;
    } else {
      assert seen + {(from, to)} == seen;
    }
  }

  // ---------------------------------------------------------------------------
  // Linking a sentence
  // ---------------------------------------------------------------------------

  /** Edges were only appended, each of them as `ok` says. */
  ghost predicate Appended(a: Snapshot, b: Snapshot, ok: Edge -> bool) {
    forall k ::
      && a.Edges(k) <= b.Edges(k)
      && forall i :: |a.Edges(k)| <= i < |b.Edges(k)| ==> ok(b.Edges(k)[i])
  }

  lemma AppendedNone(a: Snapshot, ok: Edge -> bool)
    ensures Appended(a, a, ok)
  {
  }

  lemma AppendedOne(a: Snapshot, g: Snapshot, e: Edge, ok: Edge -> bool)
    ensures Appended(a, g, ok) && ok(e) ==> Appended(a, Connected(g, e), ok)
  {
  }

  lemma AppendedThrough(a: Snapshot, b: Snapshot, c: Snapshot, first: Edge -> bool, second: Edge -> bool,
                        ok: Edge -> bool)
    requires Appended(a, b, first) && Appended(b, c, second) && forall e :: first(e) || second(e) ==> ok(e)
    ensures Appended(a, c, ok)
  {
    forall k
      ensures a.Edges(k) <= c.Edges(k)
      ensures forall i :: |a.Edges(k)| <= i < |c.Edges(k)| ==> ok(c.Edges(k)[i])
    {
      assert forall i :: 0 <= i < |b.Edges(k)| ==> c.Edges(k)[i] == b.Edges(k)[i];
    }
  }

  function GapAt(gaps: seq<string>, i: nat): string {
    if i < |gaps| then gaps[i] else ""
  }

  /** What the first `n` mentions make of a pair: the relation named where the two are neighbours first, if anywhere. */
  ghost function KindIn(ids: seq<NodeId>, gaps: seq<string>, n: nat, pair: Pair): EdgeKind
    requires n <= |ids|
  {
    if n <= 1 then RelatedTo
    else if pair in Neighbours(ids, n - 1) || pair != (ids[n - 2], ids[n - 1]) then KindIn(ids, gaps, n - 1, pair)
    else RelationFor(GapAt(gaps, n - 2))
  }

  lemma {:induction false} KindStays(ids: seq<NodeId>, gaps: seq<string>, m: nat, n: nat, pair: Pair)
    requires m <= n <= |ids| && pair in Neighbours(ids, m)
    ensures KindIn(ids, gaps, n, pair) == KindIn(ids, gaps, m, pair) && pair in Neighbours(ids, n)
    decreases n
  {
    if m < n {
      KindStays(ids, gaps, m, n - 1, pair);
    }
  }

  lemma {:induction false} KindElsewhere(ids: seq<NodeId>, gaps: seq<string>, n: nat, pair: Pair)
    requires n <= |ids| && pair !in Neighbours(ids, n) && pair.0 != pair.1
    ensures KindIn(ids, gaps, n, pair) == RelatedTo
  {
    if n > 1 {
      KindElsewhere(ids, gaps, n - 1, pair);
    }
  }

  ghost function Ends(e: Edge): Pair {
    (e.from, e.to)
  }

  /** An edge between neighbours not linked before, of the kind the text between them names. */
  ghost function Named(ids: seq<NodeId>, gaps: seq<string>, seen: set<Pair>): Edge -> bool {
    e => Ends(e) in Neighbours(ids, |ids|) && Ends(e) !in seen && e.kind == KindIn(ids, gaps, |ids|, Ends(e))
  }

  /** A plain edge between nodes of a sentence not linked before. */
  ghost function Plain(u: seq<NodeId>, seen: set<Pair>): Edge -> bool {
    e => Ends(e) in Together(u, |u|) && e.from != e.to && Ends(e) !in seen && e.kind == RelatedTo
  }

  /** An edge that a sentence asks for and that was not there before it, of the kind the sentence gives it. */
  ghost function Typed(ids: seq<NodeId>, gaps: seq<string>, seen: set<Pair>): Edge -> bool {
    e => Ends(e) in Wanted(ids) && Ends(e) !in seen && e.kind == KindIn(ids, gaps, |ids|, Ends(e))
  }

  lemma NamedOrPlain(ids: seq<NodeId>, gaps: seq<string>, seen: set<Pair>)
    ensures forall e :: Named(ids, gaps, seen)(e) ==> Typed(ids, gaps, seen)(e)
    ensures forall e :: Plain(Firsts(ids), seen + Neighbours(ids, |ids|))(e) ==> Typed(ids, gaps, seen)(e)
  {
    hide Neighbours, Together, KindIn, Firsts;
    forall e | Plain(Firsts(ids), seen + Neighbours(ids, |ids|))(e)
      ensures Typed(ids, gaps, seen)(e)
    {
      KindElsewhere(ids, gaps, |ids|, Ends(e));
    }
  }

  lemma NamedAt(ids: seq<NodeId>, gaps: seq<string>, seen: set<Pair>, i: nat)
    requires 0 < i < |ids| && ids[i - 1] != ids[i]
    ensures var e := Edge(ids[i - 1], ids[i], RelationFor(GapAt(gaps, i - 1)));
            Ends(e) !in seen && Ends(e) !in Neighbours(ids, i) ==> Named(ids, gaps, seen)(e)
  {
    var pair := (ids[i - 1], ids[i]);
    if pair !in Neighbours(ids, i) {
      KindStays(ids, gaps, i + 1, |ids|, pair);
    }
  }

  lemma {:induction false} TogetherHas(u: seq<NodeId>, n: nat, i: nat, j: nat)
    requires i < n <= |u| && i < j < |u|
    ensures (u[i], u[j]) in Together(u, n)
  {
    if i < n - 1 {
      TogetherHas(u, n - 1, i, j);
    } else {
      assert (u[i], u[j]) in From(u, i, |u|);
    }
  }

  /** Neighbours first, so that their edges have the kind the text names. */
  method LinkNeighbours(graph: KnowledgeGraph, ids: seq<NodeId>, gaps: seq<string>, seen: set<Pair>, added: nat,
                        ghost start: Snapshot)
      returns (seen': set<Pair>, added': nat)
    requires Linking(start, graph.Value(), seen, added) && forall i :: 0 <= i < |ids| ==> ids[i] in graph.nodes
    modifies graph`adjacency
    ensures Linking(start, graph.Value(), seen', added') && seen' == seen + Neighbours(ids, |ids|)
    ensures Appended(old(graph.Value()), graph.Value(), Named(ids, gaps, seen))
  {
    hide Linking, Appended, RelationFor, Connected, Named;
    ghost var ok := Named(ids, gaps, seen);
    seen', added' := seen, added;
    AppendedNone(graph.Value(), ok);
    if ids == [] {
      return;
    }
    for i := 1 to |ids|
      invariant Linking(start, graph.Value(), seen', added') && seen' == seen + Neighbours(ids, i)
      invariant Appended(old(graph.Value()), graph.Value(), ok)
    {
      if ids[i - 1] != ids[i] {
        var e := Edge(ids[i - 1], ids[i], RelationFor(GapAt(gaps, i - 1)));
        NamedAt(ids, gaps, seen, i);
        AppendedOne(old(graph.Value()), graph.Value(), e, ok);
        seen', added' := Link(graph, e.from, e.to, e.kind, seen', added', start);
      }
    }
  }

  /** Then every two nodes of the sentence that are not linked yet. */
  method LinkTogether(graph: KnowledgeGraph, u: seq<NodeId>, seen: set<Pair>, added: nat, ghost start: Snapshot)
      returns (seen': set<Pair>, added': nat)
    requires Linking(start, graph.Value(), seen, added) && forall i :: 0 <= i < |u| ==> u[i] in graph.nodes
    requires forall i, j :: 0 <= i < j < |u| ==> u[i] != u[j]
    modifies graph`adjacency
    ensures Linking(start, graph.Value(), seen', added') && seen' == seen + Together(u, |u|)
    ensures Appended(old(graph.Value()), graph.Value(), Plain(u, seen))
  {
    hide Linking, Appended, Connected, From;
    ghost var ok := Plain(u, seen);
    seen', added' := seen, added;
    AppendedNone(graph.Value(), ok);
    for i := 0 to |u|
      invariant Linking(start, graph.Value(), seen', added') && seen' == seen + Together(u, i)
      invariant Appended(old(graph.Value()), graph.Value(), ok)
    {
      FromNone(u, i);
      for j := i + 1 to |u|
        invariant Linking(start, graph.Value(), seen', added') && seen' == seen + Together(u, i) + From(u, i, j)
        invariant Appended(old(graph.Value()), graph.Value(), ok)
      {
        var e := Edge(u[i], u[j], RelatedTo);
        TogetherHas(u, |u|, i, j);
        assert Ends(e) !in seen' ==> ok(e);
        AppendedOne(old(graph.Value()), graph.Value(), e, ok);
        FromNext(u, i, j);
        seen', added' := Link(graph, u[i], u[j], RelatedTo, seen', added', start);
      }
    }
  }

  lemma FromNone(u: seq<NodeId>, i: nat)
    requires i < |u|
    ensures From(u, i, i + 1) == {}
  {
  }

  lemma FromNext(u: seq<NodeId>, i: nat, j: nat)
    requires i < j < |u|
    ensures From(u, i, j + 1) == From(u, i, j) + {(u[i], u[j])}
  {
  }

  // ---------------------------------------------------------------------------
  // The whole pass
  // ---------------------------------------------------------------------------

  /** The nodes that a sentence mentions, in order. */
  function Resolve(p: Pass, labels: map<string, NodeId>, entities: seq<string>): seq<NodeId>
    requires forall i :: 0 <= i < |entities| ==> p.lower(entities[i]) in labels
  {
    seq(|entities|, i requires 0 <= i < |entities| => labels[p.lower(entities[i])])
  }

  ghost predicate Resolvable(p: Pass, labels: map<string, NodeId>) {
    forall n, i :: 0 <= n < |p.parsed| && 0 <= i < |p.parsed[n].entities| ==>
                     p.lower(p.parsed[n].entities[i]) in labels
  }

  /** What the first `n` sentences ask for. */
  ghost function AllWanted(p: Pass, labels: map<string, NodeId>, n: nat): set<Pair>
    requires Resolvable(p, labels) && n <= |p.parsed|
  {
    if n == 0 then {} else AllWanted(p, labels, n - 1) + Wanted(Resolve(p, labels, p.parsed[n - 1].entities))
  }

  datatype ExtractReport = ExtractReport(nodesAdded: nat, nodesReinforced: nat, edgesAdded: nat)

  /** A pass from `start` to `end`, with `mid` in between: first the nodes, then the edges. */
  ghost predicate IsExtraction(p: Pass, start: Snapshot, mid: Snapshot, end: Snapshot, labels: map<string, NodeId>,
                               report: ExtractReport)
  {
    && NodesEnsured(p, start, mid, labels, report.nodesAdded, report.nodesReinforced) && labels.Keys == p.counts.Keys
    && Resolvable(p, labels)
    && Linking(mid, end, Pairs(end), report.edgesAdded)
    && Pairs(end) == Pairs(mid) + AllWanted(p, labels, |p.parsed|)
    && Appended(mid, end, AsTold(p, labels, |p.parsed|))
  }

  /** The kind that the first of `n` sentences to ask for a pair gives it. */
  ghost function FirstKind(p: Pass, labels: map<string, NodeId>, n: nat, pair: Pair): EdgeKind
    requires Resolvable(p, labels) && n <= |p.parsed|
  {
    if n == 0 then RelatedTo
    else if pair in AllWanted(p, labels, n - 1) then FirstKind(p, labels, n - 1, pair)
    else
      var ids := Resolve(p, labels, p.parsed[n - 1].entities);
      KindIn(ids, p.parsed[n - 1].gaps, |ids|, pair)
  }

  /** An edge that the first `n` sentences ask for, of the kind that the first of them gives it. */
  ghost function AsTold(p: Pass, labels: map<string, NodeId>, n: nat): Edge -> bool
    requires Resolvable(p, labels) && n <= |p.parsed|
  {
    e => Ends(e) in AllWanted(p, labels, n) && e.kind == FirstKind(p, labels, n, Ends(e))
  }

  /** What one more sentence adds is as told. */
  lemma ToldNext(p: Pass, labels: map<string, NodeId>, n: nat, seen: set<Pair>)
    requires Resolvable(p, labels) && n < |p.parsed| && AllWanted(p, labels, n) <= seen
    ensures forall e :: AsTold(p, labels, n)(e) ==> AsTold(p, labels, n + 1)(e)
    ensures forall e :: Typed(Resolve(p, labels, p.parsed[n].entities), p.parsed[n].gaps, seen)(e) ==>
              AsTold(p, labels, n + 1)(e)
  {
    hide Wanted, KindIn, Resolve;
  }

  lemma {:induction false} MentionCounted(lower: Lower, parsed: seq<SentenceParse>, n: nat, i: nat)
    requires n < |parsed| && i < |parsed[n].entities|
    ensures Mentions(lower, parsed, lower(parsed[n].entities[i])) > 0
    decreases |parsed|
  {
    if n == |parsed| - 1 {
      CountedIn(lower, parsed[n].entities, i);
    } else {
      MentionCounted(lower, parsed[..|parsed| - 1], n, i);
    }
  }

  lemma {:induction false} CountedIn(lower: Lower, entities: seq<string>, i: nat)
    requires i < |entities|
    ensures MentionsIn(lower, entities, lower(entities[i])) > 0
    decreases |entities|
  {
    if i < |entities| - 1 {
      CountedIn(lower, entities[..|entities| - 1], i);
    }
  }

  lemma AllResolvable(p: Pass, labels: map<string, NodeId>)
    requires PassOk(p) && labels.Keys == p.counts.Keys
    ensures Resolvable(p, labels)
  {
    forall n, i | 0 <= n < |p.parsed| && 0 <= i < |p.parsed[n].entities|
      ensures p.lower(p.parsed[n].entities[i]) in labels
    {
      var name := p.lower(p.parsed[n].entities[i]);
      MentionCounted(p.lower, p.parsed, n, i);
      assert Mentioned(p.lower, p.parsed, [])(name) == Mentions(p.lower, p.parsed, name);
    }
  }

  ghost predicate Placed(labels: map<string, NodeId>, nodes: map<NodeId, Node>) {
    forall name :: name in labels ==> labels[name] in nodes
  }

  /** The pairs connected after `n` sentences. */
  ghost function SeenAfter(p: Pass, labels: map<string, NodeId>, before: set<Pair>, n: nat): set<Pair>
    requires Resolvable(p, labels) && n <= |p.parsed|
  {
    if n == 0 then before
    else SeenAfter(p, labels, before, n - 1) + Wanted(Resolve(p, labels, p.parsed[n - 1].entities))
  }

  lemma {:induction false} SeenIsWanted(p: Pass, labels: map<string, NodeId>, before: set<Pair>, n: nat)
    requires Resolvable(p, labels) && n <= |p.parsed|
    ensures SeenAfter(p, labels, before, n) == before + AllWanted(p, labels, n)
  {
    hide Wanted;
    if n > 0 {
      SeenIsWanted(p, labels, before, n - 1);
    }
  }

  lemma NothingLinked(p: Pass, labels: map<string, NodeId>, start: Snapshot)
    requires Resolvable(p, labels)
    ensures Linking(start, start, Pairs(start), 0) && Pairs(start) == SeenAfter(p, labels, Pairs(start), 0)
  {
    GrownThrough(start, start, start);
    hide Pairs, OnePerPair, Grown;
  }

  method LinkSentences(p: Pass, graph: KnowledgeGraph, labels: map<string, NodeId>, ghost start: Snapshot)
      returns (added: nat)
    requires start == graph.Value() && Resolvable(p, labels) && Placed(labels, start.nodes)
    modifies graph`adjacency
    ensures Linking(start, graph.Value(), Pairs(graph.Value()), added)
    ensures Pairs(graph.Value()) == Pairs(start) + AllWanted(p, labels, |p.parsed|)
    ensures Appended(start, graph.Value(), AsTold(p, labels, |p.parsed|))
  {
    hide *;
    var seen := EdgePairs(graph);
    added := 0;
    NothingLinked(p, labels, start);
    AppendedNone(start, AsTold(p, labels, 0));
    for n := 0 to |p.parsed|
      invariant Linking(start, graph.Value(), seen, added) && seen == SeenAfter(p, labels, Pairs(start), n)
      invariant Appended(start, graph.Value(), AsTold(p, labels, n))
    {
      seen, added := LinkSentence(p, graph, labels, n, seen, added, start);
    }
    SeenIsWanted(p, labels, Pairs(start), |p.parsed|);
    LinkingSeen(start, graph.Value(), seen, added);
  }

  lemma LinkingSeen(start: Snapshot, g: Snapshot, seen: set<Pair>, added: nat)
    requires Linking(start, g, seen, added)
    ensures seen == Pairs(g)
  {
  }

  lemma FirstsWithin(ids: seq<NodeId>, nodes: map<NodeId, Node>)
    requires forall i :: 0 <= i < |ids| ==> ids[i] in nodes
    ensures forall i :: 0 <= i < |Firsts(ids)| ==> Firsts(ids)[i] in nodes
    ensures forall i, j :: 0 <= i < j < |Firsts(ids)| ==> Firsts(ids)[i] != Firsts(ids)[j]
  {
    FirstsFacts(ids);
    assert forall i :: 0 <= i < |Firsts(ids)| ==> Firsts(ids)[i] in ids;
  }

  lemma LinkingNodes(start: Snapshot, g: Snapshot, seen: set<Pair>, added: nat)
    requires Linking(start, g, seen, added)
    ensures g.nodes == start.nodes
  {
  }

  /** The nodes of a sentence are there, and linking them gives what is to be seen next. */
  lemma SentenceIds(p: Pass, labels: map<string, NodeId>, n: nat, start: Snapshot)
    requires Resolvable(p, labels) && n < |p.parsed| && Placed(labels, start.nodes)
    ensures forall i :: 0 <= i < |p.parsed[n].entities| ==> p.lower(p.parsed[n].entities[i]) in labels
    ensures var ids := Resolve(p, labels, p.parsed[n].entities);
            && (forall i :: 0 <= i < |ids| ==> ids[i] in start.nodes)
            && (forall i :: 0 <= i < |Firsts(ids)| ==> Firsts(ids)[i] in start.nodes)
            && (forall i, j :: 0 <= i < j < |Firsts(ids)| ==> Firsts(ids)[i] != Firsts(ids)[j])
            && SeenAfter(p, labels, Pairs(start), n + 1)
               == SeenAfter(p, labels, Pairs(start), n) + Neighbours(ids, |ids|) + Together(Firsts(ids), |Firsts(ids)|)
  {
    hide Neighbours, Together, Pairs;
    FirstsWithin(Resolve(p, labels, p.parsed[n].entities), start.nodes);
    hide Firsts;
  }

  method LinkSentence(p: Pass, graph: KnowledgeGraph, labels: map<string, NodeId>, n: nat, seen: set<Pair>, added: nat,
                      ghost start: Snapshot)
      returns (seen': set<Pair>, added': nat)
    requires Resolvable(p, labels) && n < |p.parsed| && Placed(labels, start.nodes)
    requires Linking(start, graph.Value(), seen, added) && seen == SeenAfter(p, labels, Pairs(start), n)
    requires Appended(start, graph.Value(), AsTold(p, labels, n))
    modifies graph`adjacency
    ensures Linking(start, graph.Value(), seen', added') && seen' == SeenAfter(p, labels, Pairs(start), n + 1)
    ensures Appended(start, graph.Value(), AsTold(p, labels, n + 1))
  {
    hide Linking, Firsts, Neighbours, Together, Appended, SeenAfter, Pairs, Resolve, Placed, Resolvable;
    hide Named, Plain, Typed, AsTold, AllWanted;
    SentenceIds(p, labels, n, start);
    SeenIsWanted(p, labels, Pairs(start), n);
    LinkingNodes(start, graph.Value(), seen, added);
    var ids, gaps := Resolve(p, labels, p.parsed[n].entities), p.parsed[n].gaps;
    ghost var g0 := graph.Value();
    seen', added' := LinkNeighbours(graph, ids, gaps, seen, added, start);
    ghost var g1, seen1 := graph.Value(), seen';
    seen', added' := LinkTogether(graph, Firsts(ids), seen', added', start);
    NamedOrPlain(ids, gaps, seen);
    AppendedThrough(g0, g1, graph.Value(), Named(ids, gaps, seen), Plain(Firsts(ids), seen1), Typed(ids, gaps, seen));
    ToldNext(p, labels, n, seen);
    AppendedThrough(start, g0, graph.Value(), AsTold(p, labels, n), Typed(ids, gaps, seen), AsTold(p, labels, n + 1));
  }

  method EdgePairs(graph: KnowledgeGraph) returns (seen: set<Pair>)
    ensures seen == Pairs(graph.Value())
  {
    seen := set k, i | k in graph.adjacency && 0 <= i < |graph.adjacency[k]| ::
      (graph.adjacency[k][i].from, graph.adjacency[k][i].to);
  }

  /** The whole pass: first the nodes, then the edges. */
  method Extract(lower: Lower, classify: string -> NodeKind, parsed: seq<SentenceParse>, provenance: Option<string>,
                 graph: KnowledgeGraph, mint: nat -> NodeId)
      returns (report: ExtractReport, ghost p: Pass, ghost mid: Snapshot, ghost labels: map<string, NodeId>)
    requires Keyed(graph.nodes) && Unused(mint, graph.Value(), 0)
    modifies graph
    ensures PassOk(p) && p == Pass(lower, classify, parsed, provenance, p.counts)
    ensures IsExtraction(p, old(graph.Value()), mid, graph.Value(), labels, report)
  {
    var counts := CountMentions(lower, parsed);
    var pass := Pass(lower, classify, parsed, provenance, counts);
    p := pass;
    assert PassOk(p);
    hide PassOk, Linking, OnePerPair, Pairs, Unused, Resolvable, Counts;
    var found, added, reinforced := EnsureNodes(pass, graph, mint);
    labels, mid := found, graph.Value();
    EnsuredLabels(p, old(graph.Value()), mid, labels, added, reinforced);
    AllResolvable(p, labels);
    hide NodesEnsured, SameEdges;
    var edges := LinkSentences(pass, graph, found, mid);
    report := ExtractReport(added, reinforced, edges);
  }

  lemma EnsuredLabels(p: Pass, start: Snapshot, g: Snapshot, labels: map<string, NodeId>, added: nat, reinforced: nat)
    requires NodesEnsured(p, start, g, labels, added, reinforced)
    ensures SameEdges(start, g) && Placed(labels, g.nodes)
  {
  }

  /** What the sentences say, each given as its units. */
  function ParseAll(lex: Lexicon, sentences: seq<seq<string>>): (r: seq<SentenceParse>)
    ensures |r| == |sentences| && forall i :: 0 <= i < |r| ==> r[i] == Parse(lex, sentences[i])
  {
    seq(|sentences|, i requires 0 <= i < |sentences| => Parse(lex, sentences[i]))
  }

  /** Parses the sentences and extracts from them. */
  method ExtractConcepts(lex: Lexicon, classify: string -> NodeKind, sentences: seq<seq<string>>,
                         provenance: Option<string>, graph: KnowledgeGraph, mint: nat -> NodeId)
      returns (report: ExtractReport, ghost p: Pass, ghost mid: Snapshot, ghost labels: map<string, NodeId>)
    requires Keyed(graph.nodes) && Unused(mint, graph.Value(), 0)
    modifies graph
    ensures p.parsed == ParseAll(lex, sentences)
    ensures PassOk(p) && p == Pass(lex.lower, classify, p.parsed, provenance, p.counts)
    ensures IsExtraction(p, old(graph.Value()), mid, graph.Value(), labels, report)
  {
    hide IsExtraction, PassOk, Unused, Keyed, Parse;
    var parsed: seq<SentenceParse> := [];
    for n := 0 to |sentences|
      invariant parsed == ParseAll(lex, sentences)[..n]
      invariant graph.Value() == old(graph.Value())
    {
      var parse := ParseSentence(lex, sentences[n]);
      parsed := parsed + [parse];
    }
    report, p, mid, labels := Extract(lex.lower, classify, parsed, provenance, graph, mint);
  }

  // ---------------------------------------------------------------------------
  // What a pass means
  // ---------------------------------------------------------------------------

  /** A pass loses no node and lowers no confidence, and only appends edges, none of them from a node to itself. Where
      names are distinct and pairs single, they stay so. */
  lemma ExtractionKeeps(p: Pass, start: Snapshot, mid: Snapshot, end: Snapshot, labels: map<string, NodeId>,
                        report: ExtractReport)
    requires IsExtraction(p, start, mid, end, labels, report)
    ensures Keyed(end.nodes) && Grown(start, end)
    ensures DistinctNames(p.lower, start.nodes) ==> DistinctNames(p.lower, end.nodes)
    ensures forall names :: Unambiguous(p.lower, names, start.nodes) ==> Unambiguous(p.lower, names, end.nodes)
    ensures OnePerPair(start) ==> OnePerPair(end)
    ensures forall id :: id in start.nodes ==>
              && id in end.nodes && end.nodes[id].confidence >= start.nodes[id].confidence
              && end.nodes[id].(confidence := 0) == start.nodes[id].(confidence := 0)
  {
    hide OnePerPair, Pairs, Keyed, DistinctNames, Unambiguous, Names, AllWanted, Resolvable, Grown, SameEdges;
    hide OldKept, NewMade, Labelled, Appended;
    GrownFromSame(start, mid, end);
    SameEdgesSamePairs(start, mid);
    NamesStayApart(p, start.nodes, mid.nodes, labels);
    OldNodesKept(p, start.nodes, mid.nodes, labels);
  }

  lemma OldNodesKept(p: Pass, before: map<NodeId, Node>, cur: map<NodeId, Node>, labels: map<string, NodeId>)
    requires OldKept(p, before, cur, labels)
    ensures forall id :: id in before ==>
              && id in cur && cur[id].confidence >= before[id].confidence
              && cur[id].(confidence := 0) == before[id].(confidence := 0)
  {
    hide ConfidenceFor;
  }

  lemma GrownFromSame(a: Snapshot, b: Snapshot, c: Snapshot)
    requires SameEdges(a, b) && Grown(b, c)
    ensures Grown(a, c)
  {
  }

  /** Two nodes of one name after a pass over the nodes were there before it, with that name. */
  lemma NamesStayApart(p: Pass, start: map<NodeId, Node>, end: map<NodeId, Node>, labels: map<string, NodeId>)
    requires NodesDone(p, start, end, labels)
    ensures DistinctNames(p.lower, start) ==> DistinctNames(p.lower, end)
    ensures forall names :: Unambiguous(p.lower, names, start) ==> Unambiguous(p.lower, names, end)
  {
    OldNodesKept(p, start, end, labels);
    hide NewNode, OldKept, Labelled, Keyed;
    forall id | id in start
      ensures end[id].name == start[id].name && p.lower(end[id].name) in Names(p.lower, start)
    {
      assert end[id].(confidence := 0).name == start[id].(confidence := 0).name;
    }
    forall a, b | a in end && b in end && a != b && p.lower(end[a].name) == p.lower(end[b].name)
      ensures a in start && b in start
      ensures p.lower(start[a].name) == p.lower(start[b].name) == p.lower(end[a].name)
    {
    }
  }

  lemma NamesAfter(p: Pass, start: map<NodeId, Node>, end: map<NodeId, Node>, labels: map<string, NodeId>)
    requires NodesDone(p, start, end, labels)
    ensures labels.Keys <= Names(p.lower, end)
  {
    hide OldKept, NewMade;
    forall name | name in labels
      ensures name in Names(p.lower, end)
    {
      assert p.lower(end[labels[name]].name) == name;
    }
  }

  /** Each node that stands for a name is trusted as much as the name's mentions say. */
  ghost predicate Trusted(p: Pass, nodes: map<NodeId, Node>, labels: map<string, NodeId>) {
    forall name :: name in labels && name in p.counts && labels[name] in nodes ==>
      nodes[labels[name]].confidence >= ConfidenceFor(p.counts[name])
  }

  lemma TrustedAfter(p: Pass, start: map<NodeId, Node>, end: map<NodeId, Node>, labels: map<string, NodeId>)
    requires NodesDone(p, start, end, labels)
    ensures Trusted(p, end, labels)
  {
    hide Names, Display, ConfidenceFor;
    forall name | name in labels && name in p.counts && labels[name] in end
      ensures end[labels[name]].confidence >= ConfidenceFor(p.counts[name])
    {
      assert p.lower(end[labels[name]].name) == name;
    }
  }

  /** A pass over nodes that have all the names already changes them exactly if some node it picks for a name is trusted
      less than the name's mentions say. */
  lemma NodesAgain(p: Pass, g: Snapshot, again: Snapshot, labels: map<string, NodeId>, added: nat, reinforced: nat)
    requires NodesEnsured(p, g, again, labels, added, reinforced) && labels.Keys == p.counts.Keys
    requires labels.Keys <= Names(p.lower, g.nodes)
    ensures added == 0 && reinforced == |p.counts| && again.nodes.Keys == g.nodes.Keys
    ensures again == g <==> Trusted(p, g.nodes, labels)
  {
    hide Names, SameEdges, NodesDone, Trusted;
    NoneAdded(labels.Keys, Names(p.lower, g.nodes));
    assert |p.counts| == |p.counts.Keys|;
    OnlyOldNodes(p, g.nodes, again.nodes, labels);
    TrustedStay(p, g.nodes, again.nodes, labels);
  }

  lemma OnlyOldNodes(p: Pass, g: map<NodeId, Node>, again: map<NodeId, Node>, labels: map<string, NodeId>)
    requires NodesDone(p, g, again, labels) && labels.Keys <= Names(p.lower, g)
    ensures again.Keys == g.Keys && Labelled(p, again, labels)
    ensures forall id :: id in g ==> again[id] == Reinforced(p, id, g[id], labels)
  {
    hide Names, NewNode, Reinforced, Labelled;
    assert forall id :: id in again ==> id in g;
  }

  lemma TrustedStay(p: Pass, g: map<NodeId, Node>, again: map<NodeId, Node>, labels: map<string, NodeId>)
    requires again.Keys == g.Keys && Labelled(p, again, labels)
    requires forall id :: id in g ==> again[id] == Reinforced(p, id, g[id], labels)
    ensures again == g <==> Trusted(p, g, labels)
  {
    hide ConfidenceFor;
    if Trusted(p, g, labels) {
      assert forall id :: id in g ==> again[id] == g[id];
    } else {
      var name :| name in labels && name in p.counts && labels[name] in g
                  && g[labels[name]].confidence < ConfidenceFor(p.counts[name]);
      assert p.lower(again[labels[name]].name) == name;
      assert again[labels[name]].confidence > g[labels[name]].confidence;
    }
  }

  lemma NoneAdded(counted: set<string>, names: set<string>)
    requires counted <= names
    ensures |counted - names| == 0 && counted * names == counted
  {
    assert counted - names == {};
  }

  /** The same mentions are counted the same. */
  lemma SameCounts(p: Pass, p': Pass)
    requires PassOk(p) && PassOk(p') && p.lower == p'.lower && p.parsed == p'.parsed
    ensures p.counts == p'.counts
  {
    hide Mentioned;
    var mentions := Mentioned(p.lower, p.parsed, []);
    assert Counts(p.counts, mentions) && Counts(p'.counts, mentions);
    forall name
      ensures name in p.counts <==> name in p'.counts
      ensures name in p.counts ==> p.counts[name] == p'.counts[name]
    {
      assert mentions(name) == 0 || mentions(name) > 0;
    }
  }

  lemma {:induction false} SameWanted(p: Pass, p': Pass, labels: map<string, NodeId>, n: nat)
    requires p.lower == p'.lower && p.parsed == p'.parsed && Resolvable(p, labels) && Resolvable(p', labels)
    requires n <= |p.parsed|
    ensures AllWanted(p, labels, n) == AllWanted(p', labels, n)
  {
    hide Wanted, Resolvable;
    if n > 0 {
      SameWanted(p, p', labels, n - 1);
    }
  }

  /** What a second pass over the same sentences does, whatever node it picks for each name: it adds no node, and it
      leaves the graph as it is exactly if the nodes it picks are trusted enough and linked already. */
  lemma SecondPassExactly(p: Pass, start: Snapshot, mid: Snapshot, g: Snapshot, labels: map<string, NodeId>,
                          report: ExtractReport,
                          p': Pass, mid': Snapshot, again: Snapshot, labels': map<string, NodeId>,
                          report': ExtractReport)
    requires PassOk(p) && PassOk(p') && p.lower == p'.lower && p.parsed == p'.parsed
    requires IsExtraction(p, start, mid, g, labels, report)
    requires IsExtraction(p', g, mid', again, labels', report')
    ensures report'.nodesAdded == 0 && report'.nodesReinforced == |p.counts|
    ensures again == g <==>
            Trusted(p', g.nodes, labels') && AllWanted(p', labels', |p'.parsed|) <= Pairs(g)
    ensures report'.edgesAdded == 0 <==> AllWanted(p', labels', |p'.parsed|) <= Pairs(g)
  {
    hide NodesDone, OnePerPair, Pairs, Grown, AllWanted, Resolvable, SameEdges, PassOk, Names, Appended, AsTold;
    hide Trusted;
    SameCounts(p, p');
    EnsuredNodes(p, start, mid, labels, report.nodesAdded, report.nodesReinforced);
    NamesAfter(p, start.nodes, mid.nodes, labels);
    NodesAgain(p', g, mid', labels', report'.nodesAdded, report'.nodesReinforced);
    EnsuredLabels(p', g, mid', labels', report'.nodesAdded, report'.nodesReinforced);
    SameEdgesSamePairs(g, mid');
    var wanted := AllWanted(p', labels', |p'.parsed|);
    assert |Pairs(again)| == |Pairs(g)| + report'.edgesAdded;
    if wanted <= Pairs(g) {
      assert Pairs(g) + wanted == Pairs(g);
    }
  }

  /** Extracting from the same sentences a second time, wherever they are said to come from, leaves the graph as it is
      if no name they mention is that of two nodes: no node is added, no edge is added, no confidence moves. */
  lemma ExtractionIsIdempotent(lex: Lexicon, sentences: seq<seq<string>>,
                               p: Pass, start: Snapshot, mid: Snapshot, g: Snapshot, labels: map<string, NodeId>,
                               report: ExtractReport,
                               p': Pass, mid': Snapshot, again: Snapshot, labels': map<string, NodeId>,
                               report': ExtractReport)
    requires PassOk(p) && PassOk(p') && p.lower == p'.lower == lex.lower
    requires p.parsed == p'.parsed == ParseAll(lex, sentences)
    requires Unambiguous(p.lower, p.counts.Keys, start.nodes)
    requires IsExtraction(p, start, mid, g, labels, report)
    requires IsExtraction(p', g, mid', again, labels', report')
    ensures again == g && report'.nodesAdded == 0 && report'.edgesAdded == 0
    ensures report'.nodesReinforced == |p.counts|
  {
    SameCounts(p, p');
    SecondPassExactly(p, start, mid, g, labels, report, p', mid', again, labels', report');
    EnsuredNodes(p, start, mid, labels, report.nodesAdded, report.nodesReinforced);
    EnsuredNodes(p', g, mid', labels', report'.nodesAdded, report'.nodesReinforced);
    NamesStayApart(p, start.nodes, mid.nodes, labels);
    TrustedAfter(p, start.nodes, mid.nodes, labels);
    SameLabels(p, p', mid.nodes, mid'.nodes, labels, labels');
    hide NodesEnsured, NodesDone, OnePerPair, Grown, Resolvable, PassOk, Names, Appended, AsTold, Trusted, Unambiguous;
    SameWanted(p, p', labels, |p.parsed|);
  }

  /** Where no counted name is that of two nodes, a second pass picks the same node for each name. */
  lemma SameLabels(p: Pass, p': Pass, g: map<NodeId, Node>, again: map<NodeId, Node>, first: map<string, NodeId>,
                   second: map<string, NodeId>)
    requires p.lower == p'.lower && p.counts == p'.counts && Unambiguous(p.lower, p.counts.Keys, g)
    requires Labelled(p, g, first) && first.Keys == p.counts.Keys == second.Keys
    requires NodesDone(p', g, again, second)
    ensures first == second
  {
    forall name | name in second
      ensures name in Names(p.lower, g)
    {
      assert p.lower(g[first[name]].name) == name;
    }
    OnlyOldNodes(p', g, again, second);
    hide NodesDone, Names, ConfidenceFor, Max;
    forall name | name in first
      ensures first[name] == second[name]
    {
      assert p.lower(again[second[name]].name) == name == p.lower(g[second[name]].name);
    }
  }

  // ---------------------------------------------------------------------------
  // Two nodes of one name
  // ---------------------------------------------------------------------------

  /** One sentence that mentions one name once. */
  ghost function OneMention(lower: Lower, classify: string -> NodeKind, word: string): Pass {
    Pass(lower, classify, [SentenceParse([word], [])], None, map[lower(word) := 1])
  }

  lemma OneMentionOk(lower: Lower, classify: string -> NodeKind, word: string)
    ensures PassOk(OneMention(lower, classify, word))
  {
    var p := OneMention(lower, classify, word);
    assert p.parsed[..0] == [] && [word][..0] == [];
    assert forall name :: MentionsIn(lower, [word], name) == if lower(word) == name then 1 else 0;
    assert forall name :: Mentions(lower, p.parsed, name) == MentionsIn(lower, [word], name);
  }

  /** A pass over one mention reinforces the node it picks for it. */
  lemma OneMentionPass(lower: Lower, classify: string -> NodeKind, word: string, nodes: map<NodeId, Node>, pick: NodeId)
    requires Keyed(nodes) && pick in nodes && lower(nodes[pick].name) == lower(word)
    ensures var p := OneMention(lower, classify, word);
            var end := Snapshot(Bumped(p, nodes, pick, lower(word)), map[]);
            IsExtraction(p, Snapshot(nodes, map[]), end, end, map[lower(word) := pick], ExtractReport(0, 1, 0))
  {
    hide Bumped, NodesEnsured, AllWanted, Linking, Keyed;
    var p, labels := OneMention(lower, classify, word), map[lower(word) := pick];
    var end := Snapshot(Bumped(p, nodes, pick, lower(word)), map[]);
    OneMentionNodes(lower, classify, word, nodes, pick);
    OneMentionWants(lower, classify, word, pick);
    NothingToLink(end);
    assert Pairs(end) + AllWanted(p, labels, 1) == Pairs(end);
    AppendedNone(end, AsTold(p, labels, 1));
  }

  lemma OneMentionNodes(lower: Lower, classify: string -> NodeKind, word: string, nodes: map<NodeId, Node>,
                        pick: NodeId)
    requires Keyed(nodes) && pick in nodes && lower(nodes[pick].name) == lower(word)
    ensures var p := OneMention(lower, classify, word);
            NodesEnsured(p, Snapshot(nodes, map[]), Snapshot(Bumped(p, nodes, pick, lower(word)), map[]),
                         map[lower(word) := pick], 0, 1)
  {
    hide Max, ConfidenceFor;
    var p, name, labels := OneMention(lower, classify, word), lower(word), map[lower(word) := pick];
    NothingDone(p, nodes);
    BumpDone(p, nodes, nodes, map[], name, pick);
    assert map[][name := pick] == labels;
    hide NodesDone;
    assert name in Names(lower, nodes);
    assert labels.Keys == {name} && labels.Keys - Names(lower, nodes) == {};
    assert labels.Keys * Names(lower, nodes) == {name};
  }

  lemma OneMentionWants(lower: Lower, classify: string -> NodeKind, word: string, pick: NodeId)
    ensures var p, labels := OneMention(lower, classify, word), map[lower(word) := pick];
            Resolvable(p, labels) && AllWanted(p, labels, 1) == {}
  {
    var p, labels := OneMention(lower, classify, word), map[lower(word) := pick];
    var ids := Resolve(p, labels, [word]);
    assert ids == [pick] && ids[..0] == [];
    assert Firsts(ids) == [pick];
    assert From([pick], 0, 1) == {};
    assert Together([pick], 0) == {} && Together([pick], 1) == {};
    assert Neighbours(ids, 1) == {} && |ids| == 1;
    assert Wanted(ids) == {};
    hide Wanted;
    assert AllWanted(p, labels, 0) == {};
  }

  lemma NothingToLink(g: Snapshot)
    requires g.adjacency == map[]
    ensures Linking(g, g, Pairs(g), 0)
  {
  }

  /** With two nodes of one name a second pass may pick the other one and raise its confidence, too. */
  lemma TwinsMayBreakIdempotence(lower: Lower, classify: string -> NodeKind)
    returns (p: Pass, start: Snapshot, g: Snapshot, labels: map<string, NodeId>, report: ExtractReport,
             again: Snapshot, labels': map<string, NodeId>, report': ExtractReport)
    requires lower("x") == lower("X")
    ensures PassOk(p) && IsExtraction(p, start, g, g, labels, report)
    ensures IsExtraction(p, g, again, again, labels', report') && again != g
  {
    var a, b, name := NodeId("a"), NodeId("b"), lower("x");
    var nodes := map[a := Node(a, Concept, "x", 10, None, None), b := Node(b, Concept, "X", 10, None, None)];
    p := OneMention(lower, classify, "x");
    OneMentionOk(lower, classify, "x");
    start, labels, report := Snapshot(nodes, map[]), map[name := a], ExtractReport(0, 1, 0);
    g := Snapshot(Bumped(p, nodes, a, name), map[]);
    OneMentionPass(lower, classify, "x", nodes, a);
    labels', report' := map[name := b], ExtractReport(0, 1, 0);
    again := Snapshot(Bumped(p, g.nodes, b, name), map[]);
    OneMentionPass(lower, classify, "x", g.nodes, b);
    assert g.nodes[b].confidence == 10 && again.nodes[b].confidence == 45;
  }
}
