/** Versioned graph snapshots (graph/src/versioning.rs): a chain of commits, named branches, and merging two branches
    by what their nodes are called rather than by node id. */
module Versioning {
  import opened Results
  import opened Ordering
  import opened Graph

  // ---------------------------------------------------------------------------
  // Identities and edge triples
  // ---------------------------------------------------------------------------

  /** Kind and lower-cased name: what makes two nodes the same node in a merge. */
  function Identity(lower: Lower, node: Node): string {
    NodeToken(lower, node.kind) + ":" + lower(node.name)
  }

  datatype Triple = Triple(from: string, to: string, token: string)

  /** The edge in terms of identities; none when an endpoint is missing. */
  function TripleOf(lower: Lower, nodes: map<NodeId, Node>, e: Edge): Option<Triple> {
    if e.from in nodes && e.to in nodes then
      Some(Triple(Identity(lower, nodes[e.from]), Identity(lower, nodes[e.to]), EdgeToken(lower, e.kind)))
    else None
  }

  /** Two edges say the same exactly if they lead between the same identities and are of the same kind, as spelled. */
  lemma SameTriple(lower: Lower, nodes: map<NodeId, Node>, e: Edge, f: Edge)
    requires e.from in nodes && e.to in nodes && f.from in nodes && f.to in nodes
    ensures TripleOf(lower, nodes, e) == TripleOf(lower, nodes, f) <==>
            && Identity(lower, nodes[e.from]) == Identity(lower, nodes[f.from])
            && Identity(lower, nodes[e.to]) == Identity(lower, nodes[f.to])
            && EdgeToken(lower, e.kind) == EdgeToken(lower, f.kind)
  {
    hide Identity, EdgeToken;
  }

  /** `t` is among the first `n` edges that leave `k`. */
  ghost predicate HasTripleIn(lower: Lower, g: Snapshot, k: NodeId, n: nat, t: Triple) {
    exists i :: 0 <= i < n && i < |g.Edges(k)| && TripleOf(lower, g.nodes, g.Edges(k)[i]) == Some(t)
  }

  ghost predicate HasTriple(lower: Lower, g: Snapshot, t: Triple) {
    exists k :: k in g.adjacency && HasTripleIn(lower, g, k, |g.Edges(k)|, t)
  }

  /** No two edges of the graph say the same thing. */
  ghost predicate TriplesOnce(lower: Lower, g: Snapshot) {
    forall k, l, i, j ::
      0 <= i < |g.Edges(k)| && 0 <= j < |g.Edges(l)|
      && TripleOf(lower, g.nodes, g.Edges(k)[i]).Some?
      && TripleOf(lower, g.nodes, g.Edges(k)[i]) == TripleOf(lower, g.nodes, g.Edges(l)[j])
      ==> k == l && i == j
  }

  lemma ConnectAddsTriple(lower: Lower, g: Snapshot, e: Edge, t: Triple)
    ensures HasTriple(lower, Connected(g, e), t) <==> HasTriple(lower, g, t) || TripleOf(lower, g.nodes, e) == Some(t)
  {
    hide TripleOf;
    var g' := Connected(g, e);
    if HasTriple(lower, g, t) {
      var k :| k in g.adjacency && HasTripleIn(lower, g, k, |g.Edges(k)|, t);
      var i :| 0 <= i < |g.Edges(k)| && TripleOf(lower, g.nodes, g.Edges(k)[i]) == Some(t);
      assert g'.Edges(k)[i] == g.Edges(k)[i];
      assert HasTripleIn(lower, g', k, |g'.Edges(k)|, t);
    }
    if TripleOf(lower, g.nodes, e) == Some(t) {
      assert g'.Edges(e.from)[|g.Edges(e.from)|] == e;
      assert HasTripleIn(lower, g', e.from, |g'.Edges(e.from)|, t);
    }
    if HasTriple(lower, g', t) {
      var k :| k in g'.adjacency && HasTripleIn(lower, g', k, |g'.Edges(k)|, t);
      var i :| 0 <= i < |g'.Edges(k)| && TripleOf(lower, g.nodes, g'.Edges(k)[i]) == Some(t);
      if k != e.from || i < |g.Edges(k)| {
        assert g.Edges(k)[i] == g'.Edges(k)[i];
        assert HasTripleIn(lower, g, k, |g.Edges(k)|, t);
      }
    }
  }

  lemma EdgeHasTriple(lower: Lower, g: Snapshot, k: NodeId, i: nat)
    requires i < |g.Edges(k)|
    ensures var t := TripleOf(lower, g.nodes, g.Edges(k)[i]); t.Some? ==> HasTriple(lower, g, t.value)
  {
    hide TripleOf;
    var t := TripleOf(lower, g.nodes, g.Edges(k)[i]);
    assert t.Some? ==> HasTripleIn(lower, g, k, |g.Edges(k)|, t.value);
  }

  lemma ConnectKeepsTriplesOnce(lower: Lower, g: Snapshot, e: Edge)
    requires TriplesOnce(lower, g) && TripleOf(lower, g.nodes, e).Some?
    requires !HasTriple(lower, g, TripleOf(lower, g.nodes, e).value)
    ensures TriplesOnce(lower, Connected(g, e))
  {
    hide TripleOf;
    var g', added := Connected(g, e), TripleOf(lower, g.nodes, e);
    forall k, i | 0 <= i < |g.Edges(k)|
      ensures TripleOf(lower, g.nodes, g.Edges(k)[i]) != added
    {
      EdgeHasTriple(lower, g, k, i);
    }
    forall k, i | 0 <= i < |g'.Edges(k)|
      ensures if k == e.from && i == |g.Edges(k)| then g'.Edges(k)[i] == e
              else i < |g.Edges(k)| && g'.Edges(k)[i] == g.Edges(k)[i]
    {
    }
  }

  // ---------------------------------------------------------------------------
  // What a merge is
  // ---------------------------------------------------------------------------

  datatype MergeStrategy = PreferOurs | PreferTheirs | HigherConfidence

  datatype MergeConflict = MergeConflict(identity: string, ours: nat, theirs: nat, resolved: nat)

  datatype MergeReport = MergeReport(conflicts: seq<MergeConflict>, addedFromTheirs: nat)

  /** One node for each identity of the graph; which one, when several share it, is anybody's guess. */
  ghost predicate Indexes(lower: Lower, g: Snapshot, index: map<string, Node>) {
    && (forall id :: id in g.nodes ==> Identity(lower, g.nodes[id]) in index)
    && (forall i :: i in index ==> Identity(lower, index[i]) == i && index[i] in g.nodes.Values)
  }

  function Chosen(strategy: MergeStrategy, o: Node, t: Node): Node {
    var pickTheirs := match strategy
      case PreferOurs => false
      case PreferTheirs => true
      case HigherConfidence => t.confidence > o.confidence;
    if pickTheirs then t else o
  }

  predicate Differ(o: Node, t: Node) {
    o.confidence != t.confidence || o.date != t.date || o.provenance != t.provenance
  }

  function ConflictOf(strategy: MergeStrategy, i: string, o: Node, t: Node): MergeConflict {
    MergeConflict(i, o.confidence, t.confidence, Chosen(strategy, o, t).confidence)
  }

  /** The node a merge makes for an identity: named as ours where we have it, with the chosen side's attributes. */
  function Resolved(strategy: MergeStrategy, ours: map<string, Node>, theirs: map<string, Node>,
                    i: string, id: NodeId): Node
    requires i in ours || i in theirs
  {
    var base := if i in ours then ours[i] else theirs[i];
    var chosen := if i in ours && i in theirs then Chosen(strategy, ours[i], theirs[i]) else base;
    Node(id, base.kind, base.name, Min(chosen.confidence, 100), chosen.date, chosen.provenance)
  }

  /** `ids` is a one-to-one listing of the nodes of `merged` under the identities of both sides. */
  ghost predicate MergesNodes(lower: Lower, strategy: MergeStrategy, ours: map<string, Node>, theirs: map<string, Node>,
                              merged: map<NodeId, Node>, ids: map<string, NodeId>)
  {
    && ids.Keys == ours.Keys + theirs.Keys
    && (forall i :: i in ids ==> ids[i] in merged && merged[ids[i]] == Resolved(strategy, ours, theirs, i, ids[i]))
    && (forall n :: n in merged ==> Identity(lower, merged[n]) in ids && ids[Identity(lower, merged[n])] == n)
  }

  /** The conflicts reported: one for each identity both sides have with different attributes, in order. */
  ghost predicate Reports(strategy: MergeStrategy, ours: map<string, Node>, theirs: map<string, Node>,
                          within: set<string>, report: MergeReport)
  {
    && ListsConflicts(strategy, ours, theirs, within, report.conflicts)
    && report.addedFromTheirs == |within * (theirs.Keys - ours.Keys)|
  }

  ghost predicate InConflict(ours: map<string, Node>, theirs: map<string, Node>, i: string) {
    i in ours && i in theirs && Differ(ours[i], theirs[i])
  }

  ghost predicate InIdentityOrder(conflicts: seq<MergeConflict>) {
    forall a, b :: 0 <= a < b < |conflicts| ==>
      conflicts[a].identity != conflicts[b].identity && AtMost(conflicts[a].identity, conflicts[b].identity)
  }

  ghost predicate ListsConflicts(strategy: MergeStrategy, ours: map<string, Node>, theirs: map<string, Node>,
                                 within: set<string>, conflicts: seq<MergeConflict>)
  {
    && InIdentityOrder(conflicts)
    && (forall a :: 0 <= a < |conflicts| ==>
          var i := conflicts[a].identity;
          i in within && InConflict(ours, theirs, i) && conflicts[a] == ConflictOf(strategy, i, ours[i], theirs[i]))
    && (forall i :: i in within && InConflict(ours, theirs, i) ==> Listed(conflicts, i))
  }

  ghost predicate Listed(conflicts: seq<MergeConflict>, i: string) {
    exists a :: 0 <= a < |conflicts| && conflicts[a].identity == i
  }

  lemma ListedGrows(conflicts: seq<MergeConflict>, c: MergeConflict)
    ensures Listed(conflicts + [c], c.identity)
    ensures forall i :: Listed(conflicts, i) ==> Listed(conflicts + [c], i)
  {
    var more := conflicts + [c];
    assert more[|conflicts|] == c;
    forall i | Listed(conflicts, i)
      ensures Listed(more, i)
    {
      var a :| 0 <= a < |conflicts| && conflicts[a].identity == i;
      assert more[a].identity == i;
    }
  }

  ghost predicate MergesEdges(lower: Lower, ours: Snapshot, theirs: Snapshot, merged: Snapshot) {
    && TriplesOnce(lower, merged)
    && forall t :: HasTriple(lower, merged, t) <==> HasTriple(lower, ours, t) || HasTriple(lower, theirs, t)
  }

  ghost predicate IsMerge(lower: Lower, strategy: MergeStrategy, ours: Snapshot, theirs: Snapshot, merged: Snapshot,
                          report: MergeReport, how: How)
  {
    && Indexes(lower, ours, how.ours) && Indexes(lower, theirs, how.theirs)
    && MergesNodes(lower, strategy, how.ours, how.theirs, merged.nodes, how.ids)
    && Reports(strategy, how.ours, how.theirs, how.ours.Keys + how.theirs.Keys, report)
    && MergesEdges(lower, ours, theirs, merged)
  }

  /** The choices a merge makes: a node of each side for each identity, and the merged node's id. */
  datatype How = How(ours: map<string, Node>, theirs: map<string, Node>, ids: map<string, NodeId>)

  // ---------------------------------------------------------------------------
  // What a merge means
  // ---------------------------------------------------------------------------

  ghost predicate HasIdentity(lower: Lower, g: Snapshot, i: string) {
    exists id :: id in g.nodes && Identity(lower, g.nodes[id]) == i
  }

  ghost predicate UniqueIdentities(lower: Lower, g: Snapshot) {
    forall a, b :: a in g.nodes && b in g.nodes && Identity(lower, g.nodes[a]) == Identity(lower, g.nodes[b]) ==> a == b
  }

  lemma IndexedIdentities(lower: Lower, g: Snapshot, index: map<string, Node>, i: string)
    requires Indexes(lower, g, index)
    ensures i in index <==> HasIdentity(lower, g, i)
  {
    hide Identity;
    if i in index {
      var id :| id in g.nodes && g.nodes[id] == index[i];
    }
  }

  lemma ResolvedIdentity(lower: Lower, strategy: MergeStrategy, ours: map<string, Node>, theirs: map<string, Node>,
                         i: string, id: NodeId)
    requires i in ours || i in theirs
    requires i in ours ==> Identity(lower, ours[i]) == i
    requires i in theirs ==> Identity(lower, theirs[i]) == i
    ensures Identity(lower, Resolved(strategy, ours, theirs, i, id)) == i
  {
  }

  /** The merge has every identity of either side, once, and no other. */
  lemma MergeHasEachIdentityOnce(lower: Lower, strategy: MergeStrategy, ours: Snapshot, theirs: Snapshot,
                                 merged: Snapshot, report: MergeReport, how: How)
    requires IsMerge(lower, strategy, ours, theirs, merged, report, how)
    ensures UniqueIdentities(lower, merged)
    ensures forall i :: HasIdentity(lower, merged, i) <==> HasIdentity(lower, ours, i) || HasIdentity(lower, theirs, i)
  {
    hide Identity, Resolved, Reports, MergesEdges;
    forall i
      ensures HasIdentity(lower, merged, i) <==> HasIdentity(lower, ours, i) || HasIdentity(lower, theirs, i)
    {
      IndexedIdentities(lower, ours, how.ours, i);
      IndexedIdentities(lower, theirs, how.theirs, i);
      if i in how.ids {
        ResolvedIdentity(lower, strategy, how.ours, how.theirs, i, how.ids[i]);
        assert how.ids[i] in merged.nodes;
      }
    }
  }

  /** With unique identities on both sides, keeping the higher confidence keeps the maximum. */
  lemma HigherConfidenceKeepsMaximum(lower: Lower, ours: Snapshot, theirs: Snapshot, merged: Snapshot,
                                     report: MergeReport, how: How, a: NodeId, b: NodeId)
    requires IsMerge(lower, HigherConfidence, ours, theirs, merged, report, how)
    requires UniqueIdentities(lower, ours) && UniqueIdentities(lower, theirs)
    requires a in ours.nodes && b in theirs.nodes
    requires Identity(lower, ours.nodes[a]) == Identity(lower, theirs.nodes[b])
    ensures exists n ::
              && n in merged.nodes && Identity(lower, merged.nodes[n]) == Identity(lower, ours.nodes[a])
              && merged.nodes[n].confidence == Min(Max(ours.nodes[a].confidence, theirs.nodes[b].confidence), 100)
  {
    hide Identity, Reports, MergesEdges;
    var i := Identity(lower, ours.nodes[a]);
    IndexedNode(lower, ours, how.ours, a);
    IndexedNode(lower, theirs, how.theirs, b);
    var n := how.ids[i];
    ResolvedIdentity(lower, HigherConfidence, how.ours, how.theirs, i, n);
    assert n in merged.nodes;
  }

  /** `z` has the attributes of `x`. */
  ghost predicate Carries(z: Node, x: Node) {
    && z.confidence == (if x.confidence < 100 then x.confidence else 100)
    && z.date == x.date && z.provenance == x.provenance
  }

  /** Of two nodes of one identity the merge keeps our kind and name, and the attributes of ours, of theirs, or of
      theirs where it is the more trusted one, as the strategy says. */
  lemma MergedFromBoth(lower: Lower, strategy: MergeStrategy, ours: Snapshot, theirs: Snapshot, merged: Snapshot,
                       report: MergeReport, how: How, a: NodeId, b: NodeId) returns (n: NodeId)
    requires IsMerge(lower, strategy, ours, theirs, merged, report, how)
    requires UniqueIdentities(lower, ours) && UniqueIdentities(lower, theirs)
    requires a in ours.nodes && b in theirs.nodes
    requires Identity(lower, ours.nodes[a]) == Identity(lower, theirs.nodes[b])
    ensures n in merged.nodes && Identity(lower, merged.nodes[n]) == Identity(lower, ours.nodes[a])
    ensures var (x, y, z) := (ours.nodes[a], theirs.nodes[b], merged.nodes[n]);
            && z.id == n && z.kind == x.kind && z.name == x.name
            && match strategy
               case PreferOurs => Carries(z, x)
               case PreferTheirs => Carries(z, y)
               case HigherConfidence => if y.confidence > x.confidence then Carries(z, y) else Carries(z, x)
  {
    hide Identity, Reports, MergesEdges;
    var i := Identity(lower, ours.nodes[a]);
    IndexedNode(lower, ours, how.ours, a);
    IndexedNode(lower, theirs, how.theirs, b);
    n := how.ids[i];
    ResolvedIdentity(lower, strategy, how.ours, how.theirs, i, n);
  }

  /** A node of one side only is kept with its kind, name and attributes. */
  lemma MergedFromOne(lower: Lower, strategy: MergeStrategy, ours: Snapshot, theirs: Snapshot, merged: Snapshot,
                      report: MergeReport, how: How, mine: bool, a: NodeId) returns (n: NodeId)
    requires IsMerge(lower, strategy, ours, theirs, merged, report, how)
    requires UniqueIdentities(lower, ours) && UniqueIdentities(lower, theirs)
    requires var (g, other) := if mine then (ours, theirs) else (theirs, ours);
             a in g.nodes && !HasIdentity(lower, other, Identity(lower, g.nodes[a]))
    ensures n in merged.nodes && merged.nodes[n].id == n
    ensures var (x, z) := (if mine then ours.nodes[a] else theirs.nodes[a], merged.nodes[n]);
            z.kind == x.kind && z.name == x.name && Carries(z, x)
  {
    hide Identity, Reports, MergesEdges;
    var g := if mine then ours else theirs;
    var i := Identity(lower, g.nodes[a]);
    IndexedNode(lower, g, if mine then how.ours else how.theirs, a);
    IndexedIdentities(lower, ours, how.ours, i);
    IndexedIdentities(lower, theirs, how.theirs, i);
    n := how.ids[i];
  }

  /** A conflict is reported for two nodes of one identity exactly if their attributes differ, with the confidences of
      both and the one that was kept. */
  lemma ConflictsAre(lower: Lower, strategy: MergeStrategy, ours: Snapshot, theirs: Snapshot, merged: Snapshot,
                     report: MergeReport, how: How, a: NodeId, b: NodeId)
    requires IsMerge(lower, strategy, ours, theirs, merged, report, how)
    requires UniqueIdentities(lower, ours) && UniqueIdentities(lower, theirs)
    requires a in ours.nodes && b in theirs.nodes
    requires Identity(lower, ours.nodes[a]) == Identity(lower, theirs.nodes[b])
    ensures var (x, y) := (ours.nodes[a], theirs.nodes[b]);
            var kept := match strategy
                        case PreferOurs => x.confidence
                        case PreferTheirs => y.confidence
                        case HigherConfidence => if x.confidence < y.confidence then y.confidence else x.confidence;
            var c := MergeConflict(Identity(lower, x), x.confidence, y.confidence, kept);
            && (Listed(report.conflicts, c.identity) <==> x.(id := y.id, kind := y.kind, name := y.name) != y)
            && (forall k :: 0 <= k < |report.conflicts| && report.conflicts[k].identity == c.identity ==>
                  report.conflicts[k] == c)
  {
    hide Identity, MergesNodes, MergesEdges, InIdentityOrder;
    IndexedNode(lower, ours, how.ours, a);
    IndexedNode(lower, theirs, how.theirs, b);
  }

  /** Nothing else is reported, and what is new from theirs is counted. */
  lemma OnlyConflicts(lower: Lower, strategy: MergeStrategy, ours: Snapshot, theirs: Snapshot, merged: Snapshot,
                      report: MergeReport, how: How)
    requires IsMerge(lower, strategy, ours, theirs, merged, report, how)
    ensures forall k :: 0 <= k < |report.conflicts| ==>
              HasIdentity(lower, ours, report.conflicts[k].identity)
              && HasIdentity(lower, theirs, report.conflicts[k].identity)
    ensures report.addedFromTheirs
         == |set b | b in theirs.nodes && !HasIdentity(lower, ours, Identity(lower, theirs.nodes[b])) ::
                   Identity(lower, theirs.nodes[b])|
  {
    hide Identity, MergesNodes, MergesEdges, InIdentityOrder, Listed;
    forall i
      ensures i in how.ours <==> HasIdentity(lower, ours, i)
      ensures i in how.theirs <==> HasIdentity(lower, theirs, i)
    {
      IndexedIdentities(lower, ours, how.ours, i);
      IndexedIdentities(lower, theirs, how.theirs, i);
    }
    NewIdentities(lower, ours, theirs, how.ours, how.theirs);
    hide HasIdentity, Indexes;
  }

  lemma NewIdentities(lower: Lower, ours: Snapshot, theirs: Snapshot, mine: map<string, Node>, other: map<string, Node>)
    requires Indexes(lower, theirs, other) && forall i :: i in mine <==> HasIdentity(lower, ours, i)
    ensures (mine.Keys + other.Keys) * (other.Keys - mine.Keys)
         == set b | b in theirs.nodes && !HasIdentity(lower, ours, Identity(lower, theirs.nodes[b])) ::
              Identity(lower, theirs.nodes[b])
  {
    hide Identity, HasIdentity;
    forall i | i in other
      ensures exists b :: b in theirs.nodes && Identity(lower, theirs.nodes[b]) == i
    {
      var b :| b in theirs.nodes && theirs.nodes[b] == other[i];
    }
  }

  /** Nodes of kinds whose tokens have no colon are the same exactly if their kinds are the same, as spelled, and their
      names are, as lower-casing leaves them. */
  lemma IdentityMeans(lower: Lower, m: Node, n: Node)
    ensures NodeToken(lower, m.kind) == NodeToken(lower, n.kind) && lower(m.name) == lower(n.name) ==>
              Identity(lower, m) == Identity(lower, n)
    ensures ':' !in NodeToken(lower, m.kind) && ':' !in NodeToken(lower, n.kind)
            && Identity(lower, m) == Identity(lower, n) ==>
              NodeToken(lower, m.kind) == NodeToken(lower, n.kind) && lower(m.name) == lower(n.name)
  {
    hide NodeToken;
    var k, l := NodeToken(lower, m.kind), NodeToken(lower, n.kind);
    var s, t := Identity(lower, m), Identity(lower, n);
    if ':' !in k && ':' !in l && s == t {
      assert s[|k|] == ':' && t[|l|] == ':';
      assert forall i :: 0 <= i < |k| ==> s[i] == k[i];
      assert forall i :: 0 <= i < |l| ==> t[i] == l[i];
      assert |k| == |l|;
      assert k == s[..|k|] && l == t[..|l|];
      assert lower(m.name) == s[|k| + 1..] && lower(n.name) == t[|l| + 1..];
    }
  }

  /** With colons in the tokens of kinds of one's own, different nodes can pass for the same one. */
  lemma IdentitiesMayClash(lower: Lower) returns (m: Node, n: Node)
    requires forall s :: lower(s) == s
    ensures Identity(lower, m) == Identity(lower, n)
    ensures NodeToken(lower, m.kind) != NodeToken(lower, n.kind) && lower(m.name) != lower(n.name)
  {
    m := Node(NodeId("1"), OtherNode("a"), "b:c", 0, None, None);
    n := Node(NodeId("2"), OtherNode("a:b"), "c", 0, None, None);
    assert Identity(lower, m) == "a" + ":" + "b:c" == "a:b:c" == "a:b" + ":" + "c" == Identity(lower, n);
    assert |"a"| != |"a:b"| && |"b:c"| != |"c"|;
  }

  lemma IndexedNode(lower: Lower, g: Snapshot, index: map<string, Node>, id: NodeId)
    requires Indexes(lower, g, index) && UniqueIdentities(lower, g) && id in g.nodes
    ensures var i := Identity(lower, g.nodes[id]); i in index && index[i] == g.nodes[id]
  {
    hide Identity;
    var i := Identity(lower, g.nodes[id]);
    var other :| other in g.nodes && g.nodes[other] == index[i];
  }

  /** Merging a graph with itself finds no conflict and adds nothing. */
  lemma SelfMergeIsQuiet(lower: Lower, strategy: MergeStrategy, g: Snapshot, merged: Snapshot,
                         report: MergeReport, how: How)
    requires IsMerge(lower, strategy, g, g, merged, report, how) && UniqueIdentities(lower, g)
    ensures report == MergeReport([], 0)
  {
    hide Identity, MergesEdges, MergesNodes;
    forall i | i in how.ours || i in how.theirs
      ensures i in how.ours && i in how.theirs && how.ours[i] == how.theirs[i]
    {
      IndexedIdentities(lower, g, how.ours, i);
      IndexedIdentities(lower, g, how.theirs, i);
      var id :| id in g.nodes && Identity(lower, g.nodes[id]) == i;
      IndexedNode(lower, g, how.ours, id);
      IndexedNode(lower, g, how.theirs, id);
    }
    assert how.theirs.Keys - how.ours.Keys == {};
    assert (how.ours.Keys + how.theirs.Keys) * {} == {};
    assert report.conflicts == [] || InConflict(how.ours, how.theirs, report.conflicts[0].identity);
  }

  // ---------------------------------------------------------------------------
  // The merge itself
  // ---------------------------------------------------------------------------

  method IndexNodes(lower: Lower, g: Snapshot) returns (index: map<string, Node>)
    ensures Indexes(lower, g, index)
  {
    hide Identity;
    index := map[];
    var todo := g.nodes.Keys;
    while todo != {}
      invariant todo <= g.nodes.Keys
      invariant forall id :: id in g.nodes && id !in todo ==> Identity(lower, g.nodes[id]) in index
      invariant forall i :: i in index ==> Identity(lower, index[i]) == i && index[i] in g.nodes.Values
    {
      var id :| id in todo;
      todo := todo - {id};
      index := index[Identity(lower, g.nodes[id]) := g.nodes[id]];
    }
  }

  /** Nodes only. */
  ghost predicate Bare(g: Snapshot) {
    g.adjacency.Keys <= g.nodes.Keys && forall k :: k in g.adjacency ==> g.adjacency[k] == []
  }

  /** The nodes made so far, for the identities taken out of `all`. */
  ghost predicate MadeNodes(strategy: MergeStrategy, ours: map<string, Node>, theirs: map<string, Node>,
                            merged: map<NodeId, Node>, ids: map<string, NodeId>, mint: nat -> NodeId, n: nat)
  {
    && ids.Keys <= ours.Keys + theirs.Keys
    && (forall i :: i in ids ==> ids[i] in merged && merged[ids[i]] == Resolved(strategy, ours, theirs, i, ids[i]))
    && (forall m :: m in merged ==> Made(ids, mint, n, m))
  }

  /** An id already minted, and given to some identity. */
  ghost predicate Made(ids: map<string, NodeId>, mint: nat -> NodeId, n: nat, m: NodeId) {
    (exists i :: i in ids && ids[i] == m) && exists k :: 0 <= k < n && mint(k) == m
  }

  lemma MadeGrows(ids: map<string, NodeId>, mint: nat -> NodeId, n: nat, i: string)
    requires Minted(mint) && i !in ids
    ensures !Made(ids, mint, n, mint(n)) && Made(ids[i := mint(n)], mint, n + 1, mint(n))
    ensures forall m :: Made(ids, mint, n, m) ==> Made(ids[i := mint(n)], mint, n + 1, m)
  {
    var more := ids[i := mint(n)];
    assert more[i] == mint(n);
    forall m | Made(ids, mint, n, m)
      ensures Made(more, mint, n + 1, m)
    {
      var j :| j in ids && ids[j] == m;
      assert more[j] == m;
    }
  }

  /** The report after one more identity. */
  ghost function Reported(strategy: MergeStrategy, ours: map<string, Node>, theirs: map<string, Node>,
                          i: string, report: MergeReport): MergeReport
  {
    MergeReport(report.conflicts + (if InConflict(ours, theirs, i)
                                    then [ConflictOf(strategy, i, ours[i], theirs[i])] else []),
                report.addedFromTheirs + (if i in ours then 0 else 1))
  }

  method MakeNode(lower: Lower, strategy: MergeStrategy, ours: map<string, Node>, theirs: map<string, Node>,
                  i: string, id: NodeId, merged: KnowledgeGraph, report: MergeReport)
      returns (r: MergeReport)
    requires i in ours || i in theirs
    requires id !in merged.nodes && id !in merged.adjacency
    modifies merged
    ensures merged.nodes == old(merged.nodes)[id := Resolved(strategy, ours, theirs, i, id)]
    ensures merged.adjacency == old(merged.adjacency)[id := []]
    ensures r == Reported(strategy, ours, theirs, i, report)
  {
    hide Min;
    r := report;
    var base := if i in ours then ours[i] else theirs[i];
    var chosen := base;
    if i in ours && i in theirs {
      chosen := Chosen(strategy, ours[i], theirs[i]);
      if Differ(ours[i], theirs[i]) {
        r := r.(conflicts := r.conflicts + [ConflictOf(strategy, i, ours[i], theirs[i])]);
      }
    } else if i !in ours {
      r := r.(addedFromTheirs := r.addedFromTheirs + 1);
    }
    merged.AddNode(id, base.kind, base.name, chosen.confidence);
    if chosen.date.Some? {
      merged.SetDate(id, chosen.date.value);
    }
    if chosen.provenance.Some? {
      merged.SetProvenance(id, chosen.provenance.value);
    }
  }

  lemma OrderGrows(conflicts: seq<MergeConflict>, c: MergeConflict)
    requires InIdentityOrder(conflicts)
    requires forall a :: 0 <= a < |conflicts| ==>
               conflicts[a].identity != c.identity && AtMost(conflicts[a].identity, c.identity)
    ensures InIdentityOrder(conflicts + [c])
  {
    hide AtMost;
  }

  lemma ConflictsGrow(strategy: MergeStrategy, ours: map<string, Node>, theirs: map<string, Node>,
                      within: set<string>, i: string, conflicts: seq<MergeConflict>)
    requires ListsConflicts(strategy, ours, theirs, within, conflicts) && i !in within
    requires forall w :: w in within ==> AtMost(w, i)
    ensures ListsConflicts(strategy, ours, theirs, within + {i},
                           conflicts + if InConflict(ours, theirs, i)
                                       then [ConflictOf(strategy, i, ours[i], theirs[i])] else [])
  {
    hide Chosen, Differ, AtMost, InIdentityOrder, Listed;
    if InConflict(ours, theirs, i) {
      var c := ConflictOf(strategy, i, ours[i], theirs[i]);
      OrderGrows(conflicts, c);
      ListedGrows(conflicts, c);
    } else {
      assert conflicts + [] == conflicts;
    }
  }

  lemma ReportsGrow(strategy: MergeStrategy, ours: map<string, Node>, theirs: map<string, Node>,
                    within: set<string>, i: string, report: MergeReport, report': MergeReport)
    requires Reports(strategy, ours, theirs, within, report) && i !in within && (i in ours || i in theirs)
    requires forall w :: w in within ==> AtMost(w, i)
    requires report'.conflicts == report.conflicts
      + (if InConflict(ours, theirs, i) then [ConflictOf(strategy, i, ours[i], theirs[i])] else [])
    requires report'.addedFromTheirs == report.addedFromTheirs + (if i in ours then 0 else 1)
    ensures Reports(strategy, ours, theirs, within + {i}, report')
  {
    hide ConflictOf, ListsConflicts, InConflict, AtMost;
    ConflictsGrow(strategy, ours, theirs, within, i, report.conflicts);
    OneMoreCounted(within, theirs.Keys - ours.Keys, i);
  }

  lemma OneMoreCounted(within: set<string>, only: set<string>, i: string)
    requires i !in within
    ensures |(within + {i}) * only| == |within * only| + (if i in only then 1 else 0)
  {
    assert (within + {i}) * only == within * only + (if i in only then {i} else {});
  }

  lemma MadeNodesGrow(strategy: MergeStrategy, ours: map<string, Node>, theirs: map<string, Node>,
                      merged: map<NodeId, Node>, ids: map<string, NodeId>, mint: nat -> NodeId, n: nat, i: string)
    requires MadeNodes(strategy, ours, theirs, merged, ids, mint, n) && Minted(mint)
    requires i in ours.Keys + theirs.Keys && i !in ids
    ensures mint(n) !in merged
    ensures MadeNodes(strategy, ours, theirs, merged[mint(n) := Resolved(strategy, ours, theirs, i, mint(n))],
                      ids[i := mint(n)], mint, n + 1)
  {
    hide Resolved, Made, Minted;
    MadeGrows(ids, mint, n, i);
  }

  method MergeNodes(lower: Lower, strategy: MergeStrategy, ours: map<string, Node>, theirs: map<string, Node>,
                    mint: nat -> NodeId)
      returns (merged: KnowledgeGraph, ids: map<string, NodeId>, report: MergeReport)
    requires Minted(mint)
    requires forall i :: i in ours ==> Identity(lower, ours[i]) == i
    requires forall i :: i in theirs ==> Identity(lower, theirs[i]) == i
    ensures fresh(merged) && MergesNodes(lower, strategy, ours, theirs, merged.nodes, ids)
    ensures Reports(strategy, ours, theirs, ours.Keys + theirs.Keys, report)
    ensures Bare(merged.Value())
  {
    hide Identity, Resolved, Reports, InConflict, ConflictOf, MadeNodes, Minted, Bare, SoFar, AtMost;
    merged := new KnowledgeGraph();
    ids, report := map[], MergeReport([], 0);
    var todo := ours.Keys + theirs.Keys;
    var n := 0;
    NothingYet(strategy, ours, theirs, mint);
    while todo != {}
      invariant fresh(merged) && todo !! ids.Keys && ids.Keys + todo == ours.Keys + theirs.Keys
      invariant SoFar(strategy, ours, theirs, merged.Value(), ids, report, mint, n)
      invariant forall done, i :: done in ids && i in todo ==> AtMost(done, i)
    {
      SomeLeast(todo);
      var i :| i in todo && forall other :: other in todo ==> AtMost(i, other);
      SoFarGrows(strategy, ours, theirs, merged.Value(), ids, report, mint, n, i);
      report := MakeNode(lower, strategy, ours, theirs, i, mint(n), merged, report);
      ids, todo, n := ids[i := mint(n)], todo - {i}, n + 1;
    }
    AllMade(lower, strategy, ours, theirs, merged.Value(), ids, report, mint, n);
  }

  /** Everything the loop over the identities keeps. */
  ghost predicate SoFar(strategy: MergeStrategy, ours: map<string, Node>, theirs: map<string, Node>, merged: Snapshot,
                        ids: map<string, NodeId>, report: MergeReport, mint: nat -> NodeId, n: nat)
  {
    && MadeNodes(strategy, ours, theirs, merged.nodes, ids, mint, n)
    && Reports(strategy, ours, theirs, ids.Keys, report)
    && Bare(merged)
  }

  lemma SoFarGrows(strategy: MergeStrategy, ours: map<string, Node>, theirs: map<string, Node>, merged: Snapshot,
                   ids: map<string, NodeId>, report: MergeReport, mint: nat -> NodeId, n: nat, i: string)
    requires SoFar(strategy, ours, theirs, merged, ids, report, mint, n) && Minted(mint)
    requires (i in ours || i in theirs) && i !in ids && forall w :: w in ids ==> AtMost(w, i)
    ensures mint(n) !in merged.nodes && mint(n) !in merged.adjacency
    ensures SoFar(strategy, ours, theirs,
                  Snapshot(merged.nodes[mint(n) := Resolved(strategy, ours, theirs, i, mint(n))],
                           merged.adjacency[mint(n) := []]),
                  ids[i := mint(n)], Reported(strategy, ours, theirs, i, report), mint, n + 1)
  {
    hide Resolved, Reports, MadeNodes, Minted, InConflict, ConflictOf, AtMost;
    MadeNodesGrow(strategy, ours, theirs, merged.nodes, ids, mint, n, i);
    ReportsGrow(strategy, ours, theirs, ids.Keys, i, report, Reported(strategy, ours, theirs, i, report));
    assert ids[i := mint(n)].Keys == ids.Keys + {i};
  }

  lemma NothingYet(strategy: MergeStrategy, ours: map<string, Node>, theirs: map<string, Node>, mint: nat -> NodeId)
    ensures SoFar(strategy, ours, theirs, Snapshot(map[], map[]), map[], MergeReport([], 0), mint, 0)
  {
    var none: map<string, NodeId> := map[];
    assert none.Keys * (theirs.Keys - ours.Keys) == {};
  }

  lemma AllMade(lower: Lower, strategy: MergeStrategy, ours: map<string, Node>, theirs: map<string, Node>,
                merged: Snapshot, ids: map<string, NodeId>, report: MergeReport, mint: nat -> NodeId, n: nat)
    requires SoFar(strategy, ours, theirs, merged, ids, report, mint, n) && ids.Keys == ours.Keys + theirs.Keys
    requires forall i :: i in ours ==> Identity(lower, ours[i]) == i
    requires forall i :: i in theirs ==> Identity(lower, theirs[i]) == i
    ensures MergesNodes(lower, strategy, ours, theirs, merged.nodes, ids) && Bare(merged)
    ensures Reports(strategy, ours, theirs, ours.Keys + theirs.Keys, report)
  {
    hide Identity, Resolved, Reports, Bare;
    forall m | m in merged.nodes
      ensures Identity(lower, merged.nodes[m]) in ids && ids[Identity(lower, merged.nodes[m])] == m
    {
      assert Made(ids, mint, n, m);
      var i :| i in ids && ids[i] == m;
      ResolvedIdentity(lower, strategy, ours, theirs, i, m);
    }
  }

  /** `t` comes from an edge that leaves one of `keys`. */
  ghost predicate HasTripleAmong(lower: Lower, g: Snapshot, keys: set<NodeId>, t: Triple) {
    exists k :: k in keys && k in g.adjacency && HasTripleIn(lower, g, k, |g.Edges(k)|, t)
  }

  /** `ids` gives a node of that identity for every identity of `src`. */
  ghost predicate Covers(lower: Lower, ids: map<string, NodeId>, merged: map<NodeId, Node>, src: Snapshot) {
    && (forall i :: i in ids ==> ids[i] in merged && Identity(lower, merged[ids[i]]) == i)
    && (forall n :: n in src.nodes ==> Identity(lower, src.nodes[n]) in ids)
  }

  /** One edge of a side, unless an endpoint is missing or the merge has it already. */
  method MergeEdge(lower: Lower, ids: map<string, NodeId>, src: Snapshot, e: Edge, merged: KnowledgeGraph,
                   seen: set<Triple>)
      returns (seen': set<Triple>)
    requires Covers(lower, ids, merged.nodes, src) && TriplesOnce(lower, merged.Value())
    requires forall t :: t in seen <==> HasTriple(lower, merged.Value(), t)
    modifies merged`adjacency
    ensures TriplesOnce(lower, merged.Value())
    ensures forall t :: t in seen' <==> HasTriple(lower, merged.Value(), t)
    ensures forall t :: t in seen' <==> t in seen || TripleOf(lower, src.nodes, e) == Some(t)
  {
    hide Identity, EdgeToken, HasTriple, TriplesOnce;
    seen' := seen;
    if e.from !in src.nodes || e.to !in src.nodes {
      return;
    }
    var from, to := Identity(lower, src.nodes[e.from]), Identity(lower, src.nodes[e.to]);
    var t := Triple(from, to, EdgeToken(lower, e.kind));
    if t in seen {
      return;
    }
    seen' := seen + {t};
    ghost var before, added := merged.Value(), Edge(ids[from], ids[to], e.kind);
    ConnectKeepsTriplesOnce(lower, before, added);
    forall u {
      ConnectAddsTriple(lower, before, added, u);
    }
    merged.Connect(ids[from], ids[to], e.kind);
    assert merged.Value() == Connected(before, added);
  }

  method MergeEdges(lower: Lower, ids: map<string, NodeId>, src: Snapshot, merged: KnowledgeGraph, seen: set<Triple>)
      returns (all: set<Triple>)
    requires Covers(lower, ids, merged.nodes, src) && TriplesOnce(lower, merged.Value())
    requires forall t :: t in seen <==> HasTriple(lower, merged.Value(), t)
    modifies merged`adjacency
    ensures TriplesOnce(lower, merged.Value())
    ensures forall t :: t in all <==> HasTriple(lower, merged.Value(), t)
    ensures forall t :: t in all <==> t in seen || HasTriple(lower, src, t)
  {
    hide Covers, TriplesOnce, HasTriple, HasTripleIn, HasTripleAmong;
    all := seen;
    var todo := src.adjacency.Keys;
    forall t {
      NoneAmong(lower, src, t);
    }
    assert src.adjacency.Keys - todo == {};
    while todo != {}
      invariant todo <= src.adjacency.Keys
      invariant Covers(lower, ids, merged.nodes, src) && TriplesOnce(lower, merged.Value())
      invariant forall t :: t in all <==> HasTriple(lower, merged.Value(), t)
      invariant forall t :: t in all <==> t in seen || HasTripleAmong(lower, src, src.adjacency.Keys - todo, t)
    {
      var k :| k in todo;
      ghost var before := all;
      forall t {
        MoreAmong(lower, src, src.adjacency.Keys - todo, k, t);
      }
      assert src.adjacency.Keys - (todo - {k}) == src.adjacency.Keys - todo + {k};
      all := MergeEdgesFrom(lower, ids, src, k, merged, all);
      todo := todo - {k};
    }
    assert src.adjacency.Keys - {} == src.adjacency.Keys;
    forall t {
      AllAmong(lower, src, t);
    }
  }

  lemma NoneAmong(lower: Lower, g: Snapshot, t: Triple)
    ensures !HasTripleAmong(lower, g, {}, t)
  {
  }

  lemma MoreAmong(lower: Lower, g: Snapshot, keys: set<NodeId>, k: NodeId, t: Triple)
    requires k in g.adjacency
    ensures HasTripleAmong(lower, g, keys + {k}, t)
       <==> HasTripleAmong(lower, g, keys, t) || HasTripleIn(lower, g, k, |g.Edges(k)|, t)
  {
    hide HasTripleIn;
  }

  lemma AllAmong(lower: Lower, g: Snapshot, t: Triple)
    ensures HasTripleAmong(lower, g, g.adjacency.Keys, t) <==> HasTriple(lower, g, t)
  {
    hide HasTripleIn;
  }

  /** The edges that leave one node, in order. */
  method MergeEdgesFrom(lower: Lower, ids: map<string, NodeId>, src: Snapshot, k: NodeId, merged: KnowledgeGraph,
                        seen: set<Triple>)
      returns (all: set<Triple>)
    requires Covers(lower, ids, merged.nodes, src) && TriplesOnce(lower, merged.Value())
    requires forall t :: t in seen <==> HasTriple(lower, merged.Value(), t)
    modifies merged`adjacency
    ensures TriplesOnce(lower, merged.Value())
    ensures forall t :: t in all <==> HasTriple(lower, merged.Value(), t)
    ensures forall t :: t in all <==> t in seen || HasTripleIn(lower, src, k, |src.Edges(k)|, t)
  {
    hide Covers, TriplesOnce, HasTriple, HasTripleIn, TripleOf;
    all := seen;
    var edges := src.Edges(k);
    forall t {
      NoneIn(lower, src, k, t);
    }
    for i := 0 to |edges|
      invariant Covers(lower, ids, merged.nodes, src) && TriplesOnce(lower, merged.Value())
      invariant forall t :: t in all <==> HasTriple(lower, merged.Value(), t)
      invariant forall t :: t in all <==> t in seen || HasTripleIn(lower, src, k, i, t)
    {
      forall t {
        MoreIn(lower, src, k, i, t);
      }
      all := MergeEdge(lower, ids, src, edges[i], merged, all);
    }
  }

  lemma NoneIn(lower: Lower, g: Snapshot, k: NodeId, t: Triple)
    ensures !HasTripleIn(lower, g, k, 0, t)
  {
  }

  lemma MoreIn(lower: Lower, g: Snapshot, k: NodeId, n: nat, t: Triple)
    requires n < |g.Edges(k)|
    ensures HasTripleIn(lower, g, k, n + 1, t)
       <==> HasTripleIn(lower, g, k, n, t) || TripleOf(lower, g.nodes, g.Edges(k)[n]) == Some(t)
  {
    hide TripleOf;
  }

  // ---------------------------------------------------------------------------
  // The repository
  // ---------------------------------------------------------------------------

  datatype Version = Version(parent: Option<nat>, graph: Snapshot)

  /** A chain of versions: the first has no parent, every other a parent made before it. */
  ghost predicate IsHistory(versions: seq<Version>) {
    && versions != [] && versions[0].parent.None?
    && forall i :: 0 < i < |versions| ==> versions[i].parent.Some? && versions[i].parent.value < i
  }

  /** A version and its ancestors, newest first. */
  ghost function Ancestry(versions: seq<Version>, id: nat): seq<nat>
    requires IsHistory(versions) && id < |versions|
    decreases id
  {
    [id] + if versions[id].parent.None? then [] else Ancestry(versions, versions[id].parent.value)
  }

  ghost function AncestryFrom(versions: seq<Version>, id: Option<nat>): seq<nat>
    requires IsHistory(versions) && (id.Some? ==> id.value < |versions|)
  {
    if id.Some? then Ancestry(versions, id.value) else []
  }

  lemma AncestryNext(versions: seq<Version>, id: nat)
    requires IsHistory(versions) && id < |versions|
    ensures versions[id].parent.Some? ==> versions[id].parent.value < id
    ensures Ancestry(versions, id) == [id] + AncestryFrom(versions, versions[id].parent)
  {
  }

  /** The log goes strictly down, and ends at the first version. */
  lemma {:induction false} AncestryDescends(versions: seq<Version>, id: nat)
    requires IsHistory(versions) && id < |versions|
    ensures var a := Ancestry(versions, id);
            && a != [] && a[0] == id && a[|a| - 1] == 0
            && (forall i, j :: 0 <= i < j < |a| ==> a[j] < a[i])
            && (forall i, j :: 0 <= i && j == i + 1 && j < |a| ==>
                  a[i] < |versions| && versions[a[i]].parent == Some(a[j]))
    decreases id
  {
    if versions[id].parent.Some? {
      AncestryDescends(versions, versions[id].parent.value);
    }
  }

  /** Commits never rewrite: what a version's log was, it stays. */
  lemma {:induction false} AncestryIsStable(versions: seq<Version>, more: seq<Version>, id: nat)
    requires IsHistory(versions) && IsHistory(versions + more) && id < |versions|
    ensures Ancestry(versions + more, id) == Ancestry(versions, id)
    decreases id
  {
    assert (versions + more)[id] == versions[id];
    if versions[id].parent.Some? {
      AncestryIsStable(versions, more, versions[id].parent.value);
    }
  }

  class GraphRepo {
    const lower: Lower
    var versions: seq<Version>
    var branches: map<string, nat>
    var current: string

    ghost predicate Valid()
      reads this
    {
      && IsHistory(versions) && current in branches
      && forall b :: b in branches ==> branches[b] < |versions|
    }

    constructor (lower: Lower)
      ensures Valid() && this.lower == lower
      ensures versions == [Version(None, Snapshot(map[], map[]))] && branches == map["main" := 0] && current == "main"
    {
      this.lower := lower;
      versions, branches, current := [Version(None, Snapshot(map[], map[]))], map["main" := 0], "main";
    }

    function Head(): nat
      requires Valid()
      reads this
    {
      branches[current]
    }

    method Commit(graph: KnowledgeGraph) returns (id: nat)
      requires Valid()
      modifies this`versions, this`branches
      ensures Valid() && id == |old(versions)| && Head() == id
      ensures versions == old(versions) + [Version(Some(old(Head())), graph.Value())]
      ensures branches == old(branches)[current := id]
    {
      id := |versions|;
      versions := versions + [Version(Some(Head()), graph.Value())];
      branches := branches[current := id];
    }

    method Branch(name: string)
      requires Valid()
      modifies this`branches
      ensures Valid() && branches == old(branches)[name := old(Head())] && Head() == old(Head())
    {
      branches := branches[name := Head()];
    }

    method Checkout(name: string) returns (known: bool)
      requires Valid()
      modifies this`current
      ensures Valid() && known == (name in branches)
      ensures current == if known then name else old(current)
    {
      known := name in branches;
      if known {
        current := name;
      }
    }

    method Log() returns (log: seq<nat>)
      requires Valid()
      ensures log == Ancestry(versions, Head())
    {
      hide Ancestry;
      log := [];
      var cur: Option<nat> := Some(Head());
      assert [] + AncestryFrom(versions, cur) == Ancestry(versions, Head());
      while cur.Some?
        invariant cur.Some? ==> cur.value < |versions|
        invariant Ancestry(versions, Head()) == log + AncestryFrom(versions, cur)
        decreases if cur.Some? then cur.value + 1 else 0
      {
        var id := cur.value;
        AncestryNext(versions, id);
        cur := versions[id].parent;
        assert log + ([id] + AncestryFrom(versions, cur)) == (log + [id]) + AncestryFrom(versions, cur);
        log := log + [id];
      }
    }

    /** Commits the merge of another branch into the current one; nothing else changes. */
    method Merge(other: string, strategy: MergeStrategy, mint: nat -> NodeId)
        returns (report: Option<MergeReport>, ghost how: How)
      requires Valid() && Minted(mint)
      modifies this`versions, this`branches
      ensures Valid() && (report.None? <==> other !in old(branches))
      ensures report.None? ==> versions == old(versions) && branches == old(branches)
      ensures report.Some? ==>
                && |versions| == |old(versions)| + 1 && versions[..|old(versions)|] == old(versions)
                && versions[|old(versions)|].parent == Some(old(Head()))
                && branches == old(branches)[current := |old(versions)|]
                && IsMerge(lower, strategy, old(versions)[old(Head())].graph, old(versions)[old(branches)[other]].graph,
                           versions[|old(versions)|].graph, report.value, how)
    {
      hide Identity, Resolved, Reports, Indexes, MergesNodes, Minted;
      how := How(map[], map[], map[]);
      if other !in branches {
        return None, how;
      }
      var ours, theirs := versions[Head()].graph, versions[branches[other]].graph;
      var merged, r;
      merged, r, how := MergeGraphs(lower, strategy, ours, theirs, mint);
      var id := Commit(merged);
      return Some(r), how;
    }
  }

  method MergeGraphs(lower: Lower, strategy: MergeStrategy, ours: Snapshot, theirs: Snapshot, mint: nat -> NodeId)
      returns (merged: KnowledgeGraph, report: MergeReport, ghost how: How)
    requires Minted(mint)
    ensures fresh(merged) && IsMerge(lower, strategy, ours, theirs, merged.Value(), report, how)
  {
    hide Identity, Resolved, Reports, HasTriple, TriplesOnce;
    var ourNodes := IndexNodes(lower, ours);
    var theirNodes := IndexNodes(lower, theirs);
    var ids;
    merged, ids, report := MergeNodes(lower, strategy, ourNodes, theirNodes, mint);
    how := How(ourNodes, theirNodes, ids);
    forall i | i in ids
      ensures Identity(lower, merged.nodes[ids[i]]) == i
    {
      ResolvedIdentity(lower, strategy, ourNodes, theirNodes, i, ids[i]);
    }
    NoEdgesYet(lower, merged.Value());
    var seen := MergeEdges(lower, ids, ours, merged, {});
    seen := MergeEdges(lower, ids, theirs, merged, seen);
  }

  lemma NoEdgesYet(lower: Lower, g: Snapshot)
    requires Bare(g)
    ensures TriplesOnce(lower, g) && forall t :: !HasTriple(lower, g, t)
  {
  }
}
