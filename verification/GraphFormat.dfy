/** The text file that holds a graph (graph/src/store.rs): what loading a saved graph gives back. */
module GraphFormat {
  import opened Results
  import opened Sequences
  import opened Ordering
  import opened Text
  import opened LineText
  import opened Graph

  const HEADER := "# CKOS knowledge graph v1"
  const TAB := '\t'

  // ---------------------------------------------------------------------------
  // Fields
  // ---------------------------------------------------------------------------

  function Blanked(c: char): char {
    if c == '\t' || c == '\n' || c == '\r' then ' ' else c
  }

  /** Tabs and line ends become blanks, so that a value stays in one field. */
  function Sanitize(s: string): (r: string)
    ensures |r| == |s| && '\t' !in r && '\n' !in r && '\r' !in r
  {
    seq(|s|, i requires 0 <= i < |s| => Blanked(s[i]))
  }

  /** Every other character stays where it is, and those are blanks. */
  lemma SanitizedAt(s: string, i: nat)
    requires i < |s|
    ensures Sanitize(s)[i] == if s[i] in "\t\n\r" then ' ' else s[i]
  {
  }

  /** No tabs and no line ends. */
  ghost predicate IsField(s: string) {
    '\t' !in s && '\n' !in s && '\r' !in s
  }

  lemma FieldStays(s: string)
    ensures Sanitize(s) == s <==> IsField(s)
  {
  }

  function TextOr(s: Option<string>): string {
    if s.Some? then s.value else ""
  }

  function NonEmpty(s: string): Option<string> {
    if s == "" then None else Some(s)
  }

  // ---------------------------------------------------------------------------
  // Saving
  // ---------------------------------------------------------------------------

  function NodeFields(lower: Lower, n: Node): seq<string> {
    ["N", Sanitize(n.id.raw), Sanitize(NodeToken(lower, n.kind)), Decimal(n.confidence),
     Sanitize(TextOr(n.date)), Sanitize(TextOr(n.provenance)), Sanitize(n.name)]
  }

  function EdgeFields(lower: Lower, e: Edge): seq<string> {
    ["E", Sanitize(e.from.raw), Sanitize(e.to.raw), Sanitize(EdgeToken(lower, e.kind))]
  }

  function NodeLine(lower: Lower, n: Node): string {
    Separated(NodeFields(lower, n), TAB)
  }

  function EdgeLine(lower: Lower, e: Edge): string {
    Separated(EdgeFields(lower, e), TAB)
  }

  ghost function SavedLines(lower: Lower, nodes: seq<Node>, edges: seq<Edge>): seq<string> {
    [HEADER] + seq(|nodes|, i requires 0 <= i < |nodes| => NodeLine(lower, nodes[i]))
    + seq(|edges|, i requires 0 <= i < |edges| => EdgeLine(lower, edges[i]))
  }

  /** The file: a header, a line for each node, a line for each edge. */
  ghost function Saved(lower: Lower, nodes: seq<Node>, edges: seq<Edge>): string {
    Terminated(SavedLines(lower, nodes, edges))
  }

  // ---------------------------------------------------------------------------
  // Loading
  // ---------------------------------------------------------------------------

  /** What has been read: the nodes with their empty edge lists, and the edges to connect at the end. */
  datatype Reading = Reading(graph: Snapshot, edges: seq<Edge>)

  function Inserted(g: Snapshot, n: Node): Snapshot {
    Snapshot(g.nodes[n.id := n], g.adjacency[n.id := g.Edges(n.id)])
  }

  function ReadNode(lower: Lower, fields: seq<string>): Node
    requires |fields| >= 7
  {
    var confidence := ParseUnsigned(fields[3], 255);
    Node(NodeId(fields[1]), NodeKindOf(lower, fields[2]), Separated(fields[6..], TAB),
         Min(if confidence.Some? then confidence.value else 0, 100), NonEmpty(fields[4]), NonEmpty(fields[5]))
  }

  function ReadEdge(lower: Lower, fields: seq<string>): Edge
    requires |fields| >= 4
  {
    Edge(NodeId(fields[1]), NodeId(fields[2]), EdgeKindOf(lower, fields[3]))
  }

  /** One line taken in; comments, blank and unknown lines change nothing. */
  function ReadLine(lower: Lower, r: Reading, line: string): Reading {
    if line == "" || line[0] == '#' then r
    else
      var fields := Pieces(line, TAB);
      if fields[0] == "N" && |fields| >= 7 then r.(graph := Inserted(r.graph, ReadNode(lower, fields)))
      else if fields[0] == "E" && |fields| >= 4 then r.(edges := r.edges + [ReadEdge(lower, fields)])
      else r
  }

  function ReadLines(lower: Lower, lines: seq<string>): Reading {
    if lines == [] then Reading(Snapshot(map[], map[]), [])
    else ReadLine(lower, ReadLines(lower, lines[..|lines| - 1]), lines[|lines| - 1])
  }

  function ConnectAll(g: Snapshot, edges: seq<Edge>): Snapshot {
    if edges == [] then g else Connected(ConnectAll(g, edges[..|edges| - 1]), edges[|edges| - 1])
  }

  function Loaded(lower: Lower, content: string): Snapshot {
    var r := ReadLines(lower, Lines(content));
    ConnectAll(r.graph, r.edges)
  }

  /** Comments, blank lines, and lines that are neither a node's nor an edge's say nothing. */
  lemma OtherLinesSayNothing(lower: Lower, r: Reading, line: string)
    requires var fields := Pieces(line, TAB);
             || line == "" || line[0] == '#' || fields[0] !in {"N", "E"}
             || (fields[0] == "N" && |fields| < 7) || (fields[0] == "E" && |fields| < 4)
    ensures ReadLine(lower, r, line) == r
  {
    hide ReadNode, ReadEdge;
  }

  // ---------------------------------------------------------------------------
  // What a graph becomes
  // ---------------------------------------------------------------------------

  function NodeNorm(lower: Lower, n: Node): Node {
    Node(NodeId(Sanitize(n.id.raw)), NodeKindOf(lower, Sanitize(NodeToken(lower, n.kind))), Sanitize(n.name),
         Min(n.confidence, 100), NonEmpty(Sanitize(TextOr(n.date))), NonEmpty(Sanitize(TextOr(n.provenance))))
  }

  function EdgeNorm(lower: Lower, e: Edge): Edge {
    Edge(NodeId(Sanitize(e.from.raw)), NodeId(Sanitize(e.to.raw)),
         EdgeKindOf(lower, Sanitize(EdgeToken(lower, e.kind))))
  }

  /** What fits into fields is kept as it is: kinds with names, confidences up to 100, dates and provenances that
      are not empty. */
  lemma FieldsAreKept(lower: Lower, n: Node, e: Edge)
    requires lower(NodeToken(lower, n.kind)) == NodeToken(lower, n.kind) && !n.kind.OtherNode?
    requires lower(EdgeToken(lower, e.kind)) == EdgeToken(lower, e.kind) && !e.kind.OtherEdge?
    requires IsField(n.id.raw) && IsField(n.name) && n.confidence <= 100
    requires n.date.Some? ==> IsField(n.date.value) && n.date.value != ""
    requires n.provenance.Some? ==> IsField(n.provenance.value) && n.provenance.value != ""
    requires IsField(e.from.raw) && IsField(e.to.raw)
    ensures NodeNorm(lower, n) == n && EdgeNorm(lower, e) == e
  {
    NamedKindsComeBack(lower, n.kind, e.kind);
    NodeNamesAreFields(lower, n.kind);
    EdgeNamesAreFields(lower, e.kind);
    hide NodeToken, EdgeToken, NodeKindOf, EdgeKindOf;
    FieldStays(n.id.raw);
    FieldStays(n.name);
    FieldStays(TextOr(n.date));
    FieldStays(TextOr(n.provenance));
    FieldStays(NodeToken(lower, n.kind));
    FieldStays(EdgeToken(lower, e.kind));
    FieldStays(e.from.raw);
    FieldStays(e.to.raw);
    hide Sanitize, IsField;
  }

  lemma NodeNamesAreFields(lower: Lower, n: NodeKind)
    ensures !n.OtherNode? ==> IsField(NodeToken(lower, n))
  {
  }

  lemma EdgeNamesAreFields(lower: Lower, e: EdgeKind)
    ensures !e.OtherEdge? ==> IsField(EdgeToken(lower, e))
  {
  }

  lemma TokensNotEmpty(lower: Lower, n: Node)
    requires n.confidence <= 255
    ensures var f := NodeFields(lower, n); forall i :: 0 <= i < |f| ==> IsField(f[i])
  {
    var d := Decimal(n.confidence);
    assert forall i :: 0 <= i < |d| ==> IsDigit(d[i]);
  }

  /** A line of fields has no line end in it, and is not empty when it starts with something. */
  lemma {:induction false} SeparatedIsOneLine(fields: seq<string>)
    requires forall i :: 0 <= i < |fields| ==> IsField(fields[i])
    ensures '\n' !in Separated(fields, TAB) && '\r' !in Separated(fields, TAB)
    ensures fields != [] && fields[0] != "" ==>
              Separated(fields, TAB) != "" && Separated(fields, TAB)[0] == fields[0][0]
  {
    if |fields| > 1 {
      SeparatedIsOneLine(fields[1..]);
    }
  }

  lemma NodeLineRead(lower: Lower, n: Node, r: Reading)
    requires n.confidence <= 255
    ensures Clean(NodeLine(lower, n))
    ensures ReadLine(lower, r, NodeLine(lower, n)) == r.(graph := Inserted(r.graph, NodeNorm(lower, n)))
  {
    hide Sanitize, NodeToken, NodeKindOf, Pieces, ParseUnsigned, Decimal;
    var f := NodeFields(lower, n);
    TokensNotEmpty(lower, n);
    SeparatedIsOneLine(f);
    PiecesOfSeparated(f, TAB);
    ParsePrinted(n.confidence, 255);
    assert f[6..] == [Sanitize(n.name)];
  }

  lemma EdgeLineRead(lower: Lower, e: Edge, r: Reading)
    ensures Clean(EdgeLine(lower, e))
    ensures ReadLine(lower, r, EdgeLine(lower, e)) == r.(edges := r.edges + [EdgeNorm(lower, e)])
  {
    hide Sanitize, EdgeToken, EdgeKindOf, Pieces;
    var f := EdgeFields(lower, e);
    SeparatedIsOneLine(f);
    PiecesOfSeparated(f, TAB);
  }

  // ---------------------------------------------------------------------------
  // Loading what was saved
  // ---------------------------------------------------------------------------

  ghost function NodeNorms(lower: Lower, nodes: seq<Node>): (r: seq<Node>)
    ensures |r| == |nodes| && forall i :: 0 <= i < |r| ==> r[i] == NodeNorm(lower, nodes[i])
  {
    seq(|nodes|, i requires 0 <= i < |nodes| => NodeNorm(lower, nodes[i]))
  }

  ghost function EdgeNorms(lower: Lower, edges: seq<Edge>): (r: seq<Edge>)
    ensures |r| == |edges| && forall i :: 0 <= i < |r| ==> r[i] == EdgeNorm(lower, edges[i])
  {
    seq(|edges|, i requires 0 <= i < |edges| => EdgeNorm(lower, edges[i]))
  }

  ghost function InsertAll(nodes: seq<Node>): Snapshot {
    if nodes == [] then Snapshot(map[], map[]) else Inserted(InsertAll(nodes[..|nodes| - 1]), nodes[|nodes| - 1])
  }

  ghost predicate BytesOk(nodes: seq<Node>) {
    forall i :: 0 <= i < |nodes| ==> nodes[i].confidence <= 255
  }

  lemma SavedEdgeSnoc(lower: Lower, nodes: seq<Node>, edges: seq<Edge>, e: Edge)
    ensures SavedLines(lower, nodes, edges + [e]) == SavedLines(lower, nodes, edges) + [EdgeLine(lower, e)]
  {
    hide EdgeLine, NodeLine;
  }

  lemma SavedNodeSnoc(lower: Lower, nodes: seq<Node>, n: Node)
    ensures SavedLines(lower, nodes + [n], []) == SavedLines(lower, nodes, []) + [NodeLine(lower, n)]
  {
    hide EdgeLine, NodeLine;
  }

  lemma ReadSnoc(lower: Lower, lines: seq<string>, line: string)
    ensures ReadLines(lower, lines + [line]) == ReadLine(lower, ReadLines(lower, lines), line)
  {
    hide ReadLine;
    assert (lines + [line])[..|lines|] == lines;
  }

  lemma {:induction false} NodesRead(lower: Lower, nodes: seq<Node>)
    requires BytesOk(nodes)
    ensures ReadLines(lower, SavedLines(lower, nodes, [])) == Reading(InsertAll(NodeNorms(lower, nodes)), [])
    ensures forall i :: 0 <= i < |SavedLines(lower, nodes, [])| ==> Clean(SavedLines(lower, nodes, [])[i])
  {
    hide ReadLines, ReadLine, SavedLines, NodeLine, NodeNorm, NodeNorms, Inserted, Clean;
    if nodes == [] {
      HeaderRead(lower);
    } else {
      var front, last := nodes[..|nodes| - 1], nodes[|nodes| - 1];
      NodesRead(lower, front);
      SavedNodeSnoc(lower, front, last);
      assert nodes == front + [last];
      ReadSnoc(lower, SavedLines(lower, front, []), NodeLine(lower, last));
      NodeLineRead(lower, last, Reading(InsertAll(NodeNorms(lower, front)), []));
      assert NodeNorms(lower, nodes)[..|nodes| - 1] == NodeNorms(lower, front);
      assert NodeNorms(lower, nodes)[|nodes| - 1] == NodeNorm(lower, last);
    }
  }

  lemma HeaderRead(lower: Lower)
    ensures SavedLines(lower, [], []) == [HEADER] && Clean(HEADER) && NodeNorms(lower, []) == []
    ensures ReadLines(lower, [HEADER]) == Reading(Snapshot(map[], map[]), [])
  {
    assert [HEADER][..0] == [];
  }

  lemma {:induction false} EdgesRead(lower: Lower, nodes: seq<Node>, edges: seq<Edge>)
    requires BytesOk(nodes)
    ensures ReadLines(lower, SavedLines(lower, nodes, edges))
         == Reading(InsertAll(NodeNorms(lower, nodes)), EdgeNorms(lower, edges))
    ensures forall i :: 0 <= i < |SavedLines(lower, nodes, edges)| ==> Clean(SavedLines(lower, nodes, edges)[i])
  {
    hide ReadLines, ReadLine, SavedLines, EdgeLine, EdgeNorm, Clean, InsertAll;
    if edges == [] {
      NodesRead(lower, nodes);
    } else {
      var front, last := edges[..|edges| - 1], edges[|edges| - 1];
      EdgesRead(lower, nodes, front);
      SavedEdgeSnoc(lower, nodes, front, last);
      assert edges == front + [last];
      ReadSnoc(lower, SavedLines(lower, nodes, front), EdgeLine(lower, last));
      EdgeLineRead(lower, last, Reading(InsertAll(NodeNorms(lower, nodes)), EdgeNorms(lower, front)));
      assert EdgeNorms(lower, front) + [EdgeNorm(lower, last)] == EdgeNorms(lower, edges);
    }
  }

  /** Loading what was saved: the nodes and then the edges, each in the form the text gives them. */
  lemma LoadOfSave(lower: Lower, nodes: seq<Node>, edges: seq<Edge>)
    requires BytesOk(nodes)
    ensures Loaded(lower, Saved(lower, nodes, edges))
         == ConnectAll(InsertAll(NodeNorms(lower, nodes)), EdgeNorms(lower, edges))
  {
    hide ReadLines, SavedLines, InsertAll, ConnectAll, Clean;
    EdgesRead(lower, nodes, edges);
    LinesOfTerminated(SavedLines(lower, nodes, edges));
  }

  // ---------------------------------------------------------------------------
  // Graphs
  // ---------------------------------------------------------------------------

  /** Nodes and edges stand under their own ids; a confidence is a byte. */
  ghost predicate Keyed(g: Snapshot) {
    && (forall id :: id in g.nodes ==> g.nodes[id].id == id && g.nodes[id].confidence <= 255)
    && (forall k, e :: e in g.Edges(k) ==> e.from == k)
  }

  /** An id as the text keeps it. */
  function TidyId(id: NodeId): NodeId {
    NodeId(Sanitize(id.raw))
  }

  ghost function FromNode(edges: seq<Edge>, k: NodeId): seq<Edge> {
    if edges == [] then []
    else FromNode(edges[..|edges| - 1], k) + if edges[|edges| - 1].from == k then [edges[|edges| - 1]] else []
  }

  /** The nodes and edges of a graph, in any order, every edge as often as the graph has it. */
  ghost predicate ListsAll(g: Snapshot, nodes: seq<Node>, edges: seq<Edge>) {
    (forall n :: n in nodes <==> n.id in g.nodes && g.nodes[n.id] == n) && ListsEdges(g, edges)
  }

  ghost predicate ListsEdges(g: Snapshot, edges: seq<Edge>) {
    forall k :: multiset(FromNode(edges, k)) == multiset(g.Edges(k))
  }

  /** Under every id as the text keeps it, one of the nodes with that id, and from it all edges of such nodes, in some
      order; all as the text keeps them, and nothing else. */
  ghost predicate IsStoredForm(lower: Lower, g: Snapshot, h: Snapshot) {
    NodesKept(lower, g, h.nodes) && EdgesKept(lower, g, h)
  }

  ghost predicate NodesKept(lower: Lower, g: Snapshot, stored: map<NodeId, Node>) {
    && (forall id :: id in g.nodes ==> TidyId(id) in stored)
    && (forall t :: t in stored ==>
          exists id :: id in g.nodes && TidyId(id) == t && stored[t] == NodeNorm(lower, g.nodes[id]))
  }

  ghost predicate EdgesKept(lower: Lower, g: Snapshot, h: Snapshot) {
    exists edges :: ListsEdges(g, edges) && forall k :: h.Edges(k) == FromNode(EdgeNorms(lower, edges), k)
  }

  /** No two nodes, and no two nodes with edges, have ids that become one. */
  ghost predicate Apart(g: Snapshot) {
    && (forall a, b :: a in g.nodes && b in g.nodes && TidyId(a) == TidyId(b) ==> a == b)
    && (forall a, b :: g.Edges(a) != [] && g.Edges(b) != [] && TidyId(a) == TidyId(b) ==> a == b)
  }

  /** Every node with all its edges is there as the text keeps it. */
  ghost predicate HoldsAll(lower: Lower, g: Snapshot, h: Snapshot) {
    && (forall id :: id in g.nodes ==> TidyId(id) in h.nodes && h.nodes[TidyId(id)] == NodeNorm(lower, g.nodes[id]))
    && (forall k :: g.Edges(k) != [] ==>
          multiset(h.Edges(TidyId(k))) == multiset(EdgeNorms(lower, g.Edges(k))))
  }

  lemma {:induction false} InsertedNodes(nodes: seq<Node>)
    ensures forall n :: n in nodes ==> n.id in InsertAll(nodes).nodes
    ensures forall id :: id in InsertAll(nodes).nodes ==>
              InsertAll(nodes).nodes[id] in nodes && InsertAll(nodes).nodes[id].id == id
  {
    if nodes != [] {
      var front, last := nodes[..|nodes| - 1], nodes[|nodes| - 1];
      InsertedNodes(front);
      assert nodes == front + [last];
      assert InsertAll(nodes) == Inserted(InsertAll(front), last);
      hide InsertAll;
    }
  }

  lemma {:induction false} InsertedWithoutEdges(nodes: seq<Node>, k: NodeId)
    ensures InsertAll(nodes).Edges(k) == []
  {
    if nodes != [] {
      var front, last := nodes[..|nodes| - 1], nodes[|nodes| - 1];
      InsertedWithoutEdges(front, k);
      InsertedWithoutEdges(front, last.id);
    }
  }

  lemma {:induction false} ConnectedEdges(g: Snapshot, edges: seq<Edge>, k: NodeId)
    ensures ConnectAll(g, edges).Edges(k) == g.Edges(k) + FromNode(edges, k)
    ensures ConnectAll(g, edges).nodes == g.nodes
  {
    if edges != [] {
      ConnectedEdges(g, edges[..|edges| - 1], k);
    }
  }

  lemma {:induction false} NormsOfNode(lower: Lower, edges: seq<Edge>, k: NodeId)
    requires forall i :: 0 <= i < |edges| && TidyId(edges[i].from) == TidyId(k) ==> edges[i].from == k
    ensures FromNode(EdgeNorms(lower, edges), TidyId(k)) == EdgeNorms(lower, FromNode(edges, k))
  {
    hide EdgeToken, EdgeKindOf, Sanitize;
    if edges != [] {
      var front, last := edges[..|edges| - 1], edges[|edges| - 1];
      NormsOfNode(lower, front, k);
      assert EdgeNorms(lower, edges)[..|edges| - 1] == EdgeNorms(lower, front);
      assert EdgeNorm(lower, last).from == TidyId(last.from);
    }
  }

  lemma NormsConcat(lower: Lower, a: seq<Edge>, b: seq<Edge>)
    ensures EdgeNorms(lower, a + b) == EdgeNorms(lower, a) + EdgeNorms(lower, b)
  {
    hide EdgeNorm;
  }

  /** Taking one edge out of a list takes its stored form out of the stored forms. */
  lemma NormsWithout(lower: Lower, b: seq<Edge>, i: nat)
    requires i < |b|
    ensures multiset(b) == multiset(b[..i] + b[i + 1..]) + multiset{b[i]}
    ensures multiset(EdgeNorms(lower, b))
         == multiset(EdgeNorms(lower, b[..i] + b[i + 1..])) + multiset{EdgeNorm(lower, b[i])}
  {
    hide EdgeNorm;
    var x, y := b[..i], b[i + 1..];
    BagWithout(b, i);
    assert b == x + ([b[i]] + y);
    NormsConcat(lower, x, [b[i]] + y);
    NormsConcat(lower, [b[i]], y);
    NormsConcat(lower, x, y);
    assert EdgeNorms(lower, [b[i]]) == [EdgeNorm(lower, b[i])];
  }

  /** Equal bags of edges have equal bags of stored forms. */
  lemma {:induction false} NormsOfBag(lower: Lower, a: seq<Edge>, b: seq<Edge>)
    requires multiset(a) == multiset(b)
    ensures multiset(EdgeNorms(lower, a)) == multiset(EdgeNorms(lower, b))
  {
    hide EdgeNorm, EdgeNorms;
    if a == [] {
      assert |multiset(b)| == 0;
      assert b == [];
    } else {
      var n := |a| - 1;
      assert a[n] in multiset(b);
      var i :| 0 <= i < |b| && b[i] == a[n];
      NormsWithout(lower, a, n);
      NormsWithout(lower, b, i);
      assert a[..n] + a[n + 1..] == a[..n];
      assert multiset(a[..n]) == multiset(a) - multiset{a[n]};
      assert multiset(b[..i] + b[i + 1..]) == multiset(b) - multiset{b[i]};
      NormsOfBag(lower, a[..n], b[..i] + b[i + 1..]);
    }
  }

  /** Saving a graph and loading it again gives its stored form, in whatever order nodes and edges are written; and if
      no two ids become one, all of the graph is in it. */
  lemma StoredFormComesBack(lower: Lower, g: Snapshot, nodes: seq<Node>, edges: seq<Edge>)
    requires Keyed(g) && ListsAll(g, nodes, edges)
    ensures IsStoredForm(lower, g, Loaded(lower, Saved(lower, nodes, edges)))
    ensures Apart(g) ==> HoldsAll(lower, g, Loaded(lower, Saved(lower, nodes, edges)))
  {
    LoadedTables(lower, g, nodes, edges);
    NodesStored(lower, g, nodes, edges);
    hide Loaded, Saved, NodesKept, Apart, HoldsAll, Keyed, NodeNorms, EdgeNorms, ListsEdges, InsertAll, FromNode;
    if Apart(g) {
      AllIsStored(lower, g, Loaded(lower, Saved(lower, nodes, edges)));
    }
  }

  lemma LoadedTables(lower: Lower, g: Snapshot, nodes: seq<Node>, edges: seq<Edge>)
    requires Keyed(g) && ListsAll(g, nodes, edges)
    ensures var h := Loaded(lower, Saved(lower, nodes, edges));
            && h.nodes == InsertAll(NodeNorms(lower, nodes)).nodes
            && forall k :: h.Edges(k) == FromNode(EdgeNorms(lower, edges), k)
  {
    ListedBytes(g, nodes, edges);
    LoadOfSave(lower, nodes, edges);
    hide Loaded, Saved, NodeNorms, EdgeNorms, InsertAll, ConnectAll, FromNode;
    var start := InsertAll(NodeNorms(lower, nodes));
    ConnectedEdges(start, EdgeNorms(lower, edges), NodeId(""));
    forall k
      ensures start.Edges(k) == [] && [] + FromNode(EdgeNorms(lower, edges), k) == FromNode(EdgeNorms(lower, edges), k)
      ensures ConnectAll(start, EdgeNorms(lower, edges)).Edges(k)
           == start.Edges(k) + FromNode(EdgeNorms(lower, edges), k)
    {
      InsertedWithoutEdges(NodeNorms(lower, nodes), k);
      ConnectedEdges(start, EdgeNorms(lower, edges), k);
    }
  }

  /** If no two ids become one, a stored form has all of the graph. */
  lemma AllIsStored(lower: Lower, g: Snapshot, h: Snapshot)
    requires Keyed(g) && IsStoredForm(lower, g, h) && Apart(g)
    ensures HoldsAll(lower, g, h)
  {
    hide NodeNorm, EdgeNorm, TidyId, EdgeNorms, FromNode;
    assert EdgesKept(lower, g, h);
    var edges :| ListsEdges(g, edges) && forall k :: h.Edges(k) == FromNode(EdgeNorms(lower, edges), k);
    forall k | g.Edges(k) != []
      ensures multiset(h.Edges(TidyId(k))) == multiset(EdgeNorms(lower, g.Edges(k)))
    {
      EdgesStored(lower, g, edges, k);
    }
  }

  lemma ListedBytes(g: Snapshot, nodes: seq<Node>, edges: seq<Edge>)
    requires Keyed(g) && ListsAll(g, nodes, edges)
    ensures BytesOk(nodes)
  {
  }

  lemma NodesStored(lower: Lower, g: Snapshot, nodes: seq<Node>, edges: seq<Edge>)
    requires Keyed(g) && ListsAll(g, nodes, edges)
    ensures NodesKept(lower, g, InsertAll(NodeNorms(lower, nodes)).nodes)
  {
    var norms := NodeNorms(lower, nodes);
    InsertedNodes(norms);
    hide NodeNorm, NodeNorms, TidyId, InsertAll, ListsEdges;
    var stored := InsertAll(norms).nodes;
    forall id | id in g.nodes
      ensures TidyId(id) in stored
    {
      var i :| 0 <= i < |nodes| && nodes[i] == g.nodes[id];
      NormTidiesId(lower, nodes[i]);
      assert norms[i] in norms;
    }
    forall t | t in stored
      ensures exists id :: id in g.nodes && TidyId(id) == t && stored[t] == NodeNorm(lower, g.nodes[id])
    {
      var i :| 0 <= i < |norms| && norms[i] == stored[t];
      NormTidiesId(lower, nodes[i]);
      assert nodes[i] in nodes;
    }
  }

  lemma {:induction false} InFromNode(edges: seq<Edge>, i: nat)
    requires i < |edges|
    ensures edges[i] in FromNode(edges, edges[i].from)
    decreases |edges|
  {
    if i < |edges| - 1 {
      InFromNode(edges[..|edges| - 1], i);
    }
  }

  lemma EdgesStored(lower: Lower, g: Snapshot, edges: seq<Edge>, k: NodeId)
    requires Apart(g) && ListsEdges(g, edges) && g.Edges(k) != []
    ensures multiset(FromNode(EdgeNorms(lower, edges), TidyId(k))) == multiset(EdgeNorms(lower, g.Edges(k)))
  {
    hide EdgeNorms, FromNode, TidyId;
    forall i | 0 <= i < |edges| && TidyId(edges[i].from) == TidyId(k)
      ensures edges[i].from == k
    {
      InFromNode(edges, i);
      assert edges[i] in multiset(FromNode(edges, edges[i].from));
      assert g.Edges(edges[i].from) != [];
    }
    NormsOfNode(lower, edges, k);
    NormsOfBag(lower, FromNode(edges, k), g.Edges(k));
  }

  // ---------------------------------------------------------------------------
  // One text for one graph
  // ---------------------------------------------------------------------------

  /** Nodes by id, each once. */
  ghost predicate Ascending(nodes: seq<Node>) {
    forall i, j :: 0 <= i < j < |nodes| ==> AtMost(nodes[i].id.raw, nodes[j].id.raw) && nodes[i].id != nodes[j].id
  }

  /** Edges are compared by where they start, then by where they end, then by kind. */
  predicate EdgeAtMost(lower: Lower, x: Edge, y: Edge) {
    if x.from != y.from then AtMost(x.from.raw, y.from.raw)
    else if x.to != y.to then AtMost(x.to.raw, y.to.raw)
    else AtMost(EdgeToken(lower, x.kind), EdgeToken(lower, y.kind))
  }

  ghost predicate InOrder(lower: Lower, nodes: seq<Node>, edges: seq<Edge>) {
    Ascending(nodes) && Sorted(EdgeOrder(lower), edges)
  }

  /** Listed in order, edges go by where they start, those of one start by where they end, and those of one pair by
      kind. */
  lemma ListedByEnds(lower: Lower, nodes: seq<Node>, edges: seq<Edge>, i: nat, j: nat)
    requires InOrder(lower, nodes, edges) && i < j < |edges|
    ensures var (x, y) := (edges[i], edges[j]);
            && AtMost(x.from.raw, y.from.raw) && (x.from == y.from ==> AtMost(x.to.raw, y.to.raw))
            && (x.from == y.from && x.to == y.to ==> AtMost(EdgeToken(lower, x.kind), EdgeToken(lower, y.kind)))
  {
    hide EdgeToken, AtMost;
    assert EdgeOrder(lower)(edges[i], edges[j]);
    AtMostTotal(edges[i].from.raw, edges[i].from.raw);
    AtMostTotal(edges[i].to.raw, edges[i].to.raw);
  }

  function EdgeOrder(lower: Lower): Order<Edge> {
    (x, y) => EdgeAtMost(lower, x, y)
  }

  lemma EdgesAreOrdered(lower: Lower)
    ensures TotalPreorder(EdgeOrder(lower))
  {
    hide EdgeAtMost;
    forall x, y
      ensures EdgeAtMost(lower, x, y) || EdgeAtMost(lower, y, x)
    {
      EdgeOrderTotal(lower, x, y);
    }
    forall x, y, z | EdgeAtMost(lower, x, y) && EdgeAtMost(lower, y, z)
      ensures EdgeAtMost(lower, x, z)
    {
      EdgeOrderTransitive(lower, x, y, z);
    }
  }

  lemma EdgeOrderTotal(lower: Lower, x: Edge, y: Edge)
    ensures EdgeAtMost(lower, x, y) || EdgeAtMost(lower, y, x)
  {
    hide AtMost, EdgeToken;
    AtMostTotal(x.from.raw, y.from.raw);
    AtMostTotal(x.to.raw, y.to.raw);
    AtMostTotal(EdgeToken(lower, x.kind), EdgeToken(lower, y.kind));
  }

  lemma EdgeOrderTransitive(lower: Lower, x: Edge, y: Edge, z: Edge)
    requires EdgeAtMost(lower, x, y) && EdgeAtMost(lower, y, z)
    ensures EdgeAtMost(lower, x, z)
  {
    hide AtMost, EdgeToken;
    if x.from != y.from && y.from != z.from {
      AtMostTransitive(x.from.raw, y.from.raw, z.from.raw);
      if x.from == z.from {
        AtMostAntisymmetric(x.from.raw, y.from.raw);
      }
    } else if x.from == y.from == z.from && x.to != y.to && y.to != z.to {
      AtMostTransitive(x.to.raw, y.to.raw, z.to.raw);
      if x.to == z.to {
        AtMostAntisymmetric(x.to.raw, y.to.raw);
      }
    } else if x.from == y.from == z.from && x.to == y.to == z.to {
      AtMostTransitive(EdgeToken(lower, x.kind), EdgeToken(lower, y.kind), EdgeToken(lower, z.kind));
    }
  }

  /** Edges that the order does not tell apart are written the same. */
  lemma TiedEdgesSameLine(lower: Lower, x: Edge, y: Edge)
    requires Tied(EdgeOrder(lower), x, y)
    ensures EdgeLine(lower, x) == EdgeLine(lower, y)
  {
    hide AtMost, EdgeToken, Separated, Sanitize;
    if x.from != y.from {
      AtMostAntisymmetric(x.from.raw, y.from.raw);
    } else if x.to != y.to {
      AtMostAntisymmetric(x.to.raw, y.to.raw);
    } else {
      AtMostAntisymmetric(EdgeToken(lower, x.kind), EdgeToken(lower, y.kind));
    }
  }

  lemma {:induction false} FromNodeCounts(edges: seq<Edge>, k: NodeId, e: Edge)
    ensures multiset(FromNode(edges, k))[e] == if e.from == k then multiset(edges)[e] else 0
  {
    if edges != [] {
      var front, last := edges[..|edges| - 1], edges[|edges| - 1];
      FromNodeCounts(front, k, e);
      assert edges == front + [last];
    }
  }

  lemma SameBagFromNode(a: seq<Edge>, b: seq<Edge>)
    requires multiset(a) == multiset(b)
    ensures forall k :: multiset(FromNode(a, k)) == multiset(FromNode(b, k))
  {
    forall k
      ensures multiset(FromNode(a, k)) == multiset(FromNode(b, k))
    {
      forall e
        ensures multiset(FromNode(a, k))[e] == multiset(FromNode(b, k))[e]
      {
        FromNodeCounts(a, k, e);
        FromNodeCounts(b, k, e);
      }
    }
  }

  lemma ListedBags(g: Snapshot, nodes1: seq<Node>, edges1: seq<Edge>, nodes2: seq<Node>, edges2: seq<Edge>)
    requires ListsAll(g, nodes1, edges1) && ListsAll(g, nodes2, edges2)
    ensures multiset(edges1) == multiset(edges2)
  {
    hide FromNode;
    forall e
      ensures multiset(edges1)[e] == multiset(edges2)[e]
    {
      FromNodeCounts(edges1, e.from, e);
      FromNodeCounts(edges2, e.from, e);
      assert multiset(FromNode(edges1, e.from)) == multiset(g.Edges(e.from));
      assert multiset(FromNode(edges2, e.from)) == multiset(g.Edges(e.from));
    }
  }

  lemma EmptyOrInhabited(nodes: seq<Node>)
    ensures nodes == [] || exists n :: n in nodes
  {
    if nodes != [] {
      assert nodes[0] in nodes;
    }
  }

  lemma WithoutLast(nodes: seq<Node>)
    requires Ascending(nodes) && nodes != []
    ensures var n := |nodes| - 1;
            Ascending(nodes[..n]) && forall x :: x in nodes[..n] <==> x in nodes && x != nodes[n]
  {
    hide AtMost;
    var n := |nodes| - 1;
    assert nodes == nodes[..n] + [nodes[n]];
  }

  lemma SameLast(a: seq<Node>, b: seq<Node>)
    requires Ascending(a) && Ascending(b) && forall n :: n in a <==> n in b
    requires a != [] && b != []
    ensures a[|a| - 1] == b[|b| - 1]
  {
    hide AtMost;
    var m, n := |a| - 1, |b| - 1;
    assert a[m] in b && b[n] in a;
    var i :| 0 <= i < |b| && b[i] == a[m];
    var j :| 0 <= j < |a| && a[j] == b[n];
    if i < n && j < m {
      AtMostAntisymmetric(a[m].id.raw, b[n].id.raw);
      assert false;
    }
  }

  /** There is one way to list nodes by id. */
  lemma {:induction false} NodesAgree(a: seq<Node>, b: seq<Node>)
    requires Ascending(a) && Ascending(b) && forall n :: n in a <==> n in b
    ensures a == b
  {
    hide Ascending;
    EmptyOrInhabited(a);
    EmptyOrInhabited(b);
    if a != [] {
      var m, n := |a| - 1, |b| - 1;
      SameLast(a, b);
      WithoutLast(a);
      WithoutLast(b);
      NodesAgree(a[..m], b[..n]);
      assert a == a[..m] + [a[m]] && b == b[..n] + [b[n]];
    }
  }

  /** The file is byte-stable: the text depends on the graph alone, not on the order in which tables are walked. */
  lemma SavedTextIsStable(lower: Lower, g: Snapshot, nodes1: seq<Node>, edges1: seq<Edge>,
                          nodes2: seq<Node>, edges2: seq<Edge>)
    requires ListsAll(g, nodes1, edges1) && InOrder(lower, nodes1, edges1)
    requires ListsAll(g, nodes2, edges2) && InOrder(lower, nodes2, edges2)
    ensures Saved(lower, nodes1, edges1) == Saved(lower, nodes2, edges2)
  {
    hide Ascending, EdgeToken, Terminated, NodeLine, EdgeLine, FromNode, Sorted, Tied, EdgeOrder;
    NodesAgree(nodes1, nodes2);
    ListedBags(g, nodes1, edges1, nodes2, edges2);
    EdgesAreOrdered(lower);
    SortedAgree(EdgeOrder(lower), edges1, edges2);
    forall j | 0 <= j < |edges1|
      ensures EdgeLine(lower, edges1[j]) == EdgeLine(lower, edges2[j])
    {
      TiedEdgesSameLine(lower, edges1[j], edges2[j]);
    }
    assert SavedLines(lower, nodes1, edges1) == SavedLines(lower, nodes2, edges2);
  }

  /** The nodes with the given ids, in order. */
  lemma {:induction false} SomeNodes(g: Snapshot, todo: set<NodeId>) returns (nodes: seq<Node>)
    requires Keyed(g) && todo <= g.nodes.Keys
    ensures forall n :: n in nodes <==> n.id in todo && g.nodes[n.id] == n
    ensures Ascending(nodes)
  {
    hide AtMost, Ascending;
    if todo == {} {
      nodes := [];
      NoNodesAscend();
    } else {
      LeastId(todo);
      var id :| id in todo && forall other :: other in todo ==> AtMost(id.raw, other.raw);
      var rest := SomeNodes(g, todo - {id});
      AscendingCons(g.nodes[id], rest);
      nodes := [g.nodes[id]] + rest;
    }
  }

  lemma AscendingCons(n: Node, nodes: seq<Node>)
    requires Ascending(nodes) && forall m :: m in nodes ==> AtMost(n.id.raw, m.id.raw) && m.id != n.id
    ensures Ascending([n] + nodes)
  {
    hide AtMost;
  }

  lemma {:induction false} SomeEdges(g: Snapshot, todo: set<NodeId>) returns (edges: seq<Edge>)
    requires Keyed(g) && todo <= g.adjacency.Keys
    ensures forall k :: FromNode(edges, k) == if k in todo then g.Edges(k) else []
  {
    hide FromNode, Keyed;
    if todo == {} {
      edges := [];
      NoneCollected();
    } else {
      var k :| k in todo;
      var rest := SomeEdges(g, todo - {k});
      NodeCollected(g, rest, k);
      edges := rest + g.adjacency[k];
    }
  }

  /** Every graph can be listed in order. */
  lemma SomeListing(lower: Lower, g: Snapshot) returns (nodes: seq<Node>, edges: seq<Edge>)
    requires Keyed(g)
    ensures ListsAll(g, nodes, edges) && InOrder(lower, nodes, edges)
  {
    hide Ascending, Sorted, EdgeOrder, FromNode;
    nodes := SomeNodes(g, g.nodes.Keys);
    var found := SomeEdges(g, g.adjacency.Keys);
    EdgesAreOrdered(lower);
    edges := SortBy(EdgeOrder(lower), found);
    SameBagFromNode(edges, found);
  }

  /** The text a graph is saved as. */
  ghost function TextOf(lower: Lower, g: Snapshot): string
    requires Keyed(g)
  {
    assert exists nodes, edges :: ListsAll(g, nodes, edges) && InOrder(lower, nodes, edges) by {
      var nodes, edges := SomeListing(lower, g);
    }
    var nodes, edges :| ListsAll(g, nodes, edges) && InOrder(lower, nodes, edges);
    Saved(lower, nodes, edges)
  }

  /** A graph as loading finds it after saving. */
  ghost function Stored(lower: Lower, g: Snapshot): Snapshot
    requires Keyed(g)
  {
    Loaded(lower, TextOf(lower, g))
  }

  lemma StoredIsStoredForm(lower: Lower, g: Snapshot)
    requires Keyed(g)
    ensures IsStoredForm(lower, g, Stored(lower, g))
    ensures Apart(g) ==> HoldsAll(lower, g, Stored(lower, g))
  {
    hide IsStoredForm, Saved, Loaded, ListsAll, InOrder, TextOf, Apart, HoldsAll;
    var nodes, edges := SomeListing(lower, g);
    TextIsAnyListing(lower, g, nodes, edges);
    StoredFormComesBack(lower, g, nodes, edges);
  }

  // ---------------------------------------------------------------------------
  // Ids that do not fit into a field
  // ---------------------------------------------------------------------------

  /** For any ids: no node is lost in saving and loading exactly if no two ids become one. */
  lemma {:induction false} NoNodeIsLostExactly(lower: Lower, g: Snapshot, nodes: seq<Node>, edges: seq<Edge>)
    requires Keyed(g) && ListsAll(g, nodes, edges) && InOrder(lower, nodes, edges)
    ensures |Loaded(lower, Saved(lower, nodes, edges)).nodes| == |g.nodes| <==>
            forall a, b :: a in g.nodes && b in g.nodes && TidyId(a) == TidyId(b) ==> a == b
  {
    hide TidyId, Loaded, Saved, ListsAll, InOrder, Keyed, NoDup, Elems;
    var ids := seq(|nodes|, i requires 0 <= i < |nodes| => nodes[i].id);
    var tidied := seq(|nodes|, i requires 0 <= i < |nodes| => TidyId(nodes[i].id));
    ListedIds(lower, g, nodes, edges, ids);
    LoadedIds(lower, g, nodes, edges, tidied);
    RepeatShrinks(tidied);
    if NoDup(tidied) {
      ElemsCardinality(tidied);
    }
    TidiedOnce(g, ids, tidied);
  }

  lemma ListedIds(lower: Lower, g: Snapshot, nodes: seq<Node>, edges: seq<Edge>, ids: seq<NodeId>)
    requires Keyed(g) && ListsAll(g, nodes, edges) && InOrder(lower, nodes, edges)
    requires |ids| == |nodes| && forall i :: 0 <= i < |ids| ==> ids[i] == nodes[i].id
    ensures NoDup(ids) && |ids| == |g.nodes| && Elems(ids) == g.nodes.Keys
  {
    hide Keyed, FromNode, Ascending, Sorted, NoDup, Elems;
    IdsListed(g, nodes, ids);
  }

  lemma {:induction false} LoadedIds(lower: Lower, g: Snapshot, nodes: seq<Node>, edges: seq<Edge>, tidied: seq<NodeId>)
    requires Keyed(g) && ListsAll(g, nodes, edges)
    requires |tidied| == |nodes| && forall i :: 0 <= i < |tidied| ==> tidied[i] == TidyId(nodes[i].id)
    ensures |Loaded(lower, Saved(lower, nodes, edges)).nodes| == |Elems(tidied)|
  {
    hide NodeNorm, TidyId, Loaded, Saved, ListsAll, Keyed, InsertAll, Elems;
    var norms := NodeNorms(lower, nodes);
    ListedBytes(g, nodes, edges);
    LoadOfSave(lower, nodes, edges);
    ConnectedEdges(InsertAll(norms), EdgeNorms(lower, edges), NodeId(""));
    forall i | 0 <= i < |nodes|
      ensures norms[i].id == tidied[i]
    {
      NormTidiesId(lower, nodes[i]);
    }
    TidiedListed(norms, tidied);
    assert |InsertAll(norms).nodes| == |InsertAll(norms).nodes.Keys|;
  }

  lemma NormTidiesId(lower: Lower, n: Node)
    ensures NodeNorm(lower, n).id == TidyId(n.id)
  {
  }

  lemma IdsListed(g: Snapshot, nodes: seq<Node>, ids: seq<NodeId>)
    requires Keyed(g) && Ascending(nodes) && forall n :: n in nodes <==> n.id in g.nodes && g.nodes[n.id] == n
    requires |ids| == |nodes| && forall i :: 0 <= i < |ids| ==> ids[i] == nodes[i].id
    ensures NoDup(ids) && |ids| == |g.nodes.Keys| && Elems(ids) == g.nodes.Keys
  {
    hide AtMost;
    assert forall i :: 0 <= i < |nodes| ==> nodes[i] in nodes;
    forall id | id in g.nodes
      ensures id in Elems(ids)
    {
      var i :| 0 <= i < |nodes| && nodes[i] == g.nodes[id];
      assert ids[i] == id;
    }
    assert Elems(ids) == g.nodes.Keys;
    ElemsCardinality(ids);
  }

  lemma {:induction false} TidiedListed(norms: seq<Node>, tidied: seq<NodeId>)
    requires |norms| == |tidied| && forall i :: 0 <= i < |norms| ==> norms[i].id == tidied[i]
    ensures InsertAll(norms).nodes.Keys == Elems(tidied)
  {
    hide InsertAll;
    InsertedNodes(norms);
    var stored := InsertAll(norms).nodes;
    assert forall i :: 0 <= i < |norms| ==> norms[i] in norms && norms[i].id in stored;
    forall id | id in stored
      ensures id in Elems(tidied)
    {
      assert stored[id] in norms;
      var i :| 0 <= i < |norms| && norms[i] == stored[id];
    }
  }

  lemma TidiedOnce(g: Snapshot, ids: seq<NodeId>, tidied: seq<NodeId>)
    requires |ids| == |tidied| && NoDup(ids) && Elems(ids) == g.nodes.Keys
    requires forall i :: 0 <= i < |ids| ==> tidied[i] == TidyId(ids[i])
    ensures NoDup(tidied) <==>
            forall a, b :: a in g.nodes && b in g.nodes && TidyId(a) == TidyId(b) ==> a == b
  {
    hide TidyId;
    assert forall i :: 0 <= i < |ids| ==> ids[i] in Elems(ids);
    forall a, b | a in g.nodes && b in g.nodes && TidyId(a) == TidyId(b) && NoDup(tidied)
      ensures a == b
    {
      assert a in Elems(ids) && b in Elems(ids);
      var i :| 0 <= i < |ids| && ids[i] == a;
      var j :| 0 <= j < |ids| && ids[j] == b;
    }
  }

  // ---------------------------------------------------------------------------
  // Saving again
  // ---------------------------------------------------------------------------

  /** Lower-casing twice is lower-casing once, and makes no tabs or line ends. */
  ghost predicate Settles(lower: Lower) {
    forall s {:trigger lower(s)} :: lower(lower(s)) == lower(s) && (IsField(s) ==> IsField(lower(s)))
  }

  lemma NodeTokenOfWord(lower: Lower, w: string)
    requires lower(w) == w
    ensures NodeToken(lower, NodeKindOf(lower, w)) == w
  {
  }

  lemma EdgeTokenOfWord(lower: Lower, w: string)
    requires lower(w) == w
    ensures EdgeToken(lower, EdgeKindOf(lower, w)) == w
  {
  }

  lemma KindsSettle(lower: Lower, token: string)
    requires Settles(lower) && IsField(token)
    ensures var w := lower(token);
            && NodeKindOf(lower, token) == NodeKindOf(lower, w) && EdgeKindOf(lower, token) == EdgeKindOf(lower, w)
            && Sanitize(w) == w && lower(w) == w
  {
    FieldStays(lower(token));
    hide Sanitize;
  }

  /** The stored form is final: a node or an edge that was stored once is stored again as it is. */
  lemma StoredFormIsFinal(lower: Lower, n: Node, e: Edge)
    requires Settles(lower)
    ensures NodeNorm(lower, NodeNorm(lower, n)) == NodeNorm(lower, n)
    ensures EdgeNorm(lower, EdgeNorm(lower, e)) == EdgeNorm(lower, e)
  {
    hide Sanitize, NodeToken, NodeKindOf, EdgeToken, EdgeKindOf, Settles, IsField;
    var nt, et := Sanitize(NodeToken(lower, n.kind)), Sanitize(EdgeToken(lower, e.kind));
    SanitizedIsField(NodeToken(lower, n.kind));
    SanitizedIsField(EdgeToken(lower, e.kind));
    KindsSettle(lower, nt);
    KindsSettle(lower, et);
    NodeTokenOfWord(lower, lower(nt));
    EdgeTokenOfWord(lower, lower(et));
    SanitizedIsField(n.id.raw);
    SanitizedIsField(n.name);
    SanitizedIsField(TextOr(n.date));
    SanitizedIsField(TextOr(n.provenance));
    SanitizedIsField(e.from.raw);
    SanitizedIsField(e.to.raw);
  }

  lemma SanitizedIsField(s: string)
    ensures IsField(Sanitize(s)) && Sanitize(Sanitize(s)) == Sanitize(s) && |Sanitize(s)| == |s|
  {
    FieldStays(Sanitize(s));
  }

  // ---------------------------------------------------------------------------
  // The loops
  // ---------------------------------------------------------------------------

  method CollectEdges(g: Snapshot) returns (edges: seq<Edge>)
    requires Keyed(g)
    ensures forall k :: FromNode(edges, k) == g.Edges(k)
  {
    hide FromNode, Keyed;
    NoneCollected();
    edges := [];
    var todo := g.adjacency.Keys;
    while todo != {}
      invariant todo <= g.adjacency.Keys
      invariant forall k :: FromNode(edges, k) == if k in todo then [] else g.Edges(k)
    {
      var k :| k in todo;
      NodeCollected(g, edges, k);
      edges, todo := edges + g.adjacency[k], todo - {k};
    }
  }

  lemma NoneCollected()
    ensures forall k :: FromNode([], k) == []
  {
  }

  lemma NodeCollected(g: Snapshot, edges: seq<Edge>, k: NodeId)
    requires Keyed(g) && k in g.adjacency
    ensures forall l :: FromNode(edges + g.adjacency[k], l) == FromNode(edges, l) + if l == k then g.Edges(k) else []
  {
    hide FromNode;
    var own := g.adjacency[k];
    assert forall i :: 0 <= i < |own| ==> own[i] in g.Edges(k);
    forall l
      ensures FromNode(edges + own, l) == FromNode(edges, l) + if l == k then own else []
    {
      FromNodeOwn(edges, own, k, l);
    }
  }

  lemma {:induction false} FromNodeOwn(edges: seq<Edge>, own: seq<Edge>, k: NodeId, l: NodeId)
    requires forall i :: 0 <= i < |own| ==> own[i].from == k
    ensures FromNode(edges + own, l) == FromNode(edges, l) + if l == k then own else []
  {
    hide FromNode;
    if own == [] {
      assert edges + own == edges && FromNode(edges, l) + [] == FromNode(edges, l);
    } else {
      var front, last := own[..|own| - 1], own[|own| - 1];
      FromNodeOwn(edges, front, k, l);
      FromNodeSnoc(edges + front, last, l);
      assert own == front + [last] && edges + own == edges + front + [last];
    }
  }

  lemma FromNodeSnoc(edges: seq<Edge>, e: Edge, l: NodeId)
    ensures FromNode(edges + [e], l) == FromNode(edges, l) + if e.from == l then [e] else []
  {
    assert (edges + [e])[..|edges|] == edges;
  }

  /** The header and the nodes, in the order of their ids. */
  method SaveNodes(lower: Lower, graph: KnowledgeGraph) returns (text: string, ghost nodes: seq<Node>)
    requires Keyed(graph.Value())
    ensures text == Terminated(SavedLines(lower, nodes, []))
    ensures forall n :: n in nodes <==> n.id in graph.nodes && graph.nodes[n.id] == n
    ensures Ascending(nodes)
  {
    hide SavedLines, NodeLine, Terminated, AtMost, Ascending;
    nodes := [];
    HeaderWritten(lower);
    NoNodesAscend();
    text := HEADER + "\n";
    var todo := graph.nodes.Keys;
    while todo != {}
      invariant todo <= graph.nodes.Keys && text == Terminated(SavedLines(lower, nodes, []))
      invariant forall n :: n in nodes <==> n.id in graph.nodes && graph.nodes[n.id] == n && n.id !in todo
      invariant Ascending(nodes) && forall n, id :: n in nodes && id in todo ==> AtMost(n.id.raw, id.raw)
    {
      LeastId(todo);
      var id :| id in todo && forall other :: other in todo ==> AtMost(id.raw, other.raw);
      var line := NodeLine(lower, graph.nodes[id]);
      SavedNodeSnoc(lower, nodes, graph.nodes[id]);
      TerminatedSnoc(SavedLines(lower, nodes, []), line);
      AscendingSnoc(nodes, graph.nodes[id]);
      text, nodes, todo := text + line + "\n", nodes + [graph.nodes[id]], todo - {id};
    }
  }

  lemma NoNodesAscend()
    ensures Ascending([])
  {
  }

  lemma LeastId(todo: set<NodeId>)
    requires todo != {}
    ensures exists id :: id in todo && forall other :: other in todo ==> AtMost(id.raw, other.raw)
  {
    hide AtMost;
    var raws := set id | id in todo :: id.raw;
    var x :| x in todo;
    assert x.raw in raws;
    SomeLeast(raws);
    var least :| least in raws && forall y :: y in raws ==> AtMost(least, y);
    assert NodeId(least) in todo;
    forall other | other in todo
      ensures AtMost(NodeId(least).raw, other.raw)
    {
      assert other.raw in raws;
    }
  }

  lemma AscendingSnoc(nodes: seq<Node>, n: Node)
    requires Ascending(nodes) && forall m :: m in nodes ==> AtMost(m.id.raw, n.id.raw) && m.id != n.id
    ensures Ascending(nodes + [n])
  {
    hide AtMost;
  }

  /** The nodes by id, then the edges by ends and kind: the text that is written. */
  method Save(lower: Lower, graph: KnowledgeGraph)
    returns (text: string, ghost nodes: seq<Node>, ghost edges: seq<Edge>)
    requires Keyed(graph.Value())
    ensures ListsAll(graph.Value(), nodes, edges) && InOrder(lower, nodes, edges)
    ensures text == Saved(lower, nodes, edges) == TextOf(lower, graph.Value())
  {
    hide SavedLines, EdgeLine, Terminated, FromNode, Ascending, Sorted, EdgeOrder, TextOf;
    var found := CollectEdges(graph.Value());
    EdgesAreOrdered(lower);
    var all := SortBy(EdgeOrder(lower), found);
    SameBagFromNode(all, found);
    text, nodes := SaveNodes(lower, graph);
    assert all[..0] == [];
    for i := 0 to |all|
      invariant text == Terminated(SavedLines(lower, nodes, all[..i]))
    {
      var line := EdgeLine(lower, all[i]);
      TakeSnoc(all, i);
      SavedEdgeSnoc(lower, nodes, all[..i], all[i]);
      TerminatedSnoc(SavedLines(lower, nodes, all[..i]), line);
      text := text + line + "\n";
    }
    assert all[..|all|] == all;
    edges := all;
    TextIsAnyListing(lower, graph.Value(), nodes, edges);
  }

  lemma TextIsAnyListing(lower: Lower, g: Snapshot, nodes: seq<Node>, edges: seq<Edge>)
    requires Keyed(g) && ListsAll(g, nodes, edges) && InOrder(lower, nodes, edges)
    ensures TextOf(lower, g) == Saved(lower, nodes, edges)
  {
    hide ListsAll, InOrder, Saved;
    var n, e :| ListsAll(g, n, e) && InOrder(lower, n, e) && TextOf(lower, g) == Saved(lower, n, e);
    SavedTextIsStable(lower, g, n, e, nodes, edges);
  }

  lemma HeaderWritten(lower: Lower)
    ensures Terminated(SavedLines(lower, [], [])) == HEADER + "\n"
  {
    HeaderRead(lower);
    NothingTerminated();
    TerminatedSnoc([], HEADER);
    assert [] + [HEADER] == [HEADER];
  }

  /** Reads line by line, and connects the edges when all nodes are there. */
  method Load(lower: Lower, content: string) returns (graph: KnowledgeGraph)
    ensures fresh(graph) && graph.Value() == Loaded(lower, content)
  {
    hide ReadNode, ReadEdge, Lines, Pieces, ReadLine;
    graph := new KnowledgeGraph();
    var lines := Lines(content);
    var edges: seq<Edge> := [];
    for i := 0 to |lines|
      invariant fresh(graph) && ReadLines(lower, lines[..i]) == Reading(graph.Value(), edges)
    {
      assert lines[..i + 1] == lines[..i] + [lines[i]];
      ReadSnoc(lower, lines[..i], lines[i]);
      edges := TakeLine(lower, graph, edges, lines[i]);
    }
    assert lines[..|lines|] == lines;
    ghost var read := graph.Value();
    for i := 0 to |edges|
      invariant fresh(graph) && graph.Value() == ConnectAll(read, edges[..i])
    {
      assert edges[..i + 1][..i] == edges[..i];
      graph.Connect(edges[i].from, edges[i].to, edges[i].kind);
    }
    assert edges[..|edges|] == edges;
  }

  method TakeLine(lower: Lower, graph: KnowledgeGraph, edges: seq<Edge>, line: string) returns (edges': seq<Edge>)
    modifies graph
    ensures Reading(graph.Value(), edges') == ReadLine(lower, Reading(old(graph.Value()), edges), line)
  {
    hide ReadNode, ReadEdge, Pieces;
    edges' := edges;
    if line == "" || line[0] == '#' {
      return;
    }
    var fields := Pieces(line, TAB);
    if fields[0] == "N" && |fields| >= 7 {
      graph.Insert(ReadNode(lower, fields));
    } else if fields[0] == "E" && |fields| >= 4 {
      edges' := edges + [ReadEdge(lower, fields)];
    }
  }
}
