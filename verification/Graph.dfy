/** The in-memory knowledge graph (graph/src/lib.rs). */
module Graph {
  import opened Results

  datatype NodeId = NodeId(raw: string)

  datatype NodeKind = Concept | Document | Person | Organization | Tool | Api | Project | OtherNode(token: string)

  datatype EdgeKind = DependsOn | Implements | References | CreatedBy | RelatedTo | OtherEdge(token: string)

  /** Lower-casing of text; which characters it changes is not part of the model. */
  type Lower = string -> string

  function NodeToken(lower: Lower, kind: NodeKind): string {
    match kind
    case Concept => "concept"
    case Document => "document"
    case Person => "person"
    case Organization => "organization"
    case Tool => "tool"
    case Api => "api"
    case Project => "project"
    case OtherNode(token) => lower(token)
  }

  function EdgeToken(lower: Lower, kind: EdgeKind): string {
    match kind
    case DependsOn => "depends_on"
    case Implements => "implements"
    case References => "references"
    case CreatedBy => "created_by"
    case RelatedTo => "related_to"
    case OtherEdge(token) => lower(token)
  }

  function NodeKindOf(lower: Lower, token: string): NodeKind {
    match lower(token)
    case "concept" => Concept
    case "document" => Document
    case "person" => Person
    case "organization" => Organization
    case "tool" => Tool
    case "api" => Api
    case "project" => Project
    case other => OtherNode(other)
  }

  function EdgeKindOf(lower: Lower, token: string): EdgeKind {
    match lower(token)
    case "depends_on" => DependsOn
    case "implements" => Implements
    case "references" => References
    case "created_by" => CreatedBy
    case "related_to" => RelatedTo
    case other => OtherEdge(other)
  }

  datatype Node = Node(
    id: NodeId, kind: NodeKind, name: string, confidence: nat, date: Option<string>, provenance: Option<string>)

  datatype Edge = Edge(from: NodeId, to: NodeId, kind: EdgeKind)

  /** Named kinds come back from their tokens, whatever lower-casing does to other text. */
  lemma NamedKindsComeBack(lower: Lower, n: NodeKind, e: EdgeKind)
    requires lower(NodeToken(lower, n)) == NodeToken(lower, n) && lower(EdgeToken(lower, e)) == EdgeToken(lower, e)
    ensures !n.OtherNode? ==> NodeKindOf(lower, NodeToken(lower, n)) == n
    ensures !e.OtherEdge? ==> EdgeKindOf(lower, EdgeToken(lower, e)) == e
  {
  }

  /** A graph as a value: a snapshot of the two tables. Edges may point at nodes that are not there. */
  datatype Snapshot = Snapshot(nodes: map<NodeId, Node>, adjacency: map<NodeId, seq<Edge>>) {
    function Edges(id: NodeId): seq<Edge> {
      if id in adjacency then adjacency[id] else []
    }
  }

  /** A graph with one more edge; neither end has to exist. */
  function Connected(g: Snapshot, e: Edge): Snapshot {
    g.(adjacency := g.adjacency[e.from := g.Edges(e.from) + [e]])
  }

  /** Ids as they are minted: never the same one twice. */
  ghost predicate Minted(mint: nat -> NodeId) {
    forall a, b :: a != b ==> mint(a) != mint(b)
  }

  function Min(a: nat, b: nat): (r: nat)
    ensures r <= a && r <= b && (r == a || r == b)
  {
    if a < b then a else b
  }

  function Max(a: nat, b: nat): (r: nat)
    ensures a <= r && b <= r && (r == a || r == b)
  {
    if a > b then a else b
  }

  class KnowledgeGraph {
    var nodes: map<NodeId, Node>
    var adjacency: map<NodeId, seq<Edge>>

    function Value(): Snapshot
      reads this
    {
      Snapshot(nodes, adjacency)
    }

    constructor ()
      ensures Value() == Snapshot(map[], map[])
    {
      nodes, adjacency := map[], map[];
    }

    /** Inserts or replaces a node under its own id; its outgoing edges, if any, stay. */
    method Insert(node: Node)
      modifies this
      ensures nodes == old(nodes)[node.id := node]
      ensures adjacency == old(adjacency)[node.id := old(Value()).Edges(node.id)]
    {
      if node.id !in adjacency {
        adjacency := adjacency[node.id := []];
      }
      nodes := nodes[node.id := node];
    }

    /** Adds a node under a newly minted id. */
    method AddNode(id: NodeId, kind: NodeKind, name: string, confidence: nat)
      modifies this
      ensures nodes == old(nodes)[id := Node(id, kind, name, Min(confidence, 100), None, None)]
      ensures adjacency == old(adjacency)[id := old(Value()).Edges(id)]
    {
      nodes := nodes[id := Node(id, kind, name, Min(confidence, 100), None, None)];
      if id !in adjacency {
        adjacency := adjacency[id := []];
      }
    }

    /** Raises a node's confidence to at least `floor`, never above 100 and never downwards. */
    method BumpConfidence(id: NodeId, floor: nat)
      modifies this`nodes
      ensures id !in old(nodes) ==> nodes == old(nodes)
      ensures id in old(nodes) ==>
                nodes == old(nodes)[id :=
                  old(nodes)[id].(confidence := Max(old(nodes)[id].confidence, Min(floor, 100)))]
    {
      if id in nodes {
        nodes := nodes[id := nodes[id].(confidence := Max(nodes[id].confidence, Min(floor, 100)))];
      }
    }

    method SetProvenance(id: NodeId, source: string)
      modifies this`nodes
      ensures id !in old(nodes) ==> nodes == old(nodes)
      ensures id in old(nodes) ==> nodes == old(nodes)[id := old(nodes)[id].(provenance := Some(source))]
    {
      if id in nodes {
        nodes := nodes[id := nodes[id].(provenance := Some(source))];
      }
    }

    method SetDate(id: NodeId, date: string)
      modifies this`nodes
      ensures id !in old(nodes) ==> nodes == old(nodes)
      ensures id in old(nodes) ==> nodes == old(nodes)[id := old(nodes)[id].(date := Some(date))]
    {
      if id in nodes {
        nodes := nodes[id := nodes[id].(date := Some(date))];
      }
    }

    /** Appends an edge; neither endpoint has to exist. */
    method Connect(from: NodeId, to: NodeId, kind: EdgeKind)
      modifies this`adjacency
      ensures adjacency == old(adjacency)[from := old(Value()).Edges(from) + [Edge(from, to, kind)]]
    {
      adjacency := adjacency[from := (if from in adjacency then adjacency[from] else []) + [Edge(from, to, kind)]];
    }

    /** Removes a node with every edge that leaves or enters it. */
    method RemoveNode(id: NodeId) returns (existed: bool)
      modifies this
      ensures existed == (id in old(nodes)) && nodes == old(nodes) - {id}
      ensures adjacency.Keys == old(adjacency).Keys - {id}
      ensures forall k :: k in adjacency ==> adjacency[k] == Avoiding(old(adjacency)[k], id)
    {
      existed := id in nodes;
      nodes, adjacency := nodes - {id}, adjacency - {id};
      var todo := adjacency.Keys;
      while todo != {}
        invariant todo <= adjacency.Keys == old(adjacency).Keys - {id} && nodes == old(nodes) - {id}
        invariant forall k :: k in adjacency ==>
                    adjacency[k] == if k in todo then old(adjacency)[k] else Avoiding(old(adjacency)[k], id)
      {
        var k :| k in todo;
        todo, adjacency := todo - {k}, adjacency[k := Avoiding(adjacency[k], id)];
      }
    }
  }

  /** The edges that do not enter `id`, in the same order. */
  function Avoiding(edges: seq<Edge>, id: NodeId): (r: seq<Edge>)
    ensures forall e :: e in r <==> e in edges && e.to != id
    ensures forall e :: multiset(r)[e] == if e.to == id then 0 else multiset(edges)[e]
  {
    if edges == [] then []
    else
      var last := edges[|edges| - 1];
      assert edges == edges[..|edges| - 1] + [last];
      Avoiding(edges[..|edges| - 1], id) + if last.to == id then [] else [last]
  }
}
