/** The graph file under locked updates (graph/src/store.rs): the protocol run on the text format, so that a run of
    updates is a sequence of graphs. */
module GraphUpdates {
  import opened Results
  import opened Graph
  import GraphFormat
  import GraphLock
  import LineText

  /** The change each writer makes to the graph it has loaded. */
  type Update = GraphLock.Writer -> (Snapshot -> Snapshot)

  /** Saving and loading as the text format does it; a graph that is not well keyed is never saved. */
  ghost function TextStore(lower: Lower, update: Update): GraphLock.Store<Snapshot> {
    GraphLock.Store(g => if GraphFormat.Keyed(g) then GraphFormat.TextOf(lower, g) else "",
                    text => GraphFormat.Loaded(lower, text), Snapshot(map[], map[]), update)
  }

  /** The updates take well-keyed graphs to well-keyed graphs, as the graph's own operations do. */
  ghost predicate KeepsKeys(update: Update) {
    forall w, g {:trigger update(w)(g)} :: GraphFormat.Keyed(g) ==> GraphFormat.Keyed(update(w)(g))
  }

  /** One graph for each update in turn, each the stored form of the update made to the one before. */
  ghost predicate Composes(lower: Lower, update: Update, log: seq<GraphLock.Writer>, graphs: seq<Snapshot>) {
    && |graphs| == |log| + 1
    && forall i :: 0 <= i < |log| ==> Becomes(lower, update, log[i], graphs[i], graphs[i + 1])
  }

  ghost predicate Becomes(lower: Lower, update: Update, w: GraphLock.Writer, g: Snapshot, h: Snapshot) {
    && GraphFormat.Keyed(update(w)(g)) && h == GraphFormat.Stored(lower, update(w)(g))
    && GraphFormat.IsStoredForm(lower, update(w)(g), h)
    && (GraphFormat.Apart(update(w)(g)) ==> GraphFormat.HoldsAll(lower, update(w)(g), h))
  }

  /** Whatever a file says, the graph loaded from it is well keyed. */
  lemma LoadedIsKeyed(lower: Lower, content: string)
    ensures GraphFormat.Keyed(GraphFormat.Loaded(lower, content))
  {
    var lines := LineText.Lines(content);
    ReadIsKeyed(lower, lines);
    var r := GraphFormat.ReadLines(lower, lines);
    ConnectedIsKeyed(r.graph, r.edges);
  }

  lemma {:induction false} ReadIsKeyed(lower: Lower, lines: seq<string>)
    ensures GraphFormat.Keyed(GraphFormat.ReadLines(lower, lines).graph)
  {
    hide GraphFormat.ReadNode, GraphFormat.ReadEdge, LineText.Pieces;
    if lines != [] {
      ReadIsKeyed(lower, lines[..|lines| - 1]);
      var r, line := GraphFormat.ReadLines(lower, lines[..|lines| - 1]), lines[|lines| - 1];
      ReadLineKeepsKeys(lower, r, line);
    }
  }

  lemma ReadLineKeepsKeys(lower: Lower, r: GraphFormat.Reading, line: string)
    requires GraphFormat.Keyed(r.graph)
    ensures GraphFormat.Keyed(GraphFormat.ReadLine(lower, r, line).graph)
  {
    hide LineText.Pieces, GraphFormat.ReadNode;
    if line != "" && line[0] != '#' {
      var fields := LineText.Pieces(line, GraphFormat.TAB);
      if fields[0] == "N" && |fields| >= 7 {
        var n := GraphFormat.ReadNode(lower, fields);
        ReadNodeIsSmall(lower, fields);
        InsertKeepsKeys(r.graph, n);
      }
    }
  }

  lemma ReadNodeIsSmall(lower: Lower, fields: seq<string>)
    requires |fields| >= 7
    ensures GraphFormat.ReadNode(lower, fields).confidence <= 100
  {
  }

  lemma InsertKeepsKeys(g: Snapshot, n: Node)
    requires GraphFormat.Keyed(g) && n.confidence <= 255
    ensures GraphFormat.Keyed(GraphFormat.Inserted(g, n))
  {
    var h := GraphFormat.Inserted(g, n);
    assert forall k :: h.Edges(k) == g.Edges(k);
  }

  lemma {:induction false} ConnectedIsKeyed(g: Snapshot, edges: seq<Edge>)
    requires GraphFormat.Keyed(g)
    ensures GraphFormat.Keyed(GraphFormat.ConnectAll(g, edges))
  {
    if edges != [] {
      var front, last := edges[..|edges| - 1], edges[|edges| - 1];
      ConnectedIsKeyed(g, front);
      var h := GraphFormat.ConnectAll(g, front);
      assert forall k :: Connected(h, last).Edges(k) == h.Edges(k) + if k == last.from then [last] else [];
    }
  }

  lemma EmptyIsKeyed()
    ensures GraphFormat.Keyed(Snapshot(map[], map[]))
  {
  }

  /** The file after some updates, loaded, is what the updates compose to. */
  lemma {:induction false} ContentComposes(lower: Lower, update: Update, first: Option<string>,
                                           log: seq<GraphLock.Writer>) returns (graphs: seq<Snapshot>)
    requires KeepsKeys(update)
    ensures Composes(lower, update, log, graphs)
    ensures var store := TextStore(lower, update);
            && graphs[0] == GraphLock.LoadFile(store, first)
            && graphs[|log|] == GraphLock.LoadFile(store, GraphLock.Content(store, first, log))
            && GraphFormat.Keyed(graphs[|log|])
  {
    hide GraphFormat.Keyed, GraphFormat.Loaded, GraphFormat.Stored, GraphFormat.TextOf, GraphFormat.IsStoredForm;
    hide GraphFormat.Apart, GraphFormat.HoldsAll;
    var store := TextStore(lower, update);
    if log == [] {
      EmptyIsKeyed();
      if first.Some? {
        LoadedIsKeyed(lower, first.value);
      }
      graphs := [GraphLock.LoadFile(store, first)];
    } else {
      var n := |log| - 1;
      var before := ContentComposes(lower, update, first, log[..n]);
      var changed := update(log[n])(before[n]);
      StoredNext(lower, update, log[n], before[n]);
      graphs := before + [GraphFormat.Stored(lower, changed)];
      StoredIsLoaded(lower, changed);
      LoadedIsKeyed(lower, GraphFormat.TextOf(lower, changed));
      assert forall i :: 0 <= i < n ==> graphs[i] == before[i] && log[..n][i] == log[i];
    }
  }

  lemma StoredNext(lower: Lower, update: Update, w: GraphLock.Writer, g: Snapshot)
    requires KeepsKeys(update) && GraphFormat.Keyed(g)
    ensures Becomes(lower, update, w, g, GraphFormat.Stored(lower, update(w)(g)))
  {
    hide GraphFormat.IsStoredForm, GraphFormat.Stored, GraphFormat.Keyed, GraphFormat.Apart, GraphFormat.HoldsAll;
    GraphFormat.StoredIsStoredForm(lower, update(w)(g));
  }

  lemma StoredIsLoaded(lower: Lower, g: Snapshot)
    requires GraphFormat.Keyed(g)
    ensures GraphFormat.Stored(lower, g) == GraphFormat.Loaded(lower, GraphFormat.TextOf(lower, g))
  {
  }

  /** After every disciplined run the graph in the file is the first one changed by each renamed update in the order
      the lock was taken, every change followed by the text's normal form; every update that reported success is one
      of them. */
  lemma UpdatesCompose(lower: Lower, update: Update, states: seq<GraphLock.State<Snapshot>>,
                       moves: seq<(GraphLock.Writer, GraphLock.Action<Snapshot>)>) returns (graphs: seq<Snapshot>)
    requires KeepsKeys(update) && GraphLock.Run(TextStore(lower, update), states, moves)
    requires GraphLock.DisciplinedFrom(states, moves, 0)
    ensures var (store, s) := (TextStore(lower, update), states[|moves|]);
            && Composes(lower, update, s.renamed, graphs)
            && graphs[0] == GraphLock.LoadFile(store, states[0].file)
            && graphs[|s.renamed|] == GraphLock.LoadFile(store, s.file)
            && forall w :: s.Of(w).Done? ==> w in s.renamed
  {
    hide Composes, KeepsKeys;
    GraphLock.NoUpdateIsLost(TextStore(lower, update), states, moves);
    graphs := ContentComposes(lower, update, states[0].file, states[|moves|].renamed);
  }
}
