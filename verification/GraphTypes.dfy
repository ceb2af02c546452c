/** The vertices, edges and errors of the code graph, and the arcs its traversals follow. */
module GraphTypes {
  import opened Ordering
  import opened Reachability

  datatype Node = Node(nodeID: string, repoID: string, sourceRef: string, confidence: string)

  datatype Edge = Edge(edgeID: string, edgeLabel: string, fromID: string, toID: string)

  datatype GraphError = InvalidNodeID | InvalidEdgeID | DepthOutOfRange | NodeNotFound

  datatype BlastRadiusResult = BlastRadiusResult(
    rootNodeID: string, depth: int, nodes: seq<Node>, edges: seq<Edge>, repoID: string)

  /** 64 lowercase hexadecimal characters. */
  predicate IsDigest(id: string) {
    |id| == 64 && forall i :: 0 <= i < |id| ==> '0' <= id[i] <= '9' || 'a' <= id[i] <= 'f'
  }

  /** Written with those characters and no others. */
  lemma DigestIsHex(id: string)
    ensures IsDigest(id) <==> |id| == 64 && forall c :: c in id ==> c in "0123456789abcdef"
  {
    HexDigits();
    if |id| == 64 && forall c :: c in id ==> c in "0123456789abcdef" {
      assert forall i :: 0 <= i < |id| ==> id[i] in id;
    }
  }

  lemma HexDigits()
    ensures forall c :: c in "0123456789abcdef" <==> '0' <= c <= '9' || 'a' <= c <= 'f'
  {
    var s := "0123456789abcdef";
    forall c | '0' <= c <= '9' || 'a' <= c <= 'f' ensures c in s {
      assert if c <= '9' then s[c as int - '0' as int] == c else s[c as int - 'a' as int + 10] == c;
    }
  }

  predicate DepthInRange(depth: int) {
    1 <= depth <= 5
  }

  function DirectedArcs(edges: set<Edge>): set<(string, string)> {
    set e | e in edges :: (e.fromID, e.toID)
  }

  function UndirectedArcs(edges: set<Edge>): set<(string, string)> {
    (set e | e in edges :: (e.fromID, e.toID)) + (set e | e in edges :: (e.toID, e.fromID))
  }

  predicate Touches(e: Edge, id: string) {
    e.fromID == id || e.toID == id
  }

  /** The end of `e` met when it is crossed starting from `id`. */
  function OtherEnd(e: Edge, id: string): string
    requires Touches(e, id)
  {
    if e.fromID == id then e.toID else e.fromID
  }

  lemma CrossingIsArc(edges: set<Edge>, e: Edge, id: string)
    requires e in edges && Touches(e, id)
    ensures (id, OtherEnd(e, id)) in UndirectedArcs(edges)
  {
  }

  lemma ArcIsCrossing(edges: set<Edge>, a: (string, string)) returns (e: Edge)
    requires a in UndirectedArcs(edges)
    ensures e in edges && Touches(e, a.0) && OtherEnd(e, a.0) == a.1
  {
    if f :| f in edges && (f.fromID, f.toID) == a {
      e := f;
    } else {
      e :| e in edges && (e.toID, e.fromID) == a;
    }
  }

  function EdgeSet(edges: seq<Edge>): set<Edge> {
    set e | e in edges
  }

  /** Edges with an end among `ids`. */
  function Touching(edges: set<Edge>, ids: set<string>): set<Edge> {
    set e | e in edges && (e.fromID in ids || e.toID in ids)
  }

  function NodeIds(nodes: seq<Node>): seq<string> {
    seq(|nodes|, i requires 0 <= i < |nodes| => nodes[i].nodeID)
  }

  /** `nodes` lists, in increasing id order, the stored node of every id of `ids` that has one. */
  ghost predicate ListsStored(nodes: seq<Node>, store: map<string, Node>, ids: set<string>) {
    && (forall i, j :: 0 <= i < j < |nodes| ==> StringLess(nodes[i].nodeID, nodes[j].nodeID))
    && (forall n :: n in nodes <==> n.nodeID in ids && n.nodeID in store && store[n.nodeID] == n)
  }

  /** What a blast-radius query of `depth` hops from `root` must return: the stored nodes at
      undirected distance 1 to `depth`, and the edges with an end nearer than `depth`. */
  ghost predicate IsBlastRadius(br: BlastRadiusResult, store: map<string, Node>, edges: set<Edge>,
                                root: string, depth: int)
    requires depth > 0
  {
    var arcs := UndirectedArcs(edges);
    && br.rootNodeID == root && br.depth == depth
    && ListsStored(br.nodes, store, Ball(arcs, root, depth) - {root})
    && Distinct(br.edges)
    && forall e :: e in br.edges <==> e in Touching(edges, Ball(arcs, root, depth - 1))
  }
}
