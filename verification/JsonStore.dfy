/** The in-memory graph store: validated writes and level-by-level traversals. */
module JsonStoreModule {
  import opened Prelude
  import opened Ordering
  import opened Reachability
  import opened GraphTypes

  predicate NodeIdLe(a: Node, b: Node) {
    StringLe(a.nodeID, b.nodeID)
  }

  lemma NodeIdLeRanking()
    ensures Ranking(NodeIdLe)
  {
    StringLeRanking();
  }

  /** The node table after the writes of `batch`, in order. */
  function PutNodes(store: map<string, Node>, batch: seq<Node>): map<string, Node> {
    if |batch| == 0 then store
    else PutNodes(store, batch[..|batch| - 1])[batch[|batch| - 1].nodeID := batch[|batch| - 1]]
  }

  function PutEdges(store: map<string, Edge>, batch: seq<Edge>): map<string, Edge> {
    if |batch| == 0 then store
    else PutEdges(store, batch[..|batch| - 1])[batch[|batch| - 1].edgeID := batch[|batch| - 1]]
  }

  predicate EdgeIsValid(e: Edge) {
    IsDigest(e.edgeID) && IsDigest(e.fromID) && IsDigest(e.toID)
  }

  ghost predicate KeyedByValidIds(nodes: map<string, Node>, edges: map<string, Edge>) {
    && (forall k :: k in nodes ==> nodes[k].nodeID == k && IsDigest(k))
    && (forall k :: k in edges ==> edges[k].edgeID == k && EdgeIsValid(edges[k]))
  }

  lemma {:induction false} PutKeepsKeys(nodes: map<string, Node>, edges: map<string, Edge>, ns: seq<Node>, es: seq<Edge>)
    requires KeyedByValidIds(nodes, edges)
    requires forall n :: n in ns ==> IsDigest(n.nodeID)
    requires forall e :: e in es ==> EdgeIsValid(e)
    ensures KeyedByValidIds(PutNodes(nodes, ns), PutEdges(edges, es))
    decreases |ns| + |es|
  {
    if |ns| > 0 {
      PutKeepsKeys(nodes, edges, ns[..|ns| - 1], es);
    } else if |es| > 0 {
      PutKeepsKeys(nodes, edges, ns, es[..|es| - 1]);
    }
  }

  /** After a batch, a key holds its last write in the batch, else what it held before. */
  lemma {:induction false} LastWriteWins(store: map<string, Node>, batch: seq<Node>, i: nat)
    requires i < |batch|
    requires forall j :: i < j < |batch| ==> batch[j].nodeID != batch[i].nodeID
    ensures batch[i].nodeID in PutNodes(store, batch) && PutNodes(store, batch)[batch[i].nodeID] == batch[i]
    decreases |batch|
  {
    if i < |batch| - 1 {
      LastWriteWins(store, batch[..|batch| - 1], i);
    }
  }

  /** A key no write of the batch names holds what it held. */
  lemma {:induction false} OthersKept(store: map<string, Node>, batch: seq<Node>, id: string)
    requires forall n :: n in batch ==> n.nodeID != id
    ensures id in PutNodes(store, batch) <==> id in store
    ensures id in store ==> PutNodes(store, batch)[id] == store[id]
  {
    if |batch| > 0 {
      OthersKept(store, batch[..|batch| - 1], id);
    }
  }

  /** The same for the edge table. */
  lemma {:induction false} LastEdgeWriteWins(store: map<string, Edge>, batch: seq<Edge>, i: nat)
    requires i < |batch|
    requires forall j :: i < j < |batch| ==> batch[j].edgeID != batch[i].edgeID
    ensures batch[i].edgeID in PutEdges(store, batch) && PutEdges(store, batch)[batch[i].edgeID] == batch[i]
    decreases |batch|
  {
    if i < |batch| - 1 {
      LastEdgeWriteWins(store, batch[..|batch| - 1], i);
    }
  }

  lemma {:induction false} OtherEdgesKept(store: map<string, Edge>, batch: seq<Edge>, id: string)
    requires forall e :: e in batch ==> e.edgeID != id
    ensures id in PutEdges(store, batch) <==> id in store
    ensures id in store ==> PutEdges(store, batch)[id] == store[id]
  {
    if |batch| > 0 {
      OtherEdgesKept(store, batch[..|batch| - 1], id);
    }
  }

  /** The complaint about an invalid edge. */
  function EdgeError(e: Edge): GraphError {
    if IsDigest(e.edgeID) then InvalidNodeID else InvalidEdgeID
  }

  /** `e` is the first invalid edge of the batch. */
  ghost predicate FirstInvalid(es: seq<Edge>, e: Edge) {
    exists i :: 0 <= i < |es| && es[i] == e && !EdgeIsValid(e) && forall j :: 0 <= j < i ==> EdgeIsValid(es[j])
  }

  /** Every arc out of one of `ids` has been followed. */
  ghost predicate ArcsUsed(arcs: set<(string, string)>, ids: seq<string>, used: set<(string, string)>) {
    forall a :: a in arcs && a.0 in ids ==> a in used
  }

  lemma ArcsUsedOneMore(arcs: set<(string, string)>, ids: seq<string>, used: set<(string, string)>, id: string,
                        used': set<(string, string)>)
    requires ArcsUsed(arcs, ids, used) && used <= used'
    requires forall a :: a in arcs && a.0 == id ==> a in used'
    ensures ArcsUsed(arcs, ids + [id], used')
  {
  }

  class JSONStore {
    var nodes: map<string, Node>
    var edges: map<string, Edge>

    /** Tables are keyed by the ids of their rows, and every id was validated on the way in. */
    ghost predicate Valid()
      reads this
    {
      KeyedByValidIds(nodes, edges)
    }

    constructor ()
      ensures Valid() && nodes == map[] && edges == map[]
    {
      nodes, edges := map[], map[];
    }

    method UpsertNode(n: Node) returns (r: Result<(), GraphError>)
      requires Valid()
      modifies this
      ensures Valid() && edges == old(edges)
      ensures r == if IsDigest(n.nodeID) then Ok(()) else Err(InvalidNodeID)
      ensures nodes == if r.Ok? then old(nodes)[n.nodeID := n] else old(nodes)
    {
      if !IsDigest(n.nodeID) {
        return Err(InvalidNodeID);
      }
      nodes := nodes[n.nodeID := n];
      return Ok(());
    }

    method GetNode(id: string) returns (r: Result<Node, GraphError>)
      requires Valid()
      ensures r.Ok? <==> id in nodes
      ensures r.Ok? ==> r.value == nodes[id] && r.value.nodeID == id
      ensures r.Err? ==> r.error == if IsDigest(id) then NodeNotFound else InvalidNodeID
    {
      if !IsDigest(id) {
        return Err(InvalidNodeID);
      }
      return if id in nodes then Ok(nodes[id]) else Err(NodeNotFound);
    }

    method UpsertEdge(e: Edge) returns (r: Result<(), GraphError>)
      requires Valid()
      modifies this
      ensures Valid() && nodes == old(nodes)
      ensures r == if !IsDigest(e.edgeID) then Err(InvalidEdgeID)
                   else if IsDigest(e.fromID) && IsDigest(e.toID) then Ok(()) else Err(InvalidNodeID)
      ensures edges == if r.Ok? then old(edges)[e.edgeID := e] else old(edges)
    {
      if !IsDigest(e.edgeID) {
        return Err(InvalidEdgeID);
      }
      if !IsDigest(e.fromID) {
        return Err(InvalidNodeID);
      }
      if !IsDigest(e.toID) {
        return Err(InvalidNodeID);
      }
      edges := edges[e.edgeID := e];
      return Ok(());
    }

    /** All or nothing: a bad id anywhere in the batch leaves both tables alone. */
    method BulkLoad(ns: seq<Node>, es: seq<Edge>) returns (r: Result<(), GraphError>)
      requires Valid()
      modifies this
      ensures Valid()
      ensures r.Ok? <==> (forall n :: n in ns ==> IsDigest(n.nodeID)) && (forall e :: e in es ==> EdgeIsValid(e))
      ensures r.Err? ==>
                if exists n :: n in ns && !IsDigest(n.nodeID) then r.error == InvalidNodeID
                else exists e :: FirstInvalid(es, e) && r.error == if IsDigest(e.edgeID) then InvalidNodeID else InvalidEdgeID
      ensures nodes == if r.Ok? then PutNodes(old(nodes), ns) else old(nodes)
      ensures edges == if r.Ok? then PutEdges(old(edges), es) else old(edges)
    {
      for i := 0 to |ns|
        invariant forall n :: n in ns[..i] ==> IsDigest(n.nodeID)
      {
        assert ns[..i + 1] == ns[..i] + [ns[i]];
        if !IsDigest(ns[i].nodeID) {
          assert ns[i] in ns;
          return Err(InvalidNodeID);
        }
      }
      for i := 0 to |es|
        invariant forall e :: e in es[..i] ==> EdgeIsValid(e)
      {
        assert es[..i + 1] == es[..i] + [es[i]];
        if !EdgeIsValid(es[i]) {
          assert es[i] in es;
          assert FirstInvalid(es, es[i]) by {
            assert forall j :: 0 <= j < i ==> es[..i][j] in es[..i];
          }
          return Err(EdgeError(es[i]));
        }
      }
      assert ns[..|ns|] == ns && es[..|es|] == es;
      PutKeepsKeys(nodes, edges, ns, es);
      for i := 0 to |ns|
        invariant edges == old(edges) && nodes == PutNodes(old(nodes), ns[..i])
      {
        nodes := nodes[ns[i].nodeID := ns[i]];
        assert ns[..i + 1][..i] == ns[..i];
      }
      for i := 0 to |es|
        invariant nodes == PutNodes(old(nodes), ns[..|ns|]) && edges == PutEdges(old(edges), es[..i])
      {
        edges := edges[es[i].edgeID := es[i]];
        assert es[..i + 1][..i] == es[..i];
      }
      return Ok(());
    }

    /** The stored nodes that call or import `id`, each once. */
    method DirectCallers(id: string) returns (r: Result<seq<Node>, GraphError>)
      requires Valid()
      ensures r.Err? <==> !IsDigest(id)
      ensures r.Err? ==> r.error == InvalidNodeID
      ensures r.Ok? ==> Distinct(NodeIds(r.value))
      ensures r.Ok? ==> forall n :: n in r.value <==>
                n.nodeID in nodes && nodes[n.nodeID] == n
                && exists k :: k in edges && edges[k].fromID == n.nodeID && edges[k].toID == id
                               && (edges[k].edgeLabel == "SAME_FILE_CALLS" || edges[k].edgeLabel == "IMPORTS")
    {
      if !IsDigest(id) {
        return Err(InvalidNodeID);
      }
      var seen: set<string> := {};
      var callers: seq<Node> := [];
      var rest := edges.Keys;
      while rest != {}
        invariant rest <= edges.Keys
        invariant Distinct(NodeIds(callers))
        invariant forall n :: n in callers <==> n.nodeID in nodes && nodes[n.nodeID] == n && n.nodeID in seen
        invariant seen == CallersAmong(edges, edges.Keys - rest, id)
        decreases rest
      {
        var k :| k in rest;
        assert edges.Keys - (rest - {k}) == (edges.Keys - rest) + {k};
        CallersAmongOneMore(edges, edges.Keys - rest, k, id);
        rest := rest - {k};
        var e := edges[k];
        if e.toID != id {
          continue;
        }
        if e.edgeLabel != "SAME_FILE_CALLS" && e.edgeLabel != "IMPORTS" {
          continue;
        }
        if e.fromID in seen {
          continue;
        }
        seen := seen + {e.fromID};
        if e.fromID in nodes {
          AppendNew(callers, nodes[e.fromID]);
          callers := callers + [nodes[e.fromID]];
        }
      }
      CallersAre(edges, id);
      return Ok(callers);
    }

    /** The stored nodes of a set of ids, sorted by id. */
    method Collect(ids: set<string>) returns (out: seq<Node>)
      requires Valid()
      ensures ListsStored(out, nodes, ids)
    {
      out := [];
      var rest := ids;
      while rest != {}
        invariant rest <= ids
        invariant forall n :: n in out <==> n.nodeID in ids - rest && n.nodeID in nodes && nodes[n.nodeID] == n
        invariant forall i, j :: 0 <= i < j < |out| ==> out[i].nodeID != out[j].nodeID
        decreases rest
      {
        var id :| id in rest;
        rest := rest - {id};
        if id in nodes {
          out := out + [nodes[id]];
        }
      }
      SortListsStored(out, nodes, ids);
      out := Sort(NodeIdLe, out);
    }

    method SweepOut(id: string, visited: set<string>, next: seq<string>, ghost root: string, ghost h: nat,
                    ghost used: set<(string, string)>)
      returns (visited': set<string>, next': seq<string>, ghost used': set<(string, string)>)
      requires Sweeping(DirectedArcs(edges.Values), root, h, used, visited, next)
      requires id in Ball(DirectedArcs(edges.Values), root, h)
      ensures Sweeping(DirectedArcs(edges.Values), root, h, used', visited', next')
      ensures used <= used'
      ensures forall a :: a in DirectedArcs(edges.Values) && a.0 == id ==> a in used'
    {
      visited', next', used' := visited, next, used;
      ghost var arcs := DirectedArcs(edges.Values);
      var rest := edges.Keys;
      while rest != {}
        invariant rest <= edges.Keys
        invariant Sweeping(arcs, root, h, used', visited', next') && used <= used'
        invariant forall k :: k in edges && k !in rest && edges[k].fromID == id ==> (id, edges[k].toID) in used'
        decreases rest
      {
        var k :| k in rest;
        rest := rest - {k};
        var e := edges[k];
        if e.fromID != id {
          continue;
        }
        assert e in edges.Values;
        SweepFollows(arcs, root, h, used', visited', next', (id, e.toID));
        used' := used' + {(id, e.toID)};
        if e.toID in visited' {
          assert visited' + {e.toID} == visited';
          continue;
        }
        visited' := visited' + {e.toID};
        next' := next' + [e.toID];
      }
    }

    /** Nodes reachable along directed edges in 1 to `depth` hops. */
    method Dependents(id: string, depth: int) returns (r: Result<seq<Node>, GraphError>)
      requires Valid()
      ensures !IsDigest(id) ==> r == Err(InvalidNodeID)
      ensures IsDigest(id) && (depth < 1 || depth > 5) ==> r == Err(DepthOutOfRange)
      ensures IsDigest(id) && 1 <= depth <= 5 ==>
                r.Ok? && ListsStored(r.value, nodes, Ball(DirectedArcs(edges.Values), id, depth) - {id})
    {
      if !IsDigest(id) {
        return Err(InvalidNodeID);
      }
      if !DepthInRange(depth) {
        return Err(DepthOutOfRange);
      }
      ghost var arcs := DirectedArcs(edges.Values);
      var visited := {id};
      var frontier := [id];
      var hop := 0;
      while hop < depth && |frontier| > 0
        invariant 0 <= hop <= depth
        invariant visited == Ball(arcs, id, hop)
        invariant forall v :: v in frontier <==> AtDist(arcs, id, v, hop)
      {
        var next: seq<string> := [];
        ghost var used: set<(string, string)> := {};
        for i := 0 to |frontier|
          invariant Sweeping(arcs, id, hop, used, visited, next)
          invariant forall a :: a in arcs && a.0 in frontier[..i] ==> a in used
        {
          assert frontier[..i + 1] == frontier[..i] + [frontier[i]];
          assert AtDist(arcs, id, frontier[i], hop);
          visited, next, used := SweepOut(frontier[i], visited, next, id, hop, used);
        }
        assert frontier[..|frontier|] == frontier;
        SweepCompletes(arcs, id, hop, used, visited, next);
        frontier := next;
        hop := hop + 1;
      }
      if hop < depth {
        EmptyLevelStops(arcs, id, hop);
      }
      var out := Collect(visited - {id});
      return Ok(out);
    }

    method SweepBoth(id: string, visited: set<string>, visitedEdges: set<string>, next: seq<string>,
                     ghost root: string, ghost h: nat, ghost used: set<(string, string)>)
      returns (visited': set<string>, visitedEdges': set<string>, next': seq<string>,
               ghost used': set<(string, string)>)
      requires Sweeping(UndirectedArcs(edges.Values), root, h, used, visited, next)
      requires id in Ball(UndirectedArcs(edges.Values), root, h)
      ensures Sweeping(UndirectedArcs(edges.Values), root, h, used', visited', next')
      ensures used <= used'
      ensures forall a :: a in UndirectedArcs(edges.Values) && a.0 == id ==> a in used'
      ensures visitedEdges' == visitedEdges + Crossed(edges, edges.Keys, id)
    {
      visited', visitedEdges', next', used' := visited, visitedEdges, next, used;
      ghost var arcs := UndirectedArcs(edges.Values);
      var rest := edges.Keys;
      while rest != {}
        invariant rest <= edges.Keys
        invariant Sweeping(arcs, root, h, used', visited', next')
        invariant used' == used + Crossings(edges, edges.Keys - rest, id)
        invariant visitedEdges' == visitedEdges + Crossed(edges, edges.Keys - rest, id)
        decreases rest
      {
        var k :| k in rest;
        assert edges.Keys - (rest - {k}) == (edges.Keys - rest) + {k};
        CrossingsOneMore(edges, edges.Keys - rest, k, id);
        rest := rest - {k};
        var e := edges[k];
        var neighbor: string;
        if e.fromID == id {
          neighbor := e.toID;
        } else if e.toID == id {
          neighbor := e.fromID;
        } else {
          continue;
        }
        CrossingIsArc(edges.Values, e, id);
        SweepFollows(arcs, root, h, used', visited', next', (id, neighbor));
        used' := used' + {(id, neighbor)};
        visitedEdges' := visitedEdges' + {k};
        if neighbor !in visited' {
          visited' := visited' + {neighbor};
          next' := next' + [neighbor];
        } else {
          assert visited' + {neighbor} == visited';
        }
      }
      AllCrossings(edges, id);
    }

    /** One hop of `BlastRadius`: every frontier node is expanded. */
    method NextLevel(frontier: seq<string>, visited: set<string>, visitedEdges: set<string>,
                     ghost root: string, ghost h: nat)
      returns (visited': set<string>, visitedEdges': set<string>, next: seq<string>)
      requires visited == Ball(UndirectedArcs(edges.Values), root, h)
      requires forall v :: v in frontier <==> AtDist(UndirectedArcs(edges.Values), root, v, h)
      requires visitedEdges ==
               TouchedKeys(edges, if h == 0 then {} else Ball(UndirectedArcs(edges.Values), root, h - 1))
      ensures visited' == Ball(UndirectedArcs(edges.Values), root, h + 1)
      ensures forall v :: v in next <==> AtDist(UndirectedArcs(edges.Values), root, v, h + 1)
      ensures visitedEdges' == TouchedKeys(edges, Ball(UndirectedArcs(edges.Values), root, h))
    {
      ghost var arcs := UndirectedArcs(edges.Values);
      ghost var inner := if h == 0 then {} else Ball(arcs, root, h - 1);
      ghost var used;
      visited', visitedEdges', next, used := SweepAll(frontier, visited, visitedEdges, root, h, inner);
      OutermostAdded(arcs, root, h, inner, frontier);
      SweepCompletes(arcs, root, h, used, visited', next);
    }

    method SweepAll(frontier: seq<string>, visited: set<string>, visitedEdges: set<string>,
                    ghost root: string, ghost h: nat, ghost inner: set<string>)
      returns (visited': set<string>, visitedEdges': set<string>, next: seq<string>, ghost used: set<(string, string)>)
      requires visited == Ball(UndirectedArcs(edges.Values), root, h)
      requires forall v :: v in frontier ==> v in Ball(UndirectedArcs(edges.Values), root, h)
      requires visitedEdges == TouchedKeys(edges, inner)
      ensures Sweeping(UndirectedArcs(edges.Values), root, h, used, visited', next)
      ensures ArcsUsed(UndirectedArcs(edges.Values), frontier, used)
      ensures visitedEdges' == TouchedKeys(edges, inner + set v | v in frontier)
    {
      visited', visitedEdges', next, used := visited, visitedEdges, [], {};
      ghost var arcs := UndirectedArcs(edges.Values);
      ghost var expanded := inner;
      for i := 0 to |frontier|
        invariant Sweeping(arcs, root, h, used, visited', next)
        invariant ArcsUsed(arcs, frontier[..i], used)
        invariant expanded == inner + set v | v in frontier[..i]
        invariant visitedEdges' == TouchedKeys(edges, expanded)
      {
        ghost var before := used;
        assert frontier[..i + 1] == frontier[..i] + [frontier[i]];
        TouchedKeysOneMore(edges, expanded, frontier[i]);
        expanded := expanded + {frontier[i]};
        visited', visitedEdges', next, used := SweepBoth(frontier[i], visited', visitedEdges', next, root, h, used);
        ArcsUsedOneMore(arcs, frontier[..i], before, frontier[i], used);
      }
      assert frontier[..|frontier|] == frontier;
    }

    /** Nodes within `depth` undirected hops and the edges crossed to look for them. */
    method BlastRadius(id: string, depth: int) returns (r: Result<BlastRadiusResult, GraphError>)
      requires Valid()
      ensures !IsDigest(id) ==> r == Err(InvalidNodeID)
      ensures IsDigest(id) && (depth < 1 || depth > 5) ==> r == Err(DepthOutOfRange)
      ensures IsDigest(id) && 1 <= depth <= 5 ==>
                r.Ok? && IsBlastRadius(r.value, nodes, edges.Values, id, depth)
      ensures r.Ok? ==> r.value.repoID == if id in nodes then nodes[id].repoID else ""
    {
      if !IsDigest(id) {
        return Err(InvalidNodeID);
      }
      if !DepthInRange(depth) {
        return Err(DepthOutOfRange);
      }
      ghost var arcs := UndirectedArcs(edges.Values);
      ghost var expanded: set<string> := {};
      var visitedNodes := {id};
      var visitedEdges: set<string> := {};
      var frontier := [id];
      var hop := 0;
      while hop < depth && |frontier| > 0
        invariant 0 <= hop <= depth
        invariant visitedNodes == Ball(arcs, id, hop)
        invariant forall v :: v in frontier <==> AtDist(arcs, id, v, hop)
        invariant expanded == if hop == 0 then {} else Ball(arcs, id, hop - 1)
        invariant visitedEdges == TouchedKeys(edges, expanded)
      {
        expanded := Ball(arcs, id, hop);
        visitedNodes, visitedEdges, frontier := NextLevel(frontier, visitedNodes, visitedEdges, id, hop);
        hop := hop + 1;
      }
      if hop < depth {
        EmptyLevelStops(arcs, id, hop);
      }
      var outNodes := Collect(visitedNodes - {id});
      var outEdges := CollectEdges(visitedEdges);
      TouchedKeysAreTouching(edges, Ball(arcs, id, depth - 1));
      return Ok(BlastRadiusResult(id, depth, outNodes, outEdges, if id in nodes then nodes[id].repoID else ""));
    }

    method CollectEdges(keys: set<string>) returns (out: seq<Edge>)
      requires Valid() && keys <= edges.Keys
      ensures Distinct(out)
      ensures forall e :: e in out <==> exists k :: k in keys && edges[k] == e
    {
      out := [];
      var rest := keys;
      while rest != {}
        invariant rest <= keys
        invariant Distinct(out)
        invariant forall e :: e in out <==> e.edgeID in keys && e.edgeID !in rest && edges[e.edgeID] == e
        decreases rest
      {
        var k :| k in rest;
        rest := rest - {k};
        if k in edges {
          out := out + [edges[k]];
        }
      }
    }
  }

  function TouchedKeys(edges: map<string, Edge>, ids: set<string>): set<string> {
    set k | k in edges && (edges[k].fromID in ids || edges[k].toID in ids)
  }

  lemma TouchedKeysOneMore(edges: map<string, Edge>, ids: set<string>, v: string)
    ensures TouchedKeys(edges, ids + {v}) == TouchedKeys(edges, ids) + Crossed(edges, edges.Keys, v)
  {
  }

  lemma TouchedKeysAreTouching(edges: map<string, Edge>, ids: set<string>)
    ensures forall e :: (exists k :: k in TouchedKeys(edges, ids) && edges[k] == e) <==> e in Touching(edges.Values, ids)
  {
    forall e | e in Touching(edges.Values, ids) ensures exists k :: k in TouchedKeys(edges, ids) && edges[k] == e {
      var k :| k in edges && edges[k] == e;
      assert k in TouchedKeys(edges, ids);
    }
  }

  lemma OutermostAdded(arcs: set<(string, string)>, root: string, h: nat, inner: set<string>, frontier: seq<string>)
    requires forall v :: v in frontier <==> AtDist(arcs, root, v, h)
    requires inner == if h == 0 then {} else Ball(arcs, root, h - 1)
    ensures inner + (set v | v in frontier) == Ball(arcs, root, h)
  {
    forall v | v in Ball(arcs, root, h) && v !in inner ensures v in frontier {
      assert AtDist(arcs, root, v, h);
    }
    forall v | v in frontier ensures v in Ball(arcs, root, h) {
      assert AtDist(arcs, root, v, h);
    }
    if h > 0 {
      BallMonotone(arcs, root, h - 1, h);
    }
  }

  predicate Calls(e: Edge, id: string) {
    e.toID == id && (e.edgeLabel == "SAME_FILE_CALLS" || e.edgeLabel == "IMPORTS")
  }

  function CallersAmong(edges: map<string, Edge>, keys: set<string>, id: string): set<string>
    requires keys <= edges.Keys
  {
    set k | k in keys && Calls(edges[k], id) :: edges[k].fromID
  }

  lemma CallersAre(edges: map<string, Edge>, id: string)
    ensures forall v :: v in CallersAmong(edges, edges.Keys, id) <==>
              exists k :: k in edges && edges[k].fromID == v && edges[k].toID == id
                          && (edges[k].edgeLabel == "SAME_FILE_CALLS" || edges[k].edgeLabel == "IMPORTS")
  {
  }

  lemma CallersAmongOneMore(edges: map<string, Edge>, keys: set<string>, k: string, id: string)
    requires keys <= edges.Keys && k in edges
    ensures CallersAmong(edges, keys + {k}, id) ==
            CallersAmong(edges, keys, id) + if Calls(edges[k], id) then {edges[k].fromID} else {}
  {
    forall x | x in CallersAmong(edges, keys, id) ensures x in CallersAmong(edges, keys + {k}, id) {
      var j :| j in keys && Calls(edges[j], id) && edges[j].fromID == x;
      assert j in keys + {k};
    }
    assert k in keys + {k};
  }

  lemma AppendNew(ns: seq<Node>, n: Node)
    requires Distinct(NodeIds(ns)) && forall m :: m in ns ==> m.nodeID != n.nodeID
    ensures Distinct(NodeIds(ns + [n]))
  {
    assert NodeIds(ns + [n]) == NodeIds(ns) + [n.nodeID];
  }

  /** The keys, among `keys`, of the edges with an end at `id`. */
  function Crossed(edges: map<string, Edge>, keys: set<string>, id: string): set<string>
    requires keys <= edges.Keys
  {
    set k | k in keys && Touches(edges[k], id)
  }

  /** The arcs that the edges `keys` offer when crossed from `id`. */
  function Crossings(edges: map<string, Edge>, keys: set<string>, id: string): set<(string, string)>
    requires keys <= edges.Keys
  {
    set k | k in keys && Touches(edges[k], id) :: (id, OtherEnd(edges[k], id))
  }

  lemma CrossingsOneMore(edges: map<string, Edge>, keys: set<string>, k: string, id: string)
    requires keys <= edges.Keys && k in edges
    ensures Crossings(edges, keys + {k}, id) ==
            Crossings(edges, keys, id) + if Touches(edges[k], id) then {(id, OtherEnd(edges[k], id))} else {}
    ensures Crossed(edges, keys + {k}, id) ==
            Crossed(edges, keys, id) + if Touches(edges[k], id) then {k} else {}
  {
    forall x | x in Crossings(edges, keys, id) ensures x in Crossings(edges, keys + {k}, id) {
      var j :| j in keys && Touches(edges[j], id) && (id, OtherEnd(edges[j], id)) == x;
      assert j in keys + {k};
    }
    assert k in keys + {k};
  }

  lemma AllCrossings(edges: map<string, Edge>, id: string)
    ensures forall a :: a in UndirectedArcs(edges.Values) && a.0 == id ==> a in Crossings(edges, edges.Keys, id)
  {
    forall a | a in UndirectedArcs(edges.Values) && a.0 == id ensures a in Crossings(edges, edges.Keys, id) {
      var e := ArcIsCrossing(edges.Values, a);
      var k :| k in edges && edges[k] == e;
      assert a == (id, OtherEnd(edges[k], id));
    }
  }

  function NodeKey(n: Node): string {
    n.nodeID
  }

  lemma SortedByDistinctKeys(out: seq<Node>)
    requires KeysDistinct(NodeKey, out)
    ensures forall i, j :: 0 <= i < j < |out| ==> StringLess(Sort(NodeIdLe, out)[i].nodeID, Sort(NodeIdLe, out)[j].nodeID)
  {
    var s := Sort(NodeIdLe, out);
    NodeIdLeRanking();
    SortSorts(NodeIdLe, out);
    KeysDistinctPermutation(NodeKey, out, s);
    forall i, j | 0 <= i < j < |s| ensures StringLess(s[i].nodeID, s[j].nodeID) {
      assert NodeIdLe(s[i], s[j]) && NodeKey(s[i]) != NodeKey(s[j]);
    }
  }

  lemma SortListsStored(out: seq<Node>, store: map<string, Node>, ids: set<string>)
    requires forall n :: n in out <==> n.nodeID in ids && n.nodeID in store && store[n.nodeID] == n
    requires KeysDistinct(NodeKey, out)
    ensures ListsStored(Sort(NodeIdLe, out), store, ids)
  {
    SortedByDistinctKeys(out);
    SameElements(Sort(NodeIdLe, out), out);
  }
}
