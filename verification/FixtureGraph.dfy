/** The second implementation of the graph contract: a queue with a depth map over an edge list. */
module FixtureGraphModule {
  import opened Ordering
  import opened Reachability
  import opened GraphTypes

  /** What a map lookup of a missing node yields. */
  const ZERO_NODE := Node("", "", "", "")

  function NodeOrZero(nodes: map<string, Node>, id: string): Node {
    if id in nodes then nodes[id] else ZERO_NODE
  }

  function AtLeastOne(depth: int): nat {
    if depth < 1 then 1 else depth
  }

  /** `out` holds, for each of `ids` once, its stored node or the zero node. */
  ghost predicate Looked(out: seq<Node>, nodes: map<string, Node>, order: seq<string>, ids: set<string>) {
    && Distinct(order) && (forall v :: v in order <==> v in ids)
    && |out| == |order| && forall i :: 0 <= i < |out| ==> out[i] == NodeOrZero(nodes, order[i])
  }

  /** The answer holds what is looked up under each of `ids`, and nothing else. */
  ghost predicate Answers(out: seq<Node>, nodes: map<string, Node>, ids: set<string>) {
    |out| == |ids| && forall n :: n in out <==> exists v :: v in ids && n == NodeOrZero(nodes, v)
  }

  lemma LookedAnswers(out: seq<Node>, nodes: map<string, Node>, order: seq<string>, ids: set<string>)
    requires Looked(out, nodes, order, ids)
    ensures Answers(out, nodes, ids)
  {
    ListingCount(order, ids);
    forall n | n in out ensures exists v :: v in ids && n == NodeOrZero(nodes, v) {
      var i :| 0 <= i < |out| && out[i] == n;
      assert order[i] in order;
    }
    forall v | v in ids ensures NodeOrZero(nodes, v) in out {
      var i :| 0 <= i < |order| && order[i] == v;
      assert out[i] == NodeOrZero(nodes, v);
    }
  }

  lemma {:induction false} ListingCount(order: seq<string>, ids: set<string>)
    requires Distinct(order) && forall v :: v in order <==> v in ids
    ensures |order| == |ids|
    decreases |order|
  {
    if |order| == 0 {
      assert ids == {};
    } else {
      var init, last := order[..|order| - 1], order[|order| - 1];
      assert order == init + [last];
      assert last !in init;
      ListingCount(init, ids - {last});
    }
  }

  lemma LookedOneMore(out: seq<Node>, nodes: map<string, Node>, order: seq<string>, ids: set<string>, v: string)
    requires Looked(out, nodes, order, ids) && v !in ids
    ensures Looked(out + [NodeOrZero(nodes, v)], nodes, order + [v], ids + {v})
  {
  }

  class FixtureGraph {
    var nodes: map<string, Node>
    var edges: seq<Edge>

    constructor ()
      ensures nodes == map[] && edges == []
    {
      nodes, edges := map[], [];
    }

    method UpsertNode(n: Node)
      modifies this
      ensures nodes == old(nodes)[n.nodeID := n] && edges == old(edges)
    {
      nodes := nodes[n.nodeID := n];
    }

    method UpsertEdge(e: Edge)
      modifies this
      ensures edges == old(edges) + [e] && nodes == old(nodes)
    {
      edges := edges + [e];
    }

    method Collect(seen: map<string, nat>, root: string) returns (out: seq<Node>, ghost order: seq<string>)
      ensures Looked(out, nodes, order, set v | v in seen && v != root && seen[v] != 0)
    {
      out, order := [], [];
      var rest := seen.Keys;
      while rest != {}
        invariant rest <= seen.Keys
        invariant Looked(out, nodes, order, set v | v in seen && v !in rest && v != root && seen[v] != 0)
        decreases rest
      {
        var v :| v in rest;
        rest := rest - {v};
        if v == root || seen[v] == 0 {
          continue;
        }
        LookedOneMore(out, nodes, order, (set x | x in seen && x !in rest && x != v && x != root && seen[x] != 0), v);
        out, order := out + [NodeOrZero(nodes, v)], order + [v];
      }
    }

    /** Nodes reachable along directed edges in 1 to `depth` hops, zero nodes standing for the missing. */
    method Dependents(id: string, depth: int) returns (out: seq<Node>, ghost order: seq<string>)
      ensures Looked(out, nodes, order, Ball(DirectedArcs(EdgeSet(edges)), id, if depth >= 1 then depth else 1) - {id})
      ensures Answers(out, nodes, Ball(DirectedArcs(EdgeSet(edges)), id, if depth >= 1 then depth else 1) - {id})
    {
      var limit := AtLeastOne(depth);
      ghost var arcs := DirectedArcs(EdgeSet(edges));
      ghost var universe := Universe(arcs, id);
      ghost var low: nat := 0;
      var seen: map<string, nat> := map[id := 0];
      var queue := [id];
      SearchStarts(arcs, id, limit);
      while |queue| > 0
        invariant Searching(arcs, id, limit, seen, queue, low, {})
        decreases universe - seen.Keys, |queue|
      {
        SearchTakes(arcs, id, limit, seen, queue, low);
        var current := queue[0];
        queue := queue[1..];
        var currentDepth := seen[current];
        low := currentDepth;
        if currentDepth == limit {
          SearchSettles(arcs, id, limit, seen, queue, low, current);
          continue;
        }
        ghost var seen0, queue0 := seen, queue;
        seen, queue := ExpandOut(current, seen, queue, id, limit);
        SearchShrinks(arcs, id, limit, seen0, queue0, current, seen, queue);
        SearchSettles(arcs, id, limit, seen, queue, low, current);
      }
      SearchEnds(arcs, id, limit, seen, low);
      MetExceptRoot(arcs, id, seen);
      out, order := Collect(seen, id);
      LookedAnswers(out, nodes, order, Ball(arcs, id, limit) - {id});
    }

    method ExpandOut(current: string, seen: map<string, nat>, queue: seq<string>, ghost root: string, ghost limit: nat)
      returns (seen': map<string, nat>, queue': seq<string>)
      requires ReadyToExpand(DirectedArcs(EdgeSet(edges)), root, limit, seen, queue, current)
      ensures Expanding(DirectedArcs(EdgeSet(edges)), root, limit, seen, queue, current, seen', queue')
      ensures Heads(DirectedArcs(EdgeSet(edges)), {current}) <= seen'.Keys
    {
      seen', queue' := seen, queue;
      ghost var arcs := DirectedArcs(EdgeSet(edges));
      for i := 0 to |edges|
        invariant Expanding(arcs, root, limit, seen, queue, current, seen', queue')
        invariant Targets(edges[..i], current) <= seen'.Keys
      {
        TargetsOneMore(edges, i, current);
        if edges[i].fromID != current {
          continue;
        }
        ghost var before, waiting := seen', queue';
        assert (current, edges[i].toID) in arcs;
        ExpandingMet(arcs, root, limit, seen, queue, current, before, waiting);
        seen', queue' := Meet(current, seen', queue', edges[i].toID);
        MeetingKeeps(arcs, root, limit, seen, queue, current, before, waiting, edges[i].toID, seen', queue');
      }
      assert edges[..|edges|] == edges;
    }

    /** Nodes within `depth` undirected hops, and one edge for every id crossed to look for them. */
    method BlastRadius(id: string, depth: int) returns (br: BlastRadiusResult, ghost order: seq<string>)
      ensures br.rootNodeID == id && br.depth == (if depth >= 1 then depth else 1) && br.repoID == "demo-repo"
      ensures Looked(br.nodes, nodes, order, Ball(UndirectedArcs(EdgeSet(edges)), id, if depth >= 1 then depth else 1) - {id})
      ensures Distinct(EdgeIds(br.edges))
      ensures CoversTouching(br.edges, edges, Ball(UndirectedArcs(EdgeSet(edges)), id, if depth >= 1 then depth - 1 else 0))
    {
      var limit := AtLeastOne(depth);
      ghost var arcs := UndirectedArcs(EdgeSet(edges));
      var seen, usedEdges := SearchBoth(id, limit);
      MetExceptRoot(arcs, id, seen);
      var outNodes;
      outNodes, order := Collect(seen, id);
      var outEdges := CollectEdges(usedEdges);
      br := BlastRadiusResult(id, limit, outNodes, outEdges, FIXTURE_REPO_ID);
      UsedCovers(usedEdges, edges, Ball(arcs, id, limit - 1), outEdges);
    }

    method SearchBoth(id: string, limit: nat) returns (seen: map<string, nat>, usedEdges: map<string, Edge>)
      requires limit > 0
      ensures seen.Keys == Ball(UndirectedArcs(EdgeSet(edges)), id, limit)
      ensures forall v :: v in seen ==> AtDist(UndirectedArcs(EdgeSet(edges)), id, v, seen[v])
      ensures UsedFor(usedEdges, edges, Ball(UndirectedArcs(EdgeSet(edges)), id, limit - 1))
    {
      ghost var arcs := UndirectedArcs(EdgeSet(edges));
      ghost var universe := Universe(arcs, id);
      ghost var low: nat := 0;
      ghost var expanded: set<string> := {};
      seen := map[id := 0];
      var queue := [id];
      usedEdges := map[];
      SearchStarts(arcs, id, limit);
      while |queue| > 0
        invariant Searching(arcs, id, limit, seen, queue, low, {})
        invariant IsExpanded(expanded, seen, queue, limit)
        invariant UsedFor(usedEdges, edges, expanded)
        decreases universe - seen.Keys, |queue|
      {
        SearchTakes(arcs, id, limit, seen, queue, low);
        ghost var seen0 := seen;
        var current := queue[0];
        assert queue == [current] + queue[1..];
        queue := queue[1..];
        ghost var queue0 := queue;
        var currentDepth := seen[current];
        low := currentDepth;
        if currentDepth == limit {
          ExpandedSkips(expanded, seen, queue, current, limit);
          SearchSettles(arcs, id, limit, seen, queue, low, current);
          continue;
        }
        seen, queue, usedEdges := ExpandBoth(current, seen, queue, usedEdges, expanded, id, limit);
        ExpandedGrows(expanded, seen0, queue0, current, seen, queue, limit);
        expanded := expanded + {current};
        SearchShrinks(arcs, id, limit, seen0, queue0, current, seen, queue);
        SearchSettles(arcs, id, limit, seen, queue, low, current);
      }
      SearchEnds(arcs, id, limit, seen, low);
      InnerBall(arcs, id, limit, seen, expanded);
    }

    method ExpandBoth(current: string, seen: map<string, nat>, queue: seq<string>, usedEdges: map<string, Edge>,
                      ghost expanded: set<string>, ghost root: string, ghost limit: nat)
      returns (seen': map<string, nat>, queue': seq<string>, usedEdges': map<string, Edge>)
      requires ReadyToExpand(UndirectedArcs(EdgeSet(edges)), root, limit, seen, queue, current)
      requires UsedFor(usedEdges, edges, expanded)
      ensures Expanding(UndirectedArcs(EdgeSet(edges)), root, limit, seen, queue, current, seen', queue')
      ensures Heads(UndirectedArcs(EdgeSet(edges)), {current}) <= seen'.Keys
      ensures UsedFor(usedEdges', edges, expanded + {current})
    {
      seen', queue', usedEdges' := seen, queue, usedEdges;
      UsedStarts(usedEdges, edges, expanded, current);
      ghost var arcs := UndirectedArcs(EdgeSet(edges));
      for i := 0 to |edges|
        invariant Expanding(arcs, root, limit, seen, queue, current, seen', queue')
        invariant FarEndsMet(edges[..i], current, seen')
        invariant UsedSoFar(usedEdges', edges, expanded, edges[..i], current)
      {
        ghost var before := seen';
        if Touches(edges[i], current) {
          seen', queue' := CrossEdge(edges[i], current, root, limit, seen, queue, seen', queue');
          UsedOneMore(usedEdges', edges, expanded, i, current);
          usedEdges' := usedEdges'[edges[i].edgeID := edges[i]];
        } else {
          UsedSkips(usedEdges', edges, expanded, i, current);
        }
        FarEndsOneMore(edges, i, current, before, seen');
      }
      assert edges[..|edges|] == edges;
      UsedAll(usedEdges', edges, expanded, current);
      AllFarEndsMet(edges, current, seen');
    }

    method CrossEdge(edge: Edge, current: string, ghost root: string, ghost limit: nat, ghost seen0: map<string, nat>,
                     ghost queue0: seq<string>, seen: map<string, nat>, queue: seq<string>)
      returns (seen': map<string, nat>, queue': seq<string>)
      requires edge in edges && Touches(edge, current)
      requires Expanding(UndirectedArcs(EdgeSet(edges)), root, limit, seen0, queue0, current, seen, queue)
      ensures Expanding(UndirectedArcs(EdgeSet(edges)), root, limit, seen0, queue0, current, seen', queue')
      ensures forall v :: v in seen' <==> v in seen || v == OtherEnd(edge, current)
    {
      var next := if edge.fromID == current then edge.toID else edge.fromID;
      CrossingIsArc(EdgeSet(edges), edge, current);
      ghost var arcs := UndirectedArcs(EdgeSet(edges));
      ExpandingMet(arcs, root, limit, seen0, queue0, current, seen, queue);
      seen', queue' := Meet(current, seen, queue, next);
      MeetingKeeps(arcs, root, limit, seen0, queue0, current, seen, queue, next, seen', queue');
    }

    method CollectEdges(used: map<string, Edge>) returns (out: seq<Edge>)
      requires forall k :: k in used ==> used[k].edgeID == k
      ensures Distinct(EdgeIds(out))
      ensures forall e :: e in out <==> e.edgeID in used && used[e.edgeID] == e
    {
      out := [];
      var rest := used.Keys;
      while rest != {}
        invariant rest <= used.Keys
        invariant Distinct(EdgeIds(out))
        invariant forall e :: e in out <==> e.edgeID in used && e.edgeID !in rest && used[e.edgeID] == e
        decreases rest
      {
        var k :| k in rest;
        rest := rest - {k};
        assert EdgeIds(out + [used[k]]) == EdgeIds(out) + [k];
        out := out + [used[k]];
      }
    }
  }

  const FIXTURE_REPO_ID := "demo-repo"

  function EdgeIds(edges: seq<Edge>): seq<string> {
    seq(|edges|, i requires 0 <= i < |edges| => edges[i].edgeID)
  }

  /** `used` maps edge ids to edges with an end in `ids`, and misses no such id. */
  ghost predicate UsedFor(used: map<string, Edge>, edges: seq<Edge>, ids: set<string>) {
    UsedSoFar(used, edges, ids, [], "")
  }

  predicate Due(e: Edge, ids: set<string>, scanned: seq<Edge>, current: string) {
    e.fromID in ids || e.toID in ids || (e in scanned && Touches(e, current))
  }

  /** `UsedFor`, plus the edges of `scanned` that touch `current`. */
  ghost predicate UsedSoFar(used: map<string, Edge>, edges: seq<Edge>, ids: set<string>, scanned: seq<Edge>, current: string) {
    && (forall k :: k in used ==> used[k].edgeID == k && used[k] in edges && Due(used[k], ids, scanned, current))
    && (forall e :: e in edges && Due(e, ids, scanned, current) ==> e.edgeID in used)
  }

  lemma UsedOneMore(used: map<string, Edge>, edges: seq<Edge>, ids: set<string>, i: nat, current: string)
    requires i < |edges| && Touches(edges[i], current)
    requires UsedSoFar(used, edges, ids, edges[..i], current)
    ensures UsedSoFar(used[edges[i].edgeID := edges[i]], edges, ids, edges[..i + 1], current)
  {
    assert edges[..i + 1] == edges[..i] + [edges[i]];
  }

  lemma UsedSkips(used: map<string, Edge>, edges: seq<Edge>, ids: set<string>, i: nat, current: string)
    requires i < |edges| && !Touches(edges[i], current)
    requires UsedSoFar(used, edges, ids, edges[..i], current)
    ensures UsedSoFar(used, edges, ids, edges[..i + 1], current)
  {
    assert edges[..i + 1] == edges[..i] + [edges[i]];
  }

  /** The vertices whose edges have been followed: met, no longer waiting, and short of the limit. */
  ghost predicate IsExpanded(expanded: set<string>, seen: map<string, nat>, queue: seq<string>, limit: nat) {
    forall v :: v in expanded <==> v in seen && v !in queue && seen[v] < limit
  }

  lemma ExpandedSkips(expanded: set<string>, seen: map<string, nat>, queue: seq<string>, current: string, limit: nat)
    requires IsExpanded(expanded, seen, [current] + queue, limit)
    requires current in seen && seen[current] == limit
    ensures IsExpanded(expanded, seen, queue, limit)
  {
    forall v ensures v in [current] + queue <==> v == current || v in queue {
    }
  }

  lemma ExpandedGrows(expanded: set<string>, seen: map<string, nat>, queue: seq<string>, current: string,
                      seen': map<string, nat>, queue': seq<string>, limit: nat)
    requires IsExpanded(expanded, seen, [current] + queue, limit) && Extends(seen, queue, seen', queue')
    requires current in seen && seen[current] < limit && current !in queue'
    ensures IsExpanded(expanded + {current}, seen', queue', limit)
  {
    forall v ensures v in [current] + queue <==> v == current || v in queue {
    }
    forall v | v in queue ensures v in queue' {
    }
  }

  ghost predicate FarEndsMet(scanned: seq<Edge>, current: string, seen: map<string, nat>) {
    forall e :: e in scanned && Touches(e, current) ==> OtherEnd(e, current) in seen
  }

  lemma FarEndsOneMore(edges: seq<Edge>, i: nat, current: string, seen: map<string, nat>, seen': map<string, nat>)
    requires i < |edges| && FarEndsMet(edges[..i], current, seen)
    requires forall v :: v in seen ==> v in seen'
    requires Touches(edges[i], current) ==> OtherEnd(edges[i], current) in seen'
    ensures FarEndsMet(edges[..i + 1], current, seen')
  {
    assert edges[..i + 1] == edges[..i] + [edges[i]];
  }

  lemma AllFarEndsMet(edges: seq<Edge>, current: string, seen: map<string, nat>)
    requires FarEndsMet(edges, current, seen)
    ensures Heads(UndirectedArcs(EdgeSet(edges)), {current}) <= seen.Keys
  {
    forall a | a in UndirectedArcs(EdgeSet(edges)) && a.0 in {current} ensures a.1 in seen {
      var e := ArcIsCrossing(EdgeSet(edges), a);
    }
  }

  lemma UsedAll(used: map<string, Edge>, edges: seq<Edge>, ids: set<string>, current: string)
    requires UsedSoFar(used, edges, ids, edges, current)
    ensures UsedFor(used, edges, ids + {current})
  {
    forall e | e in edges ensures Due(e, ids, edges, current) <==> Due(e, ids + {current}, [], "") {
    }
  }

  lemma UsedStarts(used: map<string, Edge>, edges: seq<Edge>, ids: set<string>, current: string)
    requires UsedFor(used, edges, ids)
    ensures UsedSoFar(used, edges, ids, [], current)
  {
    forall e ensures Due(e, ids, [], current) <==> Due(e, ids, [], "") {
    }
  }

  /** Every edge returned touches `ids`, and every edge that touches `ids` has its id returned. */
  ghost predicate CoversTouching(out: seq<Edge>, edges: seq<Edge>, ids: set<string>) {
    && (forall e :: e in out ==> e in Touching(EdgeSet(edges), ids))
    && (forall e :: e in Touching(EdgeSet(edges), ids) ==> e.edgeID in EdgeIds(out))
  }

  lemma UsedCovers(used: map<string, Edge>, edges: seq<Edge>, ids: set<string>, out: seq<Edge>)
    requires UsedFor(used, edges, ids)
    requires forall e :: e in out <==> e.edgeID in used && used[e.edgeID] == e
    ensures CoversTouching(out, edges, ids)
  {
    forall e | e in Touching(EdgeSet(edges), ids) ensures e.edgeID in EdgeIds(out) {
      var i :| 0 <= i < |out| && out[i] == used[e.edgeID];
      assert EdgeIds(out)[i] == e.edgeID;
    }
  }

  lemma InnerBallIsExpanded(arcs: set<(string, string)>, root: string, limit: nat, seen: map<string, nat>, v: string)
    requires limit > 0 && v in Ball(arcs, root, limit - 1)
    requires v in Ball(arcs, root, limit) ==> v in seen
    requires v in seen ==> AtDist(arcs, root, v, seen[v])
    ensures v in seen && seen[v] < limit
  {
    InWiderBall(arcs, root, limit - 1, limit, v);
    DepthWithinBall(arcs, root, seen, v, limit - 1);
  }

  lemma ExpandedInInnerBall(arcs: set<(string, string)>, root: string, limit: nat, seen: map<string, nat>, v: string)
    requires v in seen && seen[v] < limit && AtDist(arcs, root, v, seen[v])
    ensures v in Ball(arcs, root, limit - 1)
  {
    InWiderBall(arcs, root, seen[v], limit - 1, v);
  }

  lemma InnerBall(arcs: set<(string, string)>, root: string, limit: nat, seen: map<string, nat>, expanded: set<string>)
    requires limit > 0 && Ball(arcs, root, limit) <= seen.Keys
    requires forall v :: v in seen ==> AtDist(arcs, root, v, seen[v])
    requires IsExpanded(expanded, seen, [], limit)
    ensures expanded == Ball(arcs, root, limit - 1)
  {
    forall v | v in Ball(arcs, root, limit - 1) ensures v in expanded {
      InnerBallIsExpanded(arcs, root, limit, seen, v);
    }
    forall v | v in expanded ensures v in Ball(arcs, root, limit - 1) {
      ExpandedInInnerBall(arcs, root, limit, seen, v);
    }
  }

  // ---------------------------------------------------------------- shared steps

  /** Records `next`, met from `current`, and queues it unless it was met before. */
  method Meet(current: string, seen: map<string, nat>, queue: seq<string>, next: string)
    returns (seen': map<string, nat>, queue': seq<string>)
    requires current in seen
    ensures Meets(seen, queue, current, next, seen', queue')
  {
    if next in seen {
      return seen, queue;
    }
    return seen[next := seen[current] + 1], queue + [next];
  }

  function Targets(edges: seq<Edge>, id: string): set<string> {
    set e | e in edges && e.fromID == id :: e.toID
  }

  lemma TargetsOneMore(edges: seq<Edge>, i: nat, id: string)
    requires i < |edges|
    ensures Targets(edges[..i + 1], id) ==
            Targets(edges[..i], id) + if edges[i].fromID == id then {edges[i].toID} else {}
  {
    assert edges[..i + 1] == edges[..i] + [edges[i]];
  }

  lemma MetExceptRoot(arcs: set<(string, string)>, root: string, seen: map<string, nat>)
    requires forall v :: v in seen ==> AtDist(arcs, root, v, seen[v])
    ensures (set v | v in seen && v != root && seen[v] != 0) == seen.Keys - {root}
  {
    forall v | v in seen && v != root ensures seen[v] != 0 {
      assert AtDist(arcs, root, v, seen[v]);
    }
  }

  // ---------------------------------------------------------------- agreement of the two stores

  /** On edges with different ids, covering what touches `ids` means returning exactly that. */
  lemma UniqueIdsCoverExactly(out: seq<Edge>, edges: seq<Edge>, ids: set<string>)
    requires Distinct(EdgeIds(edges)) && Distinct(EdgeIds(out)) && CoversTouching(out, edges, ids)
    ensures Distinct(out) && forall e :: e in out <==> e in Touching(EdgeSet(edges), ids)
  {
    forall i, j | 0 <= i < j < |out| ensures out[i] != out[j] {
      assert EdgeIds(out)[i] != EdgeIds(out)[j];
    }
    forall e | e in Touching(EdgeSet(edges), ids) ensures e in out {
      var i :| 0 <= i < |out| && EdgeIds(out)[i] == e.edgeID;
      assert out[i] in Touching(EdgeSet(edges), ids);
      assert out[i] in edges && e in edges;
      var x :| 0 <= x < |edges| && edges[x] == out[i];
      var y :| 0 <= y < |edges| && edges[y] == e;
      assert EdgeIds(edges)[x] == EdgeIds(edges)[y];
    }
  }

  /** The two node lists hold the same nodes exactly when every vertex met is a stored node. */
  lemma NodesAgree(listed: seq<Node>, looked: seq<Node>, order: seq<string>, nodes: map<string, Node>, ids: set<string>)
    requires forall k :: k in nodes ==> nodes[k].nodeID == k && k != ""
    requires ListsStored(listed, nodes, ids) && Looked(looked, nodes, order, ids)
    ensures (forall n :: n in listed <==> n in looked) <==> ids <= nodes.Keys
  {
    forall v | v in ids ensures NodeOrZero(nodes, v) in looked {
      var i :| 0 <= i < |order| && order[i] == v;
      assert looked[i] == NodeOrZero(nodes, v);
    }
    if ids <= nodes.Keys {
      forall n | n in looked ensures n in listed {
        var i :| 0 <= i < |looked| && looked[i] == n;
        assert order[i] in ids && n == nodes[order[i]];
      }
      forall n | n in listed ensures n in looked {
        assert NodeOrZero(nodes, n.nodeID) in looked;
      }
    } else {
      var v :| v in ids && v !in nodes;
      assert ZERO_NODE in looked && ZERO_NODE !in listed;
    }
  }

  /** Level by level or with a queue: on a graph with stored endpoints and different edge ids, the
      two implementations return the same nodes and the same edges for every root and depth. */
  lemma TwoImplementationsAgree(byLevel: BlastRadiusResult, byQueue: BlastRadiusResult, order: seq<string>,
                                nodes: map<string, Node>, edges: seq<Edge>, root: string, depth: int)
    requires 1 <= depth <= 5
    requires forall k :: k in nodes ==> nodes[k].nodeID == k && k != ""
    requires Distinct(EdgeIds(edges)) && forall e :: e in edges ==> e.fromID in nodes && e.toID in nodes
    requires IsBlastRadius(byLevel, nodes, EdgeSet(edges), root, depth)
    requires Looked(byQueue.nodes, nodes, order, Ball(UndirectedArcs(EdgeSet(edges)), root, depth) - {root})
    requires Distinct(EdgeIds(byQueue.edges))
    requires CoversTouching(byQueue.edges, edges, Ball(UndirectedArcs(EdgeSet(edges)), root, depth - 1))
    ensures forall n :: n in byLevel.nodes <==> n in byQueue.nodes
    ensures forall e :: e in byLevel.edges <==> e in byQueue.edges
    ensures |byLevel.nodes| == |byQueue.nodes| && |byLevel.edges| == |byQueue.edges|
  {
    var arcs := UndirectedArcs(EdgeSet(edges));
    forall v | v in Ball(arcs, root, depth) - {root} ensures v in nodes {
      BallInUniverse(arcs, root, depth);
      var a :| a in arcs && a.1 == v;
      var e := ArcIsCrossing(EdgeSet(edges), a);
    }
    NodesAgree(byLevel.nodes, byQueue.nodes, order, nodes, Ball(arcs, root, depth) - {root});
    UniqueIdsCoverExactly(byQueue.edges, edges, Ball(arcs, root, depth - 1));
    SameMultiset(byLevel.edges, byQueue.edges);
    SameMultiset(byLevel.nodes, byQueue.nodes) by {
      forall i, j | 0 <= i < j < |byQueue.nodes| ensures byQueue.nodes[i] != byQueue.nodes[j] {
        assert order[i] in nodes && order[j] in nodes;
      }
    }
  }

  /** The same for the directed queries, whether or not edge ids repeat. */
  lemma DependentsAgree(byLevel: seq<Node>, byQueue: seq<Node>, order: seq<string>, nodes: map<string, Node>,
                        edges: seq<Edge>, root: string, depth: int)
    requires 1 <= depth <= 5
    requires forall k :: k in nodes ==> nodes[k].nodeID == k && k != ""
    requires forall e :: e in edges ==> e.fromID in nodes && e.toID in nodes
    requires ListsStored(byLevel, nodes, Ball(DirectedArcs(EdgeSet(edges)), root, depth) - {root})
    requires Looked(byQueue, nodes, order, Ball(DirectedArcs(EdgeSet(edges)), root, depth) - {root})
    ensures forall n :: n in byLevel <==> n in byQueue
    ensures |byLevel| == |byQueue|
  {
    var arcs := DirectedArcs(EdgeSet(edges));
    forall v | v in Ball(arcs, root, depth) - {root} ensures v in nodes {
      BallInUniverse(arcs, root, depth);
      var a :| a in arcs && a.1 == v;
      var e :| e in EdgeSet(edges) && (e.fromID, e.toID) == a;
    }
    NodesAgree(byLevel, byQueue, order, nodes, Ball(arcs, root, depth) - {root});
    SameMultiset(byLevel, byQueue) by {
      forall i, j | 0 <= i < j < |byQueue| ensures byQueue[i] != byQueue[j] {
        assert order[i] in nodes && order[j] in nodes;
      }
    }
  }
}
