/** The search that builds the tree, as a function of the list of edges, and the loops that compute it. */
module TreeSearch {
  import opened Prelude
  import opened Ordering
  import opened Reachability
  import opened GraphTypes
  import opened ImpactTree

  // ---------------------------------------------------------------- the search as a function of the edge list

  datatype Search = Search(depths: map<string, nat>, parent: map<string, string>, parentEdge: map<string, Edge>, queue: seq<string>)

  /** The edges at `v`, in the order of the list; one from `v` to itself comes twice. */
  function AdjacentTo(edges: seq<Edge>, v: string): (adjacent: seq<Edge>)
    ensures forall e :: e in adjacent <==> e in edges && Touches(e, v)
  {
    if |edges| == 0 then []
    else
      var before, e := AdjacentTo(edges[..|edges| - 1], v), edges[|edges| - 1];
      assert edges == edges[..|edges| - 1] + [e];
      if e.fromID == v && e.toID == v then before + [e, e]
      else if e.fromID == v || e.toID == v then before + [e]
      else before
  }

  /** `e`, followed from `cur`: nothing happens if its other end was met before. */
  function Follow(s: Search, cur: string, e: Edge): Search
    requires cur in s.depths && Touches(e, cur)
  {
    var next := OtherEnd(e, cur);
    if next in s.depths then s
    else Search(s.depths[next := s.depths[cur] + 1], s.parent[next := cur], s.parentEdge[next := e], s.queue + [next])
  }

  function Scan(s: Search, cur: string, adjacent: seq<Edge>): (r: Search)
    requires cur in s.depths && forall e :: e in adjacent ==> Touches(e, cur)
    ensures cur in r.depths
  {
    if |adjacent| == 0 then s
    else
      var last := adjacent[|adjacent| - 1];
      assert last in adjacent;
      Follow(Scan(s, cur, adjacent[..|adjacent| - 1]), cur, last)
  }

  /** The head of the queue is taken out and all its edges are followed. */
  function Expand(s: Search, edges: seq<Edge>): Search
    requires |s.queue| > 0 && s.queue[0] in s.depths
  {
    Scan(s.(queue := s.queue[1..]), s.queue[0], AdjacentTo(edges, s.queue[0]))
  }

  function Start(root: string): Search {
    Search(map[root := 0], map[], map[], [root])
  }

  /** The state after at most `k` vertices have been expanded. */
  function After(root: string, edges: seq<Edge>, k: nat): Search {
    if k == 0 then Start(root)
    else
      var s := After(root, edges, k - 1);
      if |s.queue| > 0 && s.queue[0] in s.depths then Expand(s, edges) else s
  }

  // ---------------------------------------------------------------- every state of the search is sound

  ghost predicate Sound(s: Search, root: string, edges: seq<Edge>) {
    && Tree(EdgeSet(edges), root, s.depths, s.parent, s.parentEdge)
    && exists low: nat :: Searching(UndirectedArcs(EdgeSet(edges)), root, -1, s.depths, s.queue, low, {})
  }

  lemma FollowMeets(s: Search, cur: string, e: Edge)
    requires cur in s.depths && Touches(e, cur)
    ensures var r := Follow(s, cur, e);
            && Meets(s.depths, s.queue, cur, OtherEnd(e, cur), r.depths, r.queue)
            && OtherEnd(e, cur) in r.depths && forall v :: v in s.depths ==> v in r.depths
  {
  }

  lemma FollowKeepsTree(edges: set<Edge>, root: string, s: Search, cur: string, e: Edge)
    requires Tree(edges, root, s.depths, s.parent, s.parentEdge)
    requires cur in s.depths && e in edges && Touches(e, cur)
    ensures var r := Follow(s, cur, e); Tree(edges, root, r.depths, r.parent, r.parentEdge)
  {
    if OtherEnd(e, cur) !in s.depths {
      TreeGrows(edges, root, s.depths, s.parent, s.parentEdge, cur, OtherEnd(e, cur), e);
    }
  }

  lemma {:induction false} ScanKeepsTree(edges: set<Edge>, root: string, s: Search, cur: string, adjacent: seq<Edge>)
    requires Tree(edges, root, s.depths, s.parent, s.parentEdge)
    requires cur in s.depths && forall e :: e in adjacent ==> e in edges && Touches(e, cur)
    ensures var r := Scan(s, cur, adjacent); Tree(edges, root, r.depths, r.parent, r.parentEdge)
  {
    if |adjacent| > 0 {
      var init, last := adjacent[..|adjacent| - 1], adjacent[|adjacent| - 1];
      assert adjacent == init + [last];
      ScanKeepsTree(edges, root, s, cur, init);
      FollowKeepsTree(edges, root, Scan(s, cur, init), cur, last);
    }
  }

  lemma {:induction false} ScanMeets(s: Search, cur: string, adjacent: seq<Edge>)
    requires cur in s.depths && forall e :: e in adjacent ==> Touches(e, cur)
    ensures forall e :: e in adjacent ==> OtherEnd(e, cur) in Scan(s, cur, adjacent).depths
  {
    if |adjacent| > 0 {
      var init, last := adjacent[..|adjacent| - 1], adjacent[|adjacent| - 1];
      assert adjacent == init + [last];
      ScanMeets(s, cur, init);
      FollowMeets(Scan(s, cur, init), cur, last);
    }
  }

  /** `r` is `s` with some of the arcs of `cur` followed. */
  ghost predicate PartlyScanned(arcs: set<(string, string)>, root: string, s: Search, cur: string, r: Search) {
    Expanding(arcs, root, -1, s.depths, s.queue, cur, r.depths, r.queue)
  }

  ghost predicate AreArcs(arcs: set<(string, string)>, cur: string, adjacent: seq<Edge>) {
    forall e :: e in adjacent ==> Touches(e, cur) && (cur, OtherEnd(e, cur)) in arcs
  }

  lemma {:induction false} ScanExpands(arcs: set<(string, string)>, root: string, s: Search, cur: string, adjacent: seq<Edge>)
    requires PartlyScanned(arcs, root, s, cur, s) && cur in s.depths && AreArcs(arcs, cur, adjacent)
    ensures PartlyScanned(arcs, root, s, cur, Scan(s, cur, adjacent))
  {
    if |adjacent| == 0 {
      return;
    }
    var init, last := adjacent[..|adjacent| - 1], adjacent[|adjacent| - 1];
    assert last in adjacent;
    ScanExpands(arcs, root, s, cur, init);
    FollowExpands(arcs, root, s, Scan(s, cur, init), cur, last);
  }

  lemma FollowExpands(arcs: set<(string, string)>, root: string, s: Search, sofar: Search, cur: string, e: Edge)
    requires cur in sofar.depths && Touches(e, cur) && (cur, OtherEnd(e, cur)) in arcs
    requires PartlyScanned(arcs, root, s, cur, sofar)
    ensures PartlyScanned(arcs, root, s, cur, Follow(sofar, cur, e))
  {
    var r := Follow(sofar, cur, e);
    FollowMeets(sofar, cur, e);
    MeetingKeeps(arcs, root, -1, s.depths, s.queue, cur, sofar.depths, sofar.queue, OtherEnd(e, cur), r.depths, r.queue);
  }

  lemma AdjacentAreArcs(edges: set<Edge>, cur: string, adjacent: seq<Edge>)
    requires forall e :: e in adjacent ==> e in edges && Touches(e, cur)
    ensures AreArcs(UndirectedArcs(edges), cur, adjacent)
  {
    forall e | e in adjacent ensures (cur, OtherEnd(e, cur)) in UndirectedArcs(edges) {
      CrossingIsArc(edges, e, cur);
    }
  }

  lemma HeadsMet(edges: set<Edge>, cur: string, adjacent: seq<Edge>, depths: map<string, nat>)
    requires forall e :: e in edges && Touches(e, cur) ==> e in adjacent
    requires forall e :: e in adjacent ==> Touches(e, cur) && OtherEnd(e, cur) in depths
    ensures Heads(UndirectedArcs(edges), {cur}) <= depths.Keys
  {
    forall a | a in UndirectedArcs(edges) && a.0 == cur ensures a.1 in depths {
      var e := ArcIsCrossing(edges, a);
    }
  }

  lemma ExpandKeeps(s: Search, root: string, edges: seq<Edge>, low: nat) returns (low': nat)
    requires Tree(EdgeSet(edges), root, s.depths, s.parent, s.parentEdge) && |s.queue| > 0 && s.queue[0] in s.depths
    requires Searching(UndirectedArcs(EdgeSet(edges)), root, -1, s.depths, s.queue, low, {})
    ensures var r := Expand(s, edges);
            && Tree(EdgeSet(edges), root, r.depths, r.parent, r.parentEdge)
            && Searching(UndirectedArcs(EdgeSet(edges)), root, -1, r.depths, r.queue, low', {})
  {
    var arcs, cur := UndirectedArcs(EdgeSet(edges)), s.queue[0];
    var adjacent, popped := AdjacentTo(edges, cur), s.(queue := s.queue[1..]);
    SearchTakes(arcs, root, -1, s.depths, s.queue, low);
    ScanKeepsTree(EdgeSet(edges), root, popped, cur, adjacent);
    ExpandStarts(arcs, root, -1, popped.depths, popped.queue, cur);
    AdjacentAreArcs(EdgeSet(edges), cur, adjacent);
    ScanExpands(arcs, root, popped, cur, adjacent);
    ScanMeets(popped, cur, adjacent);
    var r := Scan(popped, cur, adjacent);
    HeadsMet(EdgeSet(edges), cur, adjacent, r.depths);
    ExpandingMet(arcs, root, -1, popped.depths, popped.queue, cur, r.depths, r.queue);
    low' := s.depths[cur];
    SearchSettles(arcs, root, -1, r.depths, r.queue, low', cur);
  }

  lemma QueueMet(s: Search, root: string, edges: seq<Edge>)
    requires Sound(s, root, edges)
    ensures root in s.depths && s.depths[root] == 0
    ensures forall i :: 0 <= i < |s.queue| ==> s.queue[i] in s.depths
  {
    var low: nat :| Searching(UndirectedArcs(EdgeSet(edges)), root, -1, s.depths, s.queue, low, {});
  }

  lemma DepthsAreTrue(s: Search, root: string, edges: seq<Edge>, v: string)
    requires Sound(s, root, edges) && v in s.depths
    ensures AtDist(UndirectedArcs(EdgeSet(edges)), root, v, s.depths[v])
  {
    var low: nat :| Searching(UndirectedArcs(EdgeSet(edges)), root, -1, s.depths, s.queue, low, {});
  }

  lemma {:induction false} AfterIsSound(root: string, edges: seq<Edge>, k: nat)
    ensures Sound(After(root, edges, k), root, edges)
  {
    var arcs := UndirectedArcs(EdgeSet(edges));
    if k == 0 {
      SearchStarts(arcs, root, -1);
      assert Searching(arcs, root, -1, Start(root).depths, Start(root).queue, 0, {});
    } else {
      AfterIsSound(root, edges, k - 1);
      var s := After(root, edges, k - 1);
      if |s.queue| > 0 && s.queue[0] in s.depths {
        var low: nat :| Searching(arcs, root, -1, s.depths, s.queue, low, {});
        var low' := ExpandKeeps(s, root, edges, low);
      }
    }
  }

  // ---------------------------------------------------------------- the search ends

  lemma {:induction false} ScanCounts(s: Search, cur: string, adjacent: seq<Edge>)
    requires cur in s.depths && forall e :: e in adjacent ==> Touches(e, cur)
    ensures var r := Scan(s, cur, adjacent); |r.depths| - |s.depths| == |r.queue| - |s.queue|
  {
    if |adjacent| > 0 {
      var init, last := adjacent[..|adjacent| - 1], adjacent[|adjacent| - 1];
      ScanCounts(s, cur, init);
      assert last in adjacent;
      FollowCounts(Scan(s, cur, init), cur, last);
    }
  }

  lemma FollowCounts(s: Search, cur: string, e: Edge)
    requires cur in s.depths && Touches(e, cur)
    ensures var r := Follow(s, cur, e); |r.depths| - |s.depths| == |r.queue| - |s.queue|
  {
    var next := OtherEnd(e, cur);
    if next !in s.depths {
      assert s.depths[next := s.depths[cur] + 1].Keys == s.depths.Keys + {next};
      assert |s.depths[next := s.depths[cur] + 1].Keys| == |s.depths.Keys| + 1;
    }
  }

  lemma StartCounts(root: string)
    ensures |Start(root).depths| == 1
  {
    assert Start(root).depths.Keys == {root};
  }

  lemma HeadMet(root: string, edges: seq<Edge>, k: nat)
    ensures var s := After(root, edges, k); |s.queue| > 0 ==> s.queue[0] in s.depths
  {
    AfterIsSound(root, edges, k);
    QueueMet(After(root, edges, k), root, edges);
  }

  /** While vertices wait, each of those met has either been expanded, one in each step, or waits still. */
  ghost predicate Counted(s: Search, k: nat) {
    |s.queue| > 0 ==> |s.depths| == k + |s.queue|
  }

  lemma {:induction false} AfterCounts(root: string, edges: seq<Edge>, k: nat)
    ensures Counted(After(root, edges, k), k)
  {
    if k == 0 {
      StartCounts(root);
      return;
    }
    AfterCounts(root, edges, k - 1);
    HeadMet(root, edges, k - 1);
    NextCounts(After(root, edges, k - 1), After(root, edges, k), edges, k - 1);
  }

  lemma NextCounts(s: Search, r: Search, edges: seq<Edge>, k: nat)
    requires Counted(s, k) && (|s.queue| > 0 ==> s.queue[0] in s.depths)
    requires r == if |s.queue| > 0 && s.queue[0] in s.depths then Expand(s, edges) else s
    ensures Counted(r, k + 1)
  {
    if |s.queue| > 0 {
      ScanCounts(s.(queue := s.queue[1..]), s.queue[0], AdjacentTo(edges, s.queue[0]));
    }
  }

  /** As many steps as there are vertices are enough. */
  function Enough(root: string, edges: seq<Edge>): nat {
    |Universe(UndirectedArcs(EdgeSet(edges)), root)|
  }

  function Final(root: string, edges: seq<Edge>): Search {
    After(root, edges, Enough(root, edges))
  }

  lemma FinalIsDone(root: string, edges: seq<Edge>)
    ensures Final(root, edges).queue == [] && Sound(Final(root, edges), root, edges)
  {
    var s, arcs := Final(root, edges), UndirectedArcs(EdgeSet(edges));
    AfterIsSound(root, edges, Enough(root, edges));
    AfterCounts(root, edges, Enough(root, edges));
    forall v | v in s.depths ensures AtDist(arcs, root, v, s.depths[v]) {
      DepthsAreTrue(s, root, edges, v);
    }
    MetInUniverse(arcs, root, s.depths);
    SubsetCount(s.depths.Keys, Universe(arcs, root));
  }

  /** Once nothing waits, nothing changes. */
  lemma {:induction false} DoneIsFinal(root: string, edges: seq<Edge>, j: nat, k: nat)
    requires j <= k && After(root, edges, j).queue == []
    ensures After(root, edges, k) == After(root, edges, j)
    decreases k
  {
    if j == k {
      return;
    }
    DoneIsFinal(root, edges, j, k - 1);
  }

  lemma DoneOnce(root: string, edges: seq<Edge>, j: nat)
    requires After(root, edges, j).queue == []
    ensures After(root, edges, j) == Final(root, edges)
  {
    FinalIsDone(root, edges);
    var n := Enough(root, edges);
    if j <= n {
      DoneIsFinal(root, edges, j, n);
    } else {
      DoneIsFinal(root, edges, n, j);
    }
  }

  /** While vertices wait, the next step expands the first of them, and the end is nearer. */
  lemma NextStep(root: string, edges: seq<Edge>, j: nat)
    requires After(root, edges, j).queue != []
    ensures j < Enough(root, edges)
    ensures var s := After(root, edges, j); s.queue[0] in s.depths && After(root, edges, j + 1) == Expand(s, edges)
  {
    AfterIsSound(root, edges, j);
    QueueMet(After(root, edges, j), root, edges);
    NotDoneYet(root, edges, j);
  }

  lemma NotDoneYet(root: string, edges: seq<Edge>, j: nat)
    requires After(root, edges, j).queue != []
    ensures j < Enough(root, edges)
  {
    FinalIsDone(root, edges);
    if Enough(root, edges) <= j {
      DoneIsFinal(root, edges, Enough(root, edges), j);
    }
  }

  // ---------------------------------------------------------------- the loops

  /** Adjacency lists, holding an edge under each of its ends, in the order of the list. */
  ghost predicate Adjacency(adj: map<string, seq<Edge>>, edges: seq<Edge>) {
    forall v :: AdjacentTo(edges, v) == EdgesUnder(adj, v)
  }

  function EdgesUnder(adj: map<string, seq<Edge>>, v: string): seq<Edge> {
    if v in adj then adj[v] else []
  }

  function Append(adj: map<string, seq<Edge>>, id: string, e: Edge): map<string, seq<Edge>> {
    adj[id := EdgesUnder(adj, id) + [e]]
  }

  lemma AdjacencyGrows(adj: map<string, seq<Edge>>, edges: seq<Edge>, e: Edge)
    requires Adjacency(adj, edges)
    ensures Adjacency(Append(Append(adj, e.fromID, e), e.toID, e), edges + [e])
  {
    var adj' := Append(Append(adj, e.fromID, e), e.toID, e);
    assert (edges + [e])[..|edges|] == edges;
    forall v ensures AdjacentTo(edges + [e], v) == EdgesUnder(adj', v) {
      assert AdjacentTo(edges, v) == EdgesUnder(adj, v);
      if e.fromID == v && e.toID == v {
        assert EdgesUnder(adj, v) + [e] + [e] == EdgesUnder(adj, v) + [e, e];
      }
    }
  }

  /** `outgoing` counts, for each vertex that has some, the edges that leave it. */
  ghost predicate Counts(outgoing: map<string, nat>, edges: seq<Edge>) {
    forall id :: OutCount(edges, id) == if id in outgoing then outgoing[id] else 0
  }

  method BuildAdjacency(edges: seq<Edge>) returns (adj: map<string, seq<Edge>>, outgoing: map<string, nat>)
    ensures Adjacency(adj, edges) && Counts(outgoing, edges)
  {
    adj, outgoing := map[], map[];
    for i := 0 to |edges|
      invariant Adjacency(adj, edges[..i]) && Counts(outgoing, edges[..i])
    {
      var e := edges[i];
      assert edges[..i + 1] == edges[..i] + [e] && edges[..i + 1][..i] == edges[..i];
      AdjacencyGrows(adj, edges[..i], e);
      adj := Append(Append(adj, e.fromID, e), e.toID, e);
      outgoing := outgoing[e.fromID := (if e.fromID in outgoing then outgoing[e.fromID] else 0) + 1];
    }
    assert edges[..|edges|] == edges;
  }

  /** Follows the edges of one vertex, recording how each new vertex was met. */
  method ExpandTree(cur: string, adjacent: seq<Edge>, depths: map<string, nat>, parent: map<string, string>,
                    parentEdge: map<string, Edge>, queue: seq<string>)
    returns (depths': map<string, nat>, parent': map<string, string>, parentEdge': map<string, Edge>, queue': seq<string>)
    requires cur in depths && forall e :: e in adjacent ==> Touches(e, cur)
    ensures Search(depths', parent', parentEdge', queue') == Scan(Search(depths, parent, parentEdge, queue), cur, adjacent)
  {
    ghost var s := Search(depths, parent, parentEdge, queue);
    depths', parent', parentEdge', queue' := depths, parent, parentEdge, queue;
    for i := 0 to |adjacent|
      invariant forall e :: e in adjacent[..i] ==> Touches(e, cur)
      invariant Search(depths', parent', parentEdge', queue') == Scan(s, cur, adjacent[..i])
    {
      assert adjacent[..i + 1] == adjacent[..i] + [adjacent[i]];
      ScanOneMore(s, cur, adjacent[..i], adjacent[i]);
      depths', parent', parentEdge', queue' := FollowEdge(cur, adjacent[i], depths', parent', parentEdge', queue');
    }
    assert adjacent[..|adjacent|] == adjacent;
  }

  method FollowEdge(cur: string, e: Edge, depths: map<string, nat>, parent: map<string, string>,
                    parentEdge: map<string, Edge>, queue: seq<string>)
    returns (depths': map<string, nat>, parent': map<string, string>, parentEdge': map<string, Edge>, queue': seq<string>)
    requires cur in depths && Touches(e, cur)
    ensures Search(depths', parent', parentEdge', queue') == Follow(Search(depths, parent, parentEdge, queue), cur, e)
  {
    var next := e.toID;
    if next == cur {
      next := e.fromID;
    }
    if next in depths {
      return depths, parent, parentEdge, queue;
    }
    return depths[next := depths[cur] + 1], parent[next := cur], parentEdge[next := e], queue + [next];
  }

  lemma ScanOneMore(s: Search, cur: string, adjacent: seq<Edge>, e: Edge)
    requires cur in s.depths && (forall x :: x in adjacent ==> Touches(x, cur)) && Touches(e, cur)
    ensures Scan(s, cur, adjacent + [e]) == Follow(Scan(s, cur, adjacent), cur, e)
  {
    assert (adjacent + [e])[..|adjacent|] == adjacent;
  }

  /** The search tree from `rootID` over the edge list. */
  method SearchTree(rootID: string, edges: seq<Edge>, adj: map<string, seq<Edge>>)
    returns (depths: map<string, nat>, parent: map<string, string>, parentEdge: map<string, Edge>, ghost low: nat)
    requires Adjacency(adj, edges)
    ensures Search(depths, parent, parentEdge, []) == Final(rootID, edges)
    ensures Searching(UndirectedArcs(EdgeSet(edges)), rootID, -1, depths, [], low, {})
    ensures Tree(EdgeSet(edges), rootID, depths, parent, parentEdge)
  {
    depths, parent, parentEdge := map[rootID := 0], map[], map[];
    var queue := [rootID];
    ghost var k: nat := 0;
    while |queue| > 0
      invariant Search(depths, parent, parentEdge, queue) == After(rootID, edges, k)
      decreases Enough(rootID, edges) - k
    {
      NextStep(rootID, edges, k);
      var cur := queue[0];
      assert AdjacentTo(edges, cur) == EdgesUnder(adj, cur);
      queue := queue[1..];
      depths, parent, parentEdge, queue := ExpandTree(cur, EdgesUnder(adj, cur), depths, parent, parentEdge, queue);
      k := k + 1;
    }
    DoneOnce(rootID, edges, k);
    low := FinalSearching(rootID, edges);
  }

  lemma FinalSearching(root: string, edges: seq<Edge>) returns (low: nat)
    ensures var s := Final(root, edges);
            && s.queue == [] && Tree(EdgeSet(edges), root, s.depths, s.parent, s.parentEdge)
            && Searching(UndirectedArcs(EdgeSet(edges)), root, -1, s.depths, [], low, {})
  {
    FinalIsDone(root, edges);
    var s := Final(root, edges);
    low :| Searching(UndirectedArcs(EdgeSet(edges)), root, -1, s.depths, s.queue, low, {});
  }

  // ---------------------------------------------------------------- the whole of impactMetadata

  /** The tier that the order of the edge list gives to `v`. */
  ghost function TierIn(edges: seq<Edge>, root: string, v: string): Tier
    requires v in Final(root, edges).depths
  {
    FinalIsDone(root, edges);
    var s := Final(root, edges);
    TierOf(LabelsOf(Climb(EdgeSet(edges), root, s.depths, s.parent, s.parentEdge, v)))
  }

  /** Whatever the order, it is read off the climb along a shortest walk. */
  lemma TierInIsOnClimb(edges: seq<Edge>, root: string, v: string)
    requires v in Final(root, edges).depths
    ensures TierOnClimb(EdgeSet(edges), root, v, Final(root, edges).depths[v], TierIn(edges, root, v))
  {
    var s := Final(root, edges);
    FinalIsDone(root, edges);
    QueueMet(s, root, edges);
    DepthsAreTrue(s, root, edges, v);
    var es := Chain(EdgeSet(edges), root, s.depths, s.parent, s.parentEdge, v);
    assert EdgeWalk(EdgeSet(edges), root, v, es) && |es| == s.depths[v];
  }

  /** Depth, tier and out-degree of everything the edge list reaches from `rootID`. */
  method ImpactMetadata(rootID: string, edges: seq<Edge>)
    returns (depths: map<string, nat>, tierByNode: map<string, Tier>, outgoing: map<string, nat>, ghost low: nat)
    ensures depths == Final(rootID, edges).depths
    ensures Searching(UndirectedArcs(EdgeSet(edges)), rootID, -1, depths, [], low, {})
    ensures forall v :: v in tierByNode <==> v in depths && v != rootID
    ensures forall v :: v in tierByNode ==>
              tierByNode[v] == TierIn(edges, rootID, v) && TierOnClimb(EdgeSet(edges), rootID, v, depths[v], tierByNode[v])
    ensures Counts(outgoing, edges)
  {
    var adj, parent, parentEdge;
    adj, outgoing := BuildAdjacency(edges);
    depths, parent, parentEdge, low := SearchTree(rootID, edges, adj);
    tierByNode := map[];
    var rest := depths.Keys;
    while rest != {}
      invariant rest <= depths.Keys
      invariant forall v :: v in tierByNode <==> v in depths && v !in rest && v != rootID
      invariant forall v :: v in tierByNode ==>
                  tierByNode[v] == TierIn(edges, rootID, v) && TierOnClimb(EdgeSet(edges), rootID, v, depths[v], tierByNode[v])
      decreases rest
    {
      var v :| v in rest;
      rest := rest - {v};
      if v == rootID {
        continue;
      }
      var tier := ClassifyTier(v, parent, parentEdge, rootID, EdgeSet(edges), depths);
      TierInIsOnClimb(edges, rootID, v);
      tierByNode := tierByNode[v := tier];
    }
  }
}
