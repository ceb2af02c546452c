/** Reverse reachability over an index built at load time, where the start may be met again. */
module DependentsIndex {
  import opened Prelude
  import opened Ordering
  import opened Reachability

  datatype GNode = GNode(id: string, kind: string, name: string)

  datatype GEdge = GEdge(id: string, kind: string, src: string, dst: string, confidence: string)

  datatype Reachable = Reachable(node: GNode, depth: nat, viaType: string, confidence: string)

  /** A queued node with the depth it was met at. */
  datatype Item = Item(id: string, d: nat)

  const ZERO_NODE := GNode("", "", "")

  /** Vertices of the search: the query itself is a vertex of its own, so that the node it asks
      about can be met again. */
  type Vertex = Option<string>

  /** Arcs against the direction of the edges, starting from the query. */
  function ReverseArcs(edges: set<GEdge>, id: string): set<(Vertex, Vertex)> {
    (set e | e in edges && e.dst == id :: (None, Some(e.src))) + (set e | e in edges :: (Some(e.dst), Some(e.src)))
  }

  function EdgeSet(edges: seq<GEdge>): set<GEdge> {
    set e | e in edges
  }

  /** A dependency path: each edge of `es` ends where the next one starts, the last at `id`. */
  ghost predicate DependencyPath(edges: set<GEdge>, v: string, id: string, es: seq<GEdge>) {
    && |es| > 0 && (forall e :: e in es ==> e in edges)
    && es[0].src == v && es[|es| - 1].dst == id
    && forall i, j :: 0 <= i && j == i + 1 && j < |es| ==> es[i].dst == es[j].src
  }

  // ---------------------------------------------------------------- distances are path lengths

  lemma {:induction false} PathReaches(edges: set<GEdge>, v: string, id: string, es: seq<GEdge>)
    requires DependencyPath(edges, v, id, es)
    ensures Some(v) in Ball(ReverseArcs(edges, id), None, |es|)
    decreases |es|
  {
    var arcs := ReverseArcs(edges, id);
    assert es[0] in edges;
    if |es| == 1 {
      var a: (Vertex, Vertex) := (None, Some(v));
      assert a in arcs && a.0 in Ball(arcs, None, 0);
      assert a.1 in Heads(arcs, Ball(arcs, None, 0));
    } else {
      PathReaches(edges, es[1].src, id, es[1..]);
      var a: (Vertex, Vertex) := (Some(es[0].dst), Some(v));
      assert a in arcs;
      assert a.1 in Heads(arcs, Ball(arcs, None, |es| - 1));
    }
  }

  lemma OneEdgePath(edges: set<GEdge>, e: GEdge)
    requires e in edges
    ensures DependencyPath(edges, e.src, e.dst, [e])
  {
  }

  /** A walk out of the query is a dependency path read backwards. */
  lemma {:induction false} PathOfWalk(edges: set<GEdge>, v: string, id: string, p: seq<Vertex>) returns (es: seq<GEdge>)
    requires WalkTo(ReverseArcs(edges, id), None, Some(v), p)
    ensures DependencyPath(edges, v, id, es) && |es| <= |p| - 1
    decreases |p|
  {
    var u := p[|p| - 2];
    assert (p[|p| - 2], p[|p| - 2 + 1]) in ReverseArcs(edges, id);
    var e := EdgeOfArc(edges, id, u, v);
    if u.None? {
      es := [e];
      OneEdgePath(edges, e);
    } else {
      var rest := PathOfWalk(edges, u.value, id, p[..|p| - 1]);
      es := [e] + rest;
      PathLengthens(edges, e, id, rest);
    }
  }

  lemma ReachedByPath(edges: set<GEdge>, v: string, id: string, n: nat) returns (es: seq<GEdge>)
    requires Some(v) in Ball(ReverseArcs(edges, id), None, n)
    ensures DependencyPath(edges, v, id, es) && |es| <= n
  {
    var p := BallHasWalk(ReverseArcs(edges, id), None, Some(v), n);
    es := PathOfWalk(edges, v, id, p);
  }

  lemma PathLengthens(edges: set<GEdge>, e: GEdge, id: string, rest: seq<GEdge>)
    requires e in edges && DependencyPath(edges, e.dst, id, rest)
    ensures DependencyPath(edges, e.src, id, [e] + rest)
  {
  }

  lemma EdgeOfArc(edges: set<GEdge>, id: string, u: Vertex, v: string) returns (e: GEdge)
    requires (u, Some(v)) in ReverseArcs(edges, id)
    ensures e in edges && e.src == v && e.dst == NameOf(u, id)
  {
    if u.None? {
      e :| e in edges && e.dst == id && e.src == v;
    } else {
      e :| e in edges && Some(e.dst) == u && e.src == v;
    }
  }

  /** `v` is at distance `d` from the query exactly when its shortest dependency path has `d` edges. */
  lemma DistanceIsShortestPath(edges: set<GEdge>, v: string, id: string, d: nat)
    ensures AtDist(ReverseArcs(edges, id), None, Some(v), d) <==>
              && (exists es :: DependencyPath(edges, v, id, es) && |es| == d)
              && (forall es :: DependencyPath(edges, v, id, es) ==> d <= |es|)
  {
    var arcs := ReverseArcs(edges, id);
    if AtDist(arcs, None, Some(v), d) {
      forall es | DependencyPath(edges, v, id, es) ensures d <= |es| {
        PathReaches(edges, v, id, es);
        if |es| < d {
          BallMonotone(arcs, None, |es|, d - 1);
        }
      }
      var es := ReachedByPath(edges, v, id, d);
    }
    if (exists es :: DependencyPath(edges, v, id, es) && |es| == d)
       && (forall es :: DependencyPath(edges, v, id, es) ==> d <= |es|) {
      var es :| DependencyPath(edges, v, id, es) && |es| == d;
      PathReaches(edges, v, id, es);
      if d > 0 && Some(v) in Ball(arcs, None, d - 1) {
        var shorter := ReachedByPath(edges, v, id, d - 1);
      }
    }
  }

  // ---------------------------------------------------------------- the store

  /** `index` files each edge of the list under its key, in list order. */
  function Filed(edges: seq<GEdge>, key: GEdge -> string, k: string): seq<GEdge> {
    if |edges| == 0 then []
    else
      var last := edges[|edges| - 1];
      Filed(edges[..|edges| - 1], key, k) + if key(last) == k then [last] else []
  }

  lemma {:induction false} FiledMembers(edges: seq<GEdge>, key: GEdge -> string, k: string)
    ensures forall e :: e in Filed(edges, key, k) <==> e in edges && key(e) == k
  {
    if |edges| > 0 {
      FiledMembers(edges[..|edges| - 1], key, k);
      assert edges == edges[..|edges| - 1] + [edges[|edges| - 1]];
    }
  }

  function Src(e: GEdge): string {
    e.src
  }

  function Dst(e: GEdge): string {
    e.dst
  }

  function At(index: map<string, seq<GEdge>>, k: string): seq<GEdge> {
    if k in index then index[k] else []
  }

  ghost predicate Indexes(index: map<string, seq<GEdge>>, edges: seq<GEdge>, key: GEdge -> string) {
    forall k :: At(index, k) == Filed(edges, key, k)
  }

  lemma IndexGrows(index: map<string, seq<GEdge>>, edges: seq<GEdge>, key: GEdge -> string, e: GEdge)
    requires Indexes(index, edges, key)
    ensures Indexes(index[key(e) := At(index, key(e)) + [e]], edges + [e], key)
  {
    assert (edges + [e])[..|edges|] == edges;
    forall k ensures At(index[key(e) := At(index, key(e)) + [e]], k) == Filed(edges + [e], key, k) {
      assert At(index, k) == Filed(edges, key, k);
    }
  }

  function PutNodes(nodes: seq<GNode>): map<string, GNode> {
    if |nodes| == 0 then map[]
    else PutNodes(nodes[..|nodes| - 1])[nodes[|nodes| - 1].id := nodes[|nodes| - 1]]
  }

  /** A node is stored as it stood last in the list of nodes, and nothing else is stored. */
  lemma {:induction false} LastNodeIsStored(raw: seq<GNode>, id: string)
    ensures id in PutNodes(raw) <==> exists i :: 0 <= i < |raw| && raw[i].id == id
    ensures forall i :: 0 <= i < |raw| && raw[i].id == id && (forall j :: i < j < |raw| ==> raw[j].id != id) ==>
              id in PutNodes(raw) && PutNodes(raw)[id] == raw[i]
  {
    if |raw| > 0 {
      var last := |raw| - 1;
      LastNodeIsStored(raw[..last], id);
      assert forall i :: 0 <= i < last ==> raw[..last][i] == raw[i];
      if raw[last].id != id && id in PutNodes(raw[..last]) {
        var i :| 0 <= i < last && raw[..last][i].id == id;
        assert raw[i].id == id;
      }
    }
  }

  /** The callers of `id`: for each CALLS edge into it, in load order, its source, or an empty node if that is not stored. */
  lemma {:induction false} CallersAre(nodes: map<string, GNode>, loaded: seq<GEdge>, id: string, calls: GEdge -> bool)
    requires forall e :: calls(e) <==> e.kind == "CALLS" && e.dst == id
    ensures var callers, edges := CallersOf(nodes, Filed(loaded, Dst, id)), Filter(calls, loaded);
            && |callers| == |edges|
            && forall i :: 0 <= i < |edges| ==>
                 callers[i] == if edges[i].src in nodes then nodes[edges[i].src] else GNode("", "", "")
  {
    if |loaded| > 0 {
      CallersAre(nodes, loaded[..|loaded| - 1], id, calls);
      LastCaller(nodes, loaded, id);
    }
  }

  lemma LastCaller(nodes: map<string, GNode>, loaded: seq<GEdge>, id: string)
    requires |loaded| > 0
    ensures var init, e := loaded[..|loaded| - 1], loaded[|loaded| - 1];
            CallersOf(nodes, Filed(loaded, Dst, id))
            == CallersOf(nodes, Filed(init, Dst, id))
               + if e.kind == "CALLS" && e.dst == id then [if e.src in nodes then nodes[e.src] else ZERO_NODE] else []
  {
    var before, e := Filed(loaded[..|loaded| - 1], Dst, id), loaded[|loaded| - 1];
    assert Filed(loaded, Dst, id) == if e.dst == id then before + [e] else before;
    assert (before + [e])[..|before|] == before;
  }

  class JSONIndex {
    var nodes: map<string, GNode>
    var into: map<string, seq<GEdge>>
    var out: map<string, seq<GEdge>>
    ghost var loaded: seq<GEdge>

    ghost predicate Valid()
      reads this
    {
      Indexes(into, loaded, Dst) && Indexes(out, loaded, Src)
    }

    constructor Load(rawNodes: seq<GNode>, rawEdges: seq<GEdge>)
      ensures Valid() && loaded == rawEdges && nodes == PutNodes(rawNodes)
    {
      nodes, into, out, loaded := map[], map[], map[], [];
      new;
      for i := 0 to |rawNodes|
        invariant nodes == PutNodes(rawNodes[..i]) && into == map[] && out == map[] && loaded == []
      {
        assert rawNodes[..i + 1][..i] == rawNodes[..i];
        nodes := nodes[rawNodes[i].id := rawNodes[i]];
      }
      assert rawNodes[..|rawNodes|] == rawNodes;
      for i := 0 to |rawEdges|
        invariant Valid() && loaded == rawEdges[..i] && nodes == PutNodes(rawNodes)
      {
        assert rawEdges[..i + 1] == rawEdges[..i] + [rawEdges[i]];
        Index(rawEdges[i]);
      }
      assert rawEdges[..|rawEdges|] == rawEdges;
    }

    method Index(e: GEdge)
      requires Valid()
      modifies this`into, this`out, this`loaded
      ensures Valid() && loaded == old(loaded) + [e]
    {
      IndexGrows(into, loaded, Dst, e);
      IndexGrows(out, loaded, Src, e);
      into := into[e.dst := At(into, e.dst) + [e]];
      out := out[e.src := At(out, e.src) + [e]];
      loaded := loaded + [e];
    }

    /** The callers of `id`, one for each CALLS edge into it, in load order. */
    method FindCallers(id: string) returns (callers: seq<GNode>)
      requires Valid()
      ensures callers == CallersOf(nodes, Filed(loaded, Dst, id))
    {
      callers := [];
      var es := At(into, id);
      for i := 0 to |es|
        invariant callers == CallersOf(nodes, es[..i])
      {
        assert es[..i + 1][..i] == es[..i];
        if es[i].kind == "CALLS" {
          callers := callers + [NodeOrZero(nodes, es[i].src)];
        }
      }
      assert es[..|es|] == es;
    }

    /** All that depend on `id` through at most `maxDepth` edges, each at its shortest distance. */
    method Dependents(id: string, maxDepth: int) returns (result: map<string, Reachable>)
      requires Valid()
      ensures IsDependents(result, nodes, EdgeSet(loaded), id, if maxDepth < 0 then 0 else maxDepth)
    {
      ghost var limit: nat := if maxDepth < 0 then 0 else maxDepth;
      ghost var arcs := ReverseArcs(EdgeSet(loaded), id);
      ghost var depth: map<Vertex, nat> := map[None := 0];
      ghost var queue: seq<Vertex> := [None];
      ghost var low: nat := 0;
      ghost var steps: map<string, (GEdge, Vertex)> := map[];
      result := map[];
      var q: seq<Item> := [Item(id, 0)];
      SearchStarts(arcs, None, limit);
      while |q| > 0
        invariant Searching(arcs, None, limit, depth, queue, low, {})
        invariant Mirrors(result, nodes, EdgeSet(loaded), id, depth, steps) && QueueMirrors(q, queue, depth, id)
        decreases Universe(arcs, None) - depth.Keys, |queue|
      {
        SearchTakes(arcs, None, limit, depth, queue, low);
        var cur := q[0];
        ghost var v := queue[0];
        q := q[1..];
        queue := queue[1..];
        low := depth[v];
        if cur.d >= maxDepth {
          SearchSettles(arcs, None, limit, depth, queue, low, v);
          continue;
        }
        ghost var depth0, queue0 := depth, queue;
        result, q, depth, queue, steps := Expand(cur, v, result, q, id, limit, depth, queue, steps);
        SearchShrinks(arcs, None, limit, depth0, queue0, v, depth, queue);
        SearchSettles(arcs, None, limit, depth, queue, low, v);
      }
      SearchEnds(arcs, None, limit, depth, low);
      DependentsFound(result, nodes, EdgeSet(loaded), id, limit, depth, steps);
    }

    method Expand(cur: Item, ghost v: Vertex, seen: map<string, Reachable>, q: seq<Item>,
                  ghost id: string, ghost limit: nat, ghost depth: map<Vertex, nat>, ghost queue: seq<Vertex>,
                  ghost steps: map<string, (GEdge, Vertex)>)
      returns (seen': map<string, Reachable>, q': seq<Item>, ghost depth': map<Vertex, nat>,
               ghost queue': seq<Vertex>, ghost steps': map<string, (GEdge, Vertex)>)
      requires Valid()
      requires ReadyToExpand(ReverseArcs(EdgeSet(loaded), id), None, limit, depth, queue, v)
      requires Mirrors(seen, nodes, EdgeSet(loaded), id, depth, steps) && QueueMirrors(q, queue, depth, id)
      requires cur == Item(NameOf(v, id), depth[v])
      ensures Expanding(ReverseArcs(EdgeSet(loaded), id), None, limit, depth, queue, v, depth', queue')
      ensures Heads(ReverseArcs(EdgeSet(loaded), id), {v}) <= depth'.Keys
      ensures Mirrors(seen', nodes, EdgeSet(loaded), id, depth', steps') && QueueMirrors(q', queue', depth', id)
    {
      var es := At(into, cur.id);
      assert es == Filed(loaded, Dst, cur.id);
      FiledMembers(loaded, Dst, cur.id);
      forall e ensures e in es <==> e in loaded && e.dst == cur.id {
        assert Dst(e) == e.dst;
      }
      forall e | e in es ensures (v, Some(e.src)) in ReverseArcs(EdgeSet(loaded), id) {
        SourceArc(EdgeSet(loaded), id, e, v);
      }
      seen', q', depth', queue', steps' :=
        MeetSources(es, cur, v, seen, q, nodes, EdgeSet(loaded), ReverseArcs(EdgeSet(loaded), id), id, limit, depth, queue, steps);
      forall e | e in es ensures Some(e.src) in depth' {
        assert e.src in seen';
      }
      SourcesMet(loaded, id, v, es, depth');
    }
  }

  method MeetSources(es: seq<GEdge>, cur: Item, ghost v: Vertex, seen: map<string, Reachable>, q: seq<Item>,
                     nodes: map<string, GNode>, ghost edges: set<GEdge>, ghost arcs: set<(Vertex, Vertex)>, ghost id: string, ghost limit: nat,
                     ghost depth: map<Vertex, nat>, ghost queue: seq<Vertex>, ghost steps: map<string, (GEdge, Vertex)>)
    returns (seen': map<string, Reachable>, q': seq<Item>, ghost depth': map<Vertex, nat>,
             ghost queue': seq<Vertex>, ghost steps': map<string, (GEdge, Vertex)>)
    requires ReadyToExpand(arcs, None, limit, depth, queue, v)
    requires Mirrors(seen, nodes, edges, id, depth, steps) && QueueMirrors(q, queue, depth, id)
    requires cur == Item(NameOf(v, id), depth[v])
    requires forall e :: e in es ==> e in edges && e.dst == cur.id && (v, Some(e.src)) in arcs
    ensures Expanding(arcs, None, limit, depth, queue, v, depth', queue')
    ensures Mirrors(seen', nodes, edges, id, depth', steps') && QueueMirrors(q', queue', depth', id)
    ensures SourcesSeen(es, |es|, seen')
  {
    seen', q', depth', queue', steps' := seen, q, depth, queue, steps;
    ExpandStarts(arcs, None, limit, depth, queue, v);
    for i := 0 to |es|
      invariant Expanding(arcs, None, limit, depth, queue, v, depth', queue')
      invariant Mirrors(seen', nodes, edges, id, depth', steps') && QueueMirrors(q', queue', depth', id)
      invariant SourcesSeen(es, i, seen')
    {
      ghost var before, depths, waiting := seen', depth', queue';
      ExpandingMet(arcs, None, limit, depth, queue, v, depths, waiting);
      seen', q', depth', queue', steps' := MeetSource(es[i], cur, v, seen', q', nodes, edges, id, depth', queue', steps');
      MeetingKeeps(arcs, None, limit, depth, queue, v, depths, waiting, Some(es[i].src), depth', queue');
      SourcesSeenGrows(es, i, before, seen');
    }
  }

  method MeetSource(e: GEdge, cur: Item, ghost v: Vertex, seen: map<string, Reachable>, q: seq<Item>,
                    nodes: map<string, GNode>, ghost edges: set<GEdge>, ghost id: string,
                    ghost depth: map<Vertex, nat>, ghost queue: seq<Vertex>, ghost steps: map<string, (GEdge, Vertex)>)
    returns (seen': map<string, Reachable>, q': seq<Item>, ghost depth': map<Vertex, nat>,
             ghost queue': seq<Vertex>, ghost steps': map<string, (GEdge, Vertex)>)
    requires Mirrors(seen, nodes, edges, id, depth, steps) && QueueMirrors(q, queue, depth, id)
    requires e in edges && e.dst == cur.id && v in depth && cur == Item(NameOf(v, id), depth[v])
    ensures Meets(depth, queue, v, Some(e.src), depth', queue')
    ensures Mirrors(seen', nodes, edges, id, depth', steps') && QueueMirrors(q', queue', depth', id)
    ensures seen'.Keys == seen.Keys + {e.src}
  {
    if e.src in seen {
      return seen, q, depth, queue, steps;
    }
    MirrorGrows(seen, nodes, edges, id, depth, steps, e, v);
    QueueMirrorGrows(q, queue, depth, id, e.src, depth[v] + 1);
    depth', queue' := depth[Some(e.src) := depth[v] + 1], queue + [Some(e.src)];
    seen' := seen[e.src := Reachable(NodeOrZero(nodes, e.src), cur.d + 1, e.kind, e.confidence)];
    q' := q + [Item(e.src, cur.d + 1)];
    steps' := steps[e.src := (e, v)];
  }

  ghost predicate SourcesSeen(es: seq<GEdge>, n: nat, seen: map<string, Reachable>)
    requires n <= |es|
  {
    forall j :: 0 <= j < n ==> es[j].src in seen
  }

  lemma SourcesSeenGrows(es: seq<GEdge>, i: nat, seen: map<string, Reachable>, seen': map<string, Reachable>)
    requires i < |es| && SourcesSeen(es, i, seen) && seen'.Keys == seen.Keys + {es[i].src}
    ensures SourcesSeen(es, i + 1, seen')
  {
    forall j | 0 <= j < i + 1 ensures es[j].src in seen' {
      assert es[j].src in seen.Keys + {es[i].src};
    }
  }

  function NodeOrZero(nodes: map<string, GNode>, id: string): GNode {
    if id in nodes then nodes[id] else ZERO_NODE
  }

  function CallersOf(nodes: map<string, GNode>, es: seq<GEdge>): seq<GNode> {
    if |es| == 0 then []
    else
      var last := es[|es| - 1];
      CallersOf(nodes, es[..|es| - 1]) + if last.kind == "CALLS" then [NodeOrZero(nodes, last.src)] else []
  }

  /** The node a search vertex stands for. */
  function NameOf(v: Vertex, id: string): string {
    if v.None? then id else v.value
  }

  lemma SourceArc(edges: set<GEdge>, id: string, e: GEdge, v: Vertex)
    requires e in edges && e.dst == NameOf(v, id)
    ensures (v, Some(e.src)) in ReverseArcs(edges, id)
  {
  }

  lemma SourcesMet(loaded: seq<GEdge>, id: string, v: Vertex, es: seq<GEdge>, depth: map<Vertex, nat>)
    requires forall e :: e in es <==> e in loaded && e.dst == NameOf(v, id)
    requires forall e :: e in es ==> Some(e.src) in depth
    ensures Heads(ReverseArcs(EdgeSet(loaded), id), {v}) <= depth.Keys
  {
    forall a | a in ReverseArcs(EdgeSet(loaded), id) && a.0 == v ensures a.1 in depth {
      if v.None? {
        var e :| e in EdgeSet(loaded) && e.dst == id && a.1 == Some(e.src);
        assert e in es;
      } else {
        var e :| e in EdgeSet(loaded) && Some(e.dst) == v && a.1 == Some(e.src);
        assert e in es;
      }
    }
  }

  /** `step` is an edge out of `v` and the vertex, one step nearer, that it leads to. */
  ghost predicate TrueStep(step: (GEdge, Vertex), r: Reachable, edges: set<GEdge>, id: string,
                           depth: map<Vertex, nat>, v: string)
  {
    && step.0 in edges && step.0.src == v && step.0.dst == NameOf(step.1, id)
    && step.1 in depth && depth[step.1] + 1 == r.depth
    && r.viaType == step.0.kind && r.confidence == step.0.confidence
  }

  /** The table answers for the vertices met, with their depths, by the steps that met them. */
  ghost predicate Mirrors(seen: map<string, Reachable>, nodes: map<string, GNode>, edges: set<GEdge>, id: string,
                          depth: map<Vertex, nat>, steps: map<string, (GEdge, Vertex)>)
  {
    && (forall v: string :: v in seen <==> Some(v) in depth)
    && (forall v :: v in seen ==>
          && seen[v].depth == depth[Some(v)] && seen[v].node == NodeOrZero(nodes, v)
          && v in steps && TrueStep(steps[v], seen[v], edges, id, depth, v))
  }

  ghost predicate QueueMirrors(q: seq<Item>, queue: seq<Vertex>, depth: map<Vertex, nat>, id: string) {
    |q| == |queue| && forall i :: 0 <= i < |q| ==> queue[i] in depth && q[i] == Item(NameOf(queue[i], id), depth[queue[i]])
  }

  lemma MirrorGrows(seen: map<string, Reachable>, nodes: map<string, GNode>, edges: set<GEdge>, id: string,
                    depth: map<Vertex, nat>, steps: map<string, (GEdge, Vertex)>, e: GEdge, v: Vertex)
    requires Mirrors(seen, nodes, edges, id, depth, steps) && v in depth
    requires e in edges && e.dst == NameOf(v, id) && e.src !in seen
    ensures Mirrors(seen[e.src := Reachable(NodeOrZero(nodes, e.src), depth[v] + 1, e.kind, e.confidence)],
                    nodes, edges, id, depth[Some(e.src) := depth[v] + 1], steps[e.src := (e, v)])
  {
  }

  lemma QueueMirrorGrows(q: seq<Item>, queue: seq<Vertex>, depth: map<Vertex, nat>, id: string, x: string, d: nat)
    requires QueueMirrors(q, queue, depth, id) && Some(x) !in depth
    ensures QueueMirrors(q + [Item(x, d)], queue + [Some(x)], depth[Some(x) := d], id)
  {
  }

  /** The dependents of `id`: every node with a dependency path of at most `limit` edges, at the length
      of its shortest one, with the kind and confidence of an edge one step down such a path. */
  ghost predicate IsDependents(result: map<string, Reachable>, nodes: map<string, GNode>, edges: set<GEdge>,
                               id: string, limit: nat)
  {
    exists depth: map<Vertex, nat>, steps ::
      && Mirrors(result, nodes, edges, id, depth, steps)
      && depth.Keys == Ball(ReverseArcs(edges, id), None, limit)
      && forall v :: v in depth ==> AtDist(ReverseArcs(edges, id), None, v, depth[v])
  }

  lemma DependentsFound(result: map<string, Reachable>, nodes: map<string, GNode>, edges: set<GEdge>, id: string,
                        limit: nat, depth: map<Vertex, nat>, steps: map<string, (GEdge, Vertex)>)
    requires Mirrors(result, nodes, edges, id, depth, steps)
    requires forall v :: v in depth <==> v in Ball(ReverseArcs(edges, id), None, limit)
    requires forall v :: v in depth ==> AtDist(ReverseArcs(edges, id), None, v, depth[v])
    ensures IsDependents(result, nodes, edges, id, limit)
  {
    assert depth.Keys == Ball(ReverseArcs(edges, id), None, limit);
  }

  // ---------------------------------------------------------------- what the answer means

  /** A node is answered exactly when it depends on `id` through 1 to `limit` edges; so `id` itself is
      answered exactly when it lies on a dependency cycle that short. */
  lemma AnsweredIffDepends(result: map<string, Reachable>, nodes: map<string, GNode>, edges: set<GEdge>,
                           id: string, limit: nat, v: string)
    requires IsDependents(result, nodes, edges, id, limit)
    ensures v in result <==> exists es :: DependencyPath(edges, v, id, es) && |es| <= limit
  {
    var arcs := ReverseArcs(edges, id);
    if v in result {
      var es := ReachedByPath(edges, v, id, limit);
    }
    forall es | DependencyPath(edges, v, id, es) && |es| <= limit ensures v in result {
      PathReaches(edges, v, id, es);
      BallMonotone(arcs, None, |es|, limit);
    }
  }

  /** The depth answered is that of a shortest path, and the edge answered starts such a path. */
  lemma AnswerIsShortest(result: map<string, Reachable>, nodes: map<string, GNode>, edges: set<GEdge>,
                         id: string, limit: nat, v: string)
    requires IsDependents(result, nodes, edges, id, limit) && v in result
    ensures forall es :: DependencyPath(edges, v, id, es) ==> result[v].depth <= |es|
    ensures exists es: seq<GEdge> :: DependencyPath(edges, v, id, es) && |es| == result[v].depth
                         && es[0].kind == result[v].viaType && es[0].confidence == result[v].confidence
    ensures result[v].node == NodeOrZero(nodes, v)
  {
    var depth: map<Vertex, nat>, steps :|
      && Mirrors(result, nodes, edges, id, depth, steps)
      && depth.Keys == Ball(ReverseArcs(edges, id), None, limit)
      && forall v :: v in depth ==> AtDist(ReverseArcs(edges, id), None, v, depth[v]);
    var es := StepStartsPath(result[v], edges, id, depth, v, steps[v]);
    DistanceIsShortestPath(edges, v, id, result[v].depth);
  }

  lemma StepStartsPath(r: Reachable, edges: set<GEdge>, id: string, depth: map<Vertex, nat>, v: string,
                       step: (GEdge, Vertex))
    returns (es: seq<GEdge>)
    requires TrueStep(step, r, edges, id, depth, v)
    requires AtDist(ReverseArcs(edges, id), None, step.1, depth[step.1])
    ensures DependencyPath(edges, v, id, es) && |es| == r.depth && es[0] == step.0
  {
    if step.1.None? {
      RootAtZero(ReverseArcs(edges, id), depth[None]);
      es := [step.0];
    } else {
      DistanceIsShortestPath(edges, step.1.value, id, depth[step.1]);
      var rest :| DependencyPath(edges, step.1.value, id, rest) && |rest| == depth[step.1];
      es := [step.0] + rest;
    }
  }

  lemma RootAtZero(arcs: set<(Vertex, Vertex)>, d: nat)
    requires AtDist(arcs, None, None, d)
    ensures d == 0
  {
    assert AtDist(arcs, None, None, 0);
    AtDistUnique(arcs, None, None, d, 0);
  }
}
