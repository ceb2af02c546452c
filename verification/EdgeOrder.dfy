/** How the order of the edges decides the tree: a shortest walk listed first is the one the search takes. */
module EdgeOrder {
  import opened Prelude
  import opened Ordering
  import opened Reachability
  import opened GraphTypes
  import opened ImpactTree
  import opened TreeSearch

  // ---------------------------------------------------------------- scanning in order

  lemma {:induction false} AdjacentAppend(a: seq<Edge>, b: seq<Edge>, v: string)
    ensures AdjacentTo(a + b, v) == AdjacentTo(a, v) + AdjacentTo(b, v)
  {
    if |b| == 0 {
      assert a + b == a;
    } else {
      AdjacentAppend(a, b[..|b| - 1], v);
      assert (a + b)[..|a + b| - 1] == a + b[..|b| - 1];
    }
  }

  lemma FirstAdjacent(edges: seq<Edge>, v: string)
    requires |edges| > 0 && Touches(edges[0], v)
    ensures |AdjacentTo(edges, v)| > 0 && AdjacentTo(edges, v)[0] == edges[0]
  {
    assert edges == [edges[0]] + edges[1..];
    AdjacentAppend([edges[0]], edges[1..], v);
    assert [edges[0]][..0] == [] && AdjacentTo([], v) == [];
  }

  lemma {:induction false} ScanAppend(s: Search, cur: string, a: seq<Edge>, b: seq<Edge>)
    requires cur in s.depths && (forall e :: e in a ==> Touches(e, cur)) && (forall e :: e in b ==> Touches(e, cur))
    ensures Scan(s, cur, a + b) == Scan(Scan(s, cur, a), cur, b)
  {
    if |b| == 0 {
      assert a + b == a;
    } else {
      var init, last := b[..|b| - 1], b[|b| - 1];
      assert last in b;
      ScanAppend(s, cur, a, init);
      assert a + b == (a + init) + [last];
      ScanOneMore(s, cur, a + init, last);
    }
  }

  /** Edges to vertices met before change nothing. */
  lemma {:induction false} ScanIdle(s: Search, cur: string, adjacent: seq<Edge>)
    requires cur in s.depths && forall e :: e in adjacent ==> Touches(e, cur) && OtherEnd(e, cur) in s.depths
    ensures Scan(s, cur, adjacent) == s
  {
    if |adjacent| > 0 {
      assert adjacent[|adjacent| - 1] in adjacent;
      ScanIdle(s, cur, adjacent[..|adjacent| - 1]);
    }
  }

  // ---------------------------------------------------------------- what a step leaves alone

  /** Vertices met keep their entries. */
  ghost predicate Keeps(s: Search, r: Search) {
    forall v :: v in s.depths ==>
      && v in r.depths && r.depths[v] == s.depths[v]
      && (v in s.parent ==> v in r.parent && r.parent[v] == s.parent[v])
      && (v in s.parentEdge ==> v in r.parentEdge && r.parentEdge[v] == s.parentEdge[v])
  }

  /** From `s` to `r` the queue only grew at its end, and what is new is at depth `d`. */
  ghost predicate Grows(s: Search, r: Search, d: nat) {
    Keeps(s, r) && s.queue <= r.queue && forall v :: v in r.depths && v !in s.depths ==> r.depths[v] == d
  }

  lemma {:induction false} ScanGrows(s: Search, cur: string, adjacent: seq<Edge>)
    requires cur in s.depths && forall e :: e in adjacent ==> Touches(e, cur)
    ensures Grows(s, Scan(s, cur, adjacent), s.depths[cur] + 1)
  {
    if |adjacent| > 0 {
      var init, last := adjacent[..|adjacent| - 1], adjacent[|adjacent| - 1];
      assert last in adjacent;
      ScanGrows(s, cur, init);
      FollowGrows(s, Scan(s, cur, init), cur, last);
    }
  }

  lemma FollowGrows(s: Search, r: Search, cur: string, e: Edge)
    requires cur in s.depths && cur in r.depths && Touches(e, cur) && Grows(s, r, s.depths[cur] + 1)
    ensures Grows(s, Follow(r, cur, e), s.depths[cur] + 1)
  {
  }

  lemma {:induction false} ChainKept(edges: set<Edge>, root: string, s: Search, r: Search, v: string)
    requires Tree(edges, root, s.depths, s.parent, s.parentEdge) && Tree(edges, root, r.depths, r.parent, r.parentEdge)
    requires Keeps(s, r) && v in s.depths
    ensures v in r.depths
    ensures Chain(edges, root, r.depths, r.parent, r.parentEdge, v) == Chain(edges, root, s.depths, s.parent, s.parentEdge, v)
    decreases s.depths[v]
  {
    if v != root {
      ChainKept(edges, root, s, r, s.parent[v]);
    }
  }

  /** In the tree of `s`, `v` hangs from the root by exactly `es`. */
  ghost predicate HangsBy(s: Search, root: string, edges: seq<Edge>, v: string, es: seq<Edge>) {
    && Tree(EdgeSet(edges), root, s.depths, s.parent, s.parentEdge) && v in s.depths
    && Chain(EdgeSet(edges), root, s.depths, s.parent, s.parentEdge, v) == es
  }

  lemma StillHangs(s: Search, r: Search, root: string, edges: seq<Edge>, v: string, es: seq<Edge>)
    requires HangsBy(s, root, edges, v, es) && Keeps(s, r)
    requires Tree(EdgeSet(edges), root, r.depths, r.parent, r.parentEdge)
    ensures HangsBy(r, root, edges, v, es)
  {
    ChainKept(EdgeSet(edges), root, s, r, v);
  }

  lemma {:induction false} ChainEndsMet(edges: set<Edge>, root: string, s: Search, v: string, e: Edge)
    requires Tree(edges, root, s.depths, s.parent, s.parentEdge) && v in s.depths
    requires e in Chain(edges, root, s.depths, s.parent, s.parentEdge, v)
    ensures e.fromID in s.depths && e.toID in s.depths
    decreases s.depths[v]
  {
    if e in Chain(edges, root, s.depths, s.parent, s.parentEdge, s.parent[v]) {
      ChainEndsMet(edges, root, s, s.parent[v], e);
    } else {
      assert e == s.parentEdge[v];
    }
  }

  lemma {:induction false} AfterKeeps(root: string, edges: seq<Edge>, j: nat, k: nat)
    requires j <= k
    ensures Keeps(After(root, edges, j), After(root, edges, k))
    decreases k
  {
    if j < k {
      AfterKeeps(root, edges, j, k - 1);
      var s := After(root, edges, k - 1);
      if |s.queue| > 0 && s.queue[0] in s.depths {
        ScanGrows(s.(queue := s.queue[1..]), s.queue[0], AdjacentTo(edges, s.queue[0]));
      }
      KeepsOn(After(root, edges, j), s, After(root, edges, k));
    }
  }

  lemma KeepsOn(a: Search, b: Search, c: Search)
    requires Keeps(a, b) && Keeps(b, c)
    ensures Keeps(a, c)
  {
  }

  // ---------------------------------------------------------------- the leader of a level

  /** `v`, at depth `d`, waits at place `i` behind nearer vertices only, and nothing is farther than it. */
  ghost predicate Leads(s: Search, v: string, d: nat, i: nat) {
    && i < |s.queue| && s.queue[i] == v && v in s.depths && s.depths[v] == d
    && (forall j :: 0 <= j < i ==> s.queue[j] in s.depths && s.depths[s.queue[j]] < d)
    && (forall u :: u in s.depths ==> s.depths[u] <= d)
  }

  lemma LeadAdvances(s: Search, edges: seq<Edge>, v: string, d: nat, i: nat)
    requires i > 0 && Leads(s, v, d, i)
    ensures s.queue[0] in s.depths && Leads(Expand(s, edges), v, d, i - 1) && Keeps(s, Expand(s, edges))
  {
    var cur, popped := s.queue[0], s.(queue := s.queue[1..]);
    ScanGrows(popped, cur, AdjacentTo(edges, cur));
    var r := Expand(s, edges);
    assert popped.queue <= r.queue;
    forall j | 0 <= j < i ensures r.queue[j] == s.queue[j + 1] {
      assert r.queue[j] == popped.queue[j];
    }
  }

  /** In time the leader comes to the head of the queue. */
  lemma {:induction false} LeaderComesFirst(root: string, edges: seq<Edge>, k: nat, v: string, d: nat, i: nat) returns (k': nat)
    requires Leads(After(root, edges, k), v, d, i)
    ensures k <= k' && Leads(After(root, edges, k'), v, d, 0)
    decreases i
  {
    if i == 0 {
      k' := k;
    } else {
      NextStep(root, edges, k);
      LeadAdvances(After(root, edges, k), edges, v, d, i);
      k' := LeaderComesFirst(root, edges, k + 1, v, d, i - 1);
    }
  }

  /** Expanding the leader first follows the first of its edges that leads to a vertex not met. */
  lemma NewLeader(s: Search, edges: seq<Edge>, u: string, d: nat, seen: seq<Edge>, e: Edge)
    requires Leads(s, u, d, 0) && seen + [e] <= edges && Touches(e, u) && OtherEnd(e, u) !in s.depths
    requires forall x :: x in seen && Touches(x, u) ==> OtherEnd(x, u) in s.depths
    requires forall j :: 0 <= j < |s.queue| ==> s.queue[j] in s.depths
    ensures var r, v := Expand(s, edges), OtherEnd(e, u);
            && Leads(r, v, d + 1, |s.queue| - 1) && Keeps(s, r)
            && v in r.parent && r.parent[v] == u && v in r.parentEdge && r.parentEdge[v] == e
  {
    var popped := s.(queue := s.queue[1..]);
    var others := ScanFollowsFirst(popped, edges, u, seen, e);
    ScanGrows(Follow(popped, u, e), u, others);
    LeaderFollowed(s, popped, Follow(popped, u, e), Expand(s, edges), u, d, e);
  }

  lemma ScanFollowsFirst(s: Search, edges: seq<Edge>, u: string, seen: seq<Edge>, e: Edge) returns (others: seq<Edge>)
    requires u in s.depths && seen + [e] <= edges && Touches(e, u)
    requires forall x :: x in seen && Touches(x, u) ==> OtherEnd(x, u) in s.depths
    ensures forall x :: x in others ==> Touches(x, u)
    ensures Scan(s, u, AdjacentTo(edges, u)) == Scan(Follow(s, u, e), u, others)
  {
    var rest := edges[|seen|..];
    assert edges == seen + rest && rest[0] == e;
    AdjacentAppend(seen, rest, u);
    FirstAdjacent(rest, u);
    others := AdjacentTo(rest, u)[1..];
    assert AdjacentTo(rest, u) == [e] + others;
    ScanAppend(s, u, AdjacentTo(seen, u), [e] + others);
    ScanIdle(s, u, AdjacentTo(seen, u));
    ScanAppend(s, u, [e], others);
    ScanOfOne(s, u, e);
  }

  lemma ScanOfOne(s: Search, cur: string, e: Edge)
    requires cur in s.depths && Touches(e, cur)
    ensures Scan(s, cur, [e]) == Follow(s, cur, e)
  {
    assert [] + [e] == [e];
    ScanOneMore(s, cur, [], e);
  }

  lemma LeaderFollowed(s: Search, popped: Search, t: Search, r: Search, u: string, d: nat, e: Edge)
    requires Leads(s, u, d, 0) && Touches(e, u) && OtherEnd(e, u) !in s.depths
    requires forall j :: 0 <= j < |s.queue| ==> s.queue[j] in s.depths
    requires popped == s.(queue := s.queue[1..]) && t == Follow(popped, u, e) && Grows(t, r, d + 1)
    ensures var v := OtherEnd(e, u);
            && Leads(r, v, d + 1, |s.queue| - 1) && Keeps(s, r)
            && v in r.parent && r.parent[v] == u && v in r.parentEdge && r.parentEdge[v] == e
  {
    var v, n := OtherEnd(e, u), |s.queue| - 1;
    assert t.queue == s.queue[1..] + [v] && t.queue <= r.queue;
    assert r.queue[n] == t.queue[n] == v;
    forall j | 0 <= j < n ensures r.queue[j] == s.queue[j + 1] {
      assert r.queue[j] == t.queue[j];
    }
    KeepsOn(s, t, r);
  }

  // ---------------------------------------------------------------- a shortest walk listed first

  lemma WalkBefore(edges: set<Edge>, root: string, v: string, es: seq<Edge>)
    requires |es| > 0 && EdgeWalk(edges, root, v, es) && AtDist(UndirectedArcs(edges), root, v, |es|)
    ensures var e := es[|es| - 1];
            && e in edges && Touches(e, v) && Touches(e, OtherEnd(e, v)) && OtherEnd(e, OtherEnd(e, v)) == v
            && EdgeWalk(edges, root, OtherEnd(e, v), es[..|es| - 1])
            && AtDist(UndirectedArcs(edges), root, OtherEnd(e, v), |es| - 1)
  {
    var e := es[|es| - 1];
    var u := OtherEnd(e, v);
    EdgeWalkReaches(edges, root, u, es[..|es| - 1]);
    CrossingIsArc(edges, e, u);
    StepBack(UndirectedArcs(edges), root, u, v, |es| - 1);
  }

  lemma LeaderHangs(s: Search, r: Search, root: string, edges: seq<Edge>, u: string, v: string, es: seq<Edge>, e: Edge)
    requires HangsBy(s, root, edges, u, es) && Keeps(s, r) && Tree(EdgeSet(edges), root, r.depths, r.parent, r.parentEdge)
    requires v in r.depths && v != root && r.parent[v] == u && r.parentEdge[v] == e
    ensures HangsBy(r, root, edges, v, es + [e])
  {
    StillHangs(s, r, root, edges, u, es);
  }

  lemma SeenEndsMet(s: Search, root: string, edges: seq<Edge>, u: string, es: seq<Edge>)
    requires HangsBy(s, root, edges, u, es)
    ensures forall x :: x in es && Touches(x, u) ==> OtherEnd(x, u) in s.depths
  {
    forall x | x in es && Touches(x, u) ensures OtherEnd(x, u) in s.depths {
      ChainEndsMet(EdgeSet(edges), root, s, u, x);
    }
  }

  /** What every state of the search keeps: a tree, and a queue of vertices met. */
  ghost predicate Grown(s: Search, root: string, edges: seq<Edge>) {
    && Tree(EdgeSet(edges), root, s.depths, s.parent, s.parentEdge)
    && forall j :: 0 <= j < |s.queue| ==> s.queue[j] in s.depths
  }

  lemma AfterIsGrown(root: string, edges: seq<Edge>, k: nat)
    ensures Grown(After(root, edges, k), root, edges)
  {
    AfterIsSound(root, edges, k);
    QueueMet(After(root, edges, k), root, edges);
  }

  /** From `s` to `r`, `v` was met from `u` by `e` and leads the level after `d`. */
  ghost predicate NewlyLed(s: Search, r: Search, u: string, v: string, d: nat, e: Edge) {
    && |s.queue| > 0 && Leads(r, v, d + 1, |s.queue| - 1) && Keeps(s, r)
    && v in r.parent && r.parent[v] == u && v in r.parentEdge && r.parentEdge[v] == e
  }

  lemma AfterIsTree(root: string, edges: seq<Edge>, k: nat)
    ensures var s := After(root, edges, k); Tree(EdgeSet(edges), root, s.depths, s.parent, s.parentEdge)
  {
    AfterIsSound(root, edges, k);
  }

  lemma EndLeads(s: Search, root: string, edges: seq<Edge>, u: string, v: string, es: seq<Edge>, e: Edge)
    requires Leads(s, u, |es|, 0) && HangsBy(s, root, edges, u, es) && Grown(s, root, edges)
    requires es + [e] <= edges && Touches(e, u) && OtherEnd(e, u) == v && v !in s.depths
    ensures NewlyLed(s, Expand(s, edges), u, v, |es|, e)
  {
    SeenEndsMet(s, root, edges, u, es);
    NewLeader(s, edges, u, |es|, es, e);
  }

  lemma EndHangs(s: Search, r: Search, root: string, edges: seq<Edge>, u: string, v: string, es: seq<Edge>, e: Edge)
    requires HangsBy(s, root, edges, u, es) && NewlyLed(s, r, u, v, |es|, e) && v != root
    requires Tree(EdgeSet(edges), root, r.depths, r.parent, r.parentEdge)
    ensures Leads(r, v, |es| + 1, |s.queue| - 1) && HangsBy(r, root, edges, v, es + [e])
  {
    LeaderHangs(s, r, root, edges, u, v, es, e);
  }

  /** Past its predecessor's turn, the end of the walk leads its level and hangs by the walk. */
  lemma WalkAdvances(root: string, edges: seq<Edge>, k: nat, u: string, v: string, es: seq<Edge>, e: Edge) returns (i: nat)
    requires Leads(After(root, edges, k), u, |es|, 0) && HangsBy(After(root, edges, k), root, edges, u, es)
    requires es + [e] <= edges && Touches(e, u) && OtherEnd(e, u) == v
    requires AtDist(UndirectedArcs(EdgeSet(edges)), root, v, |es| + 1)
    ensures Leads(After(root, edges, k + 1), v, |es| + 1, i) && HangsBy(After(root, edges, k + 1), root, edges, v, es + [e])
  {
    NotMetYet(root, edges, k, v, |es|);
    i := WalkGoesOn(root, edges, k, u, v, es, e);
  }

  lemma NextIsLed(root: string, edges: seq<Edge>, k: nat, u: string, v: string, es: seq<Edge>, e: Edge)
    requires Leads(After(root, edges, k), u, |es|, 0) && HangsBy(After(root, edges, k), root, edges, u, es)
    requires es + [e] <= edges && Touches(e, u) && OtherEnd(e, u) == v && v !in After(root, edges, k).depths
    ensures NewlyLed(After(root, edges, k), After(root, edges, k + 1), u, v, |es|, e)
  {
    AfterIsGrown(root, edges, k);
    NextStep(root, edges, k);
    EndLeads(After(root, edges, k), root, edges, u, v, es, e);
  }

  lemma WalkGoesOn(root: string, edges: seq<Edge>, k: nat, u: string, v: string, es: seq<Edge>, e: Edge) returns (i: nat)
    requires Leads(After(root, edges, k), u, |es|, 0) && HangsBy(After(root, edges, k), root, edges, u, es)
    requires es + [e] <= edges && Touches(e, u) && OtherEnd(e, u) == v && v !in After(root, edges, k).depths && v != root
    ensures Leads(After(root, edges, k + 1), v, |es| + 1, i) && HangsBy(After(root, edges, k + 1), root, edges, v, es + [e])
  {
    AfterIsTree(root, edges, k + 1);
    NextIsLed(root, edges, k, u, v, es, e);
    EndHangs(After(root, edges, k), After(root, edges, k + 1), root, edges, u, v, es, e);
    i := |After(root, edges, k).queue| - 1;
  }

  lemma NotMetYet(root: string, edges: seq<Edge>, k: nat, v: string, d: nat)
    requires AtDist(UndirectedArcs(EdgeSet(edges)), root, v, d + 1)
    requires var s := After(root, edges, k); forall u :: u in s.depths ==> s.depths[u] <= d
    ensures v !in After(root, edges, k).depths && v != root
  {
    var s := After(root, edges, k);
    AfterIsSound(root, edges, k);
    QueueMet(s, root, edges);
    if v in s.depths {
      DepthIs(s, root, edges, v, d + 1);
    }
  }

  lemma DepthIs(s: Search, root: string, edges: seq<Edge>, v: string, d: nat)
    requires Sound(s, root, edges) && v in s.depths && AtDist(UndirectedArcs(EdgeSet(edges)), root, v, d)
    ensures s.depths[v] == d
  {
    DepthsAreTrue(s, root, edges, v);
    AtDistUnique(UndirectedArcs(EdgeSet(edges)), root, v, s.depths[v], d);
  }

  /** A shortest walk whose edges head the list leads the search to its end, level by level. */
  lemma {:induction false} WalkLeads(root: string, edges: seq<Edge>, v: string, es: seq<Edge>) returns (k: nat)
    requires es <= edges && EdgeWalk(EdgeSet(edges), root, v, es)
    requires AtDist(UndirectedArcs(EdgeSet(edges)), root, v, |es|)
    ensures WalkedTo(root, edges, k, v, es)
    decreases |es|
  {
    if |es| == 0 {
      RootLeads(root, edges);
      return 0;
    }
    var u := OtherEnd(es[|es| - 1], v);
    WalkBefore(EdgeSet(edges), root, v, es);
    var j := WalkLeads(root, edges, u, es[..|es| - 1]);
    k := WalkOneMore(root, edges, j, u, v, es);
  }

  /** After `k` steps `v` is next, first of its level, and hangs by exactly `es`. */
  ghost predicate WalkedTo(root: string, edges: seq<Edge>, k: nat, v: string, es: seq<Edge>) {
    Leads(After(root, edges, k), v, |es|, 0) && HangsBy(After(root, edges, k), root, edges, v, es)
  }

  lemma RootLeads(root: string, edges: seq<Edge>)
    ensures WalkedTo(root, edges, 0, root, [])
  {
  }

  lemma WalkOneMore(root: string, edges: seq<Edge>, k: nat, u: string, v: string, es: seq<Edge>) returns (k': nat)
    requires |es| > 0 && es <= edges && Touches(es[|es| - 1], u) && OtherEnd(es[|es| - 1], u) == v
    requires WalkedTo(root, edges, k, u, es[..|es| - 1])
    requires AtDist(UndirectedArcs(EdgeSet(edges)), root, v, |es|)
    ensures WalkedTo(root, edges, k', v, es)
  {
    var init, e := es[..|es| - 1], es[|es| - 1];
    assert es == init + [e];
    k' := WalkArrives(root, edges, k, u, v, init, e);
  }

  lemma WalkArrives(root: string, edges: seq<Edge>, k: nat, u: string, v: string, es: seq<Edge>, e: Edge) returns (k': nat)
    requires WalkedTo(root, edges, k, u, es) && es + [e] <= edges && Touches(e, u) && OtherEnd(e, u) == v
    requires AtDist(UndirectedArcs(EdgeSet(edges)), root, v, |es| + 1)
    ensures WalkedTo(root, edges, k', v, es + [e])
  {
    var i := WalkAdvances(root, edges, k, u, v, es, e);
    k' := LeaderComesFirst(root, edges, k + 1, v, |es| + 1, i);
    AfterKeeps(root, edges, k + 1, k');
    AfterIsSound(root, edges, k');
    StillHangs(After(root, edges, k + 1), After(root, edges, k'), root, edges, v, es + [e]);
  }

  /** So in the tree the search ends with, that walk is the one its end hangs by. */
  lemma FirstWalkIsTaken(root: string, edges: seq<Edge>, v: string, es: seq<Edge>)
    requires es <= edges && EdgeWalk(EdgeSet(edges), root, v, es)
    requires AtDist(UndirectedArcs(EdgeSet(edges)), root, v, |es|)
    ensures HangsBy(Final(root, edges), root, edges, v, es)
    ensures TierIn(edges, root, v) == TierOf(LabelsOf(Climbed(EdgeSet(edges), root, v, es)))
  {
    var k := WalkLeads(root, edges, v, es);
    NotDoneYet(root, edges, k);
    AfterKeeps(root, edges, k, Enough(root, edges));
    FinalIsDone(root, edges);
    StillHangs(After(root, edges, k), Final(root, edges), root, edges, v, es);
  }

  // ---------------------------------------------------------------- every shortest walk can be listed first

  /** The edges of the set in some order. */
  ghost predicate IsOrder(order: seq<Edge>, edges: set<Edge>) {
    Distinct(order) && EdgeSet(order) == edges
  }

  lemma {:induction false} WalkEndsNear(edges: set<Edge>, root: string, v: string, es: seq<Edge>, e: Edge)
    requires EdgeWalk(edges, root, v, es) && e in es
    ensures e.fromID in Ball(UndirectedArcs(edges), root, |es|) && e.toID in Ball(UndirectedArcs(edges), root, |es|)
    decreases |es|
  {
    var init, last, arcs := es[..|es| - 1], es[|es| - 1], UndirectedArcs(edges);
    assert es == init + [last];
    if e in init {
      WalkEndsNear(edges, root, OtherEnd(last, v), init, e);
      BallMonotone(arcs, root, |es| - 1, |es|);
    } else {
      EdgeWalkReaches(edges, root, v, es);
      EdgeWalkReaches(edges, root, OtherEnd(last, v), init);
      InWiderBall(arcs, root, |es| - 1, |es|, OtherEnd(last, v));
    }
  }

  /** A shortest walk crosses no edge twice. */
  lemma {:induction false} ShortestIsDistinct(edges: set<Edge>, root: string, v: string, es: seq<Edge>)
    requires EdgeWalk(edges, root, v, es) && AtDist(UndirectedArcs(edges), root, v, |es|)
    ensures Distinct(es) && forall e :: e in es ==> e in edges
    decreases |es|
  {
    if |es| > 0 {
      var init, last := es[..|es| - 1], es[|es| - 1];
      assert es == init + [last];
      WalkBefore(edges, root, v, es);
      ShortestIsDistinct(edges, root, OtherEnd(last, v), init);
      if last in init {
        WalkEndsNear(edges, root, OtherEnd(last, v), init, last);
      }
    }
  }

  lemma Rest(edges: set<Edge>, first: seq<Edge>) returns (order: seq<Edge>)
    requires Distinct(first) && forall e :: e in first ==> e in edges
    ensures first <= order && IsOrder(order, edges)
  {
    order := first;
    while EdgeSet(order) != edges
      invariant first <= order && Distinct(order) && EdgeSet(order) <= edges
      decreases edges - EdgeSet(order)
    {
      var e :| e in edges && e !in EdgeSet(order);
      assert EdgeSet(order + [e]) == EdgeSet(order) + {e};
      order := order + [e];
    }
  }

  /** For every shortest walk some order of the edges makes the search report its tier. */
  lemma OrderForWalk(edges: set<Edge>, root: string, v: string, es: seq<Edge>) returns (order: seq<Edge>)
    requires EdgeWalk(edges, root, v, es) && AtDist(UndirectedArcs(edges), root, v, |es|)
    ensures IsOrder(order, edges) && v in Final(root, order).depths
    ensures TierIn(order, root, v) == TierOf(LabelsOf(Climbed(edges, root, v, es)))
  {
    ShortestIsDistinct(edges, root, v, es);
    order := Rest(edges, es);
    FirstWalkIsTaken(root, order, v, es);
  }
}
