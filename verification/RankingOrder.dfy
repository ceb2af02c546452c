/** What the order of the edges decides about an impact ranking, and when it decides nothing. */
module RankingOrder {
  import opened Ordering
  import opened Reachability
  import opened GraphTypes
  import opened ImpactTree
  import opened TreeSearch
  import opened EdgeOrder
  import opened Impact

  /** The ranking made from the returned edges in the given order. */
  ghost predicate IsRankingOf(rows: seq<ImpactResult>, nodes: map<string, Node>, edges: set<Edge>, root: string,
                              depth: nat, order: seq<Edge>)
    requires depth > 0
  {
    && IsOrder(order, Near(edges, root, depth)) && IsImpact(rows, nodes, edges, root, depth)
    && forall row :: row in rows ==> TierFromOrder(row, root, order)
  }

  ghost predicate TierFromOrder(row: ImpactResult, root: string, order: seq<Edge>) {
    row.nodeID in Final(root, order).depths && row.tier == TierIn(order, root, row.nodeID)
  }

  ghost predicate TrueRow(row: ImpactResult, nodes: map<string, Node>, edges: set<Edge>, root: string, depth: nat,
                          order: seq<Edge>)
    requires depth > 0
  {
    ImpactRow(row, nodes, edges, root, depth) && TierFromOrder(row, root, order)
  }

  // ---------------------------------------------------------------- every order has one ranking

  /** In any order the search reaches the same vertices, and reads each tier off a shortest walk. */
  lemma OrderReaches(edges: set<Edge>, root: string, depth: nat, order: seq<Edge>, v: string)
    requires depth > 0 && NamedEnds(edges) && IsOrder(order, Near(edges, root, depth))
    ensures v in Final(root, order).depths <==> v in Ball(UndirectedArcs(edges), root, depth)
    ensures v in Final(root, order).depths ==>
              TierOnShortestWalk(edges, root, v, Final(root, order).depths[v], TierIn(order, root, v))
  {
    var s, near := Final(root, order), Near(edges, root, depth);
    var low := FinalSearching(root, order);
    SubgraphTruncates(edges, root, depth);
    TruncatedSearch(UndirectedArcs(edges), UndirectedArcs(near), root, depth, s.depths, low);
    if v in s.depths {
      TierInIsOnClimb(order, root, v);
      ClimbIsWalk(near, root, v, s.depths[v], TierIn(order, root, v));
      TierInWholeGraph(edges, root, depth, v, s.depths[v], TierIn(order, root, v));
    }
  }

  lemma RowFor(nodes: map<string, Node>, edges: set<Edge>, root: string, depth: nat, v: string, order: seq<Edge>)
    returns (row: ImpactResult)
    requires depth > 0 && NamedEnds(edges) && IsOrder(order, Near(edges, root, depth))
    requires Listed(v, nodes, edges, root, depth)
    ensures row.nodeID == v && TrueRow(row, nodes, edges, root, depth, order)
  {
    var arcs := UndirectedArcs(edges);
    OrderReaches(edges, root, depth, order, v);
    var d, tier := Final(root, order).depths[v], TierIn(order, root, v);
    NoShorter(arcs, root, v, d, depth);
    assert Ball(arcs, root, 0) == {root};
    row := ImpactResult(v, nodes[v].sourceRef, ImpactScore(tier, OutDegree(Near(edges, root, depth), v), d), tier, d);
  }

  ghost predicate RowsFor(rows: seq<ImpactResult>, nodes: map<string, Node>, edges: set<Edge>, root: string, depth: nat,
                          order: seq<Edge>, ids: set<string>)
    requires depth > 0
  {
    && KeysDistinct(RowId, rows)
    && (forall row :: row in rows ==> row.nodeID in ids && TrueRow(row, nodes, edges, root, depth, order))
    && (forall v :: v in ids ==> HasRow(rows, v))
  }

  lemma RowIdsStayDistinct(rows: seq<ImpactResult>, row: ImpactResult)
    requires KeysDistinct(RowId, rows) && forall r :: r in rows ==> r.nodeID != row.nodeID
    ensures KeysDistinct(RowId, rows + [row])
  {
    var more := rows + [row];
    forall i, j | 0 <= i < j < |more| ensures RowId(more[i]) != RowId(more[j]) {
      if j == |rows| {
        assert rows[i] in rows;
      } else {
        assert RowId(rows[i]) != RowId(rows[j]);
      }
    }
  }

  lemma RowsForOneMore(rows: seq<ImpactResult>, nodes: map<string, Node>, edges: set<Edge>, root: string, depth: nat,
                       order: seq<Edge>, ids: set<string>, row: ImpactResult)
    requires depth > 0 && RowsFor(rows, nodes, edges, root, depth, order, ids)
    requires row.nodeID !in ids && TrueRow(row, nodes, edges, root, depth, order)
    ensures RowsFor(rows + [row], nodes, edges, root, depth, order, ids + {row.nodeID})
  {
    RowIdsStayDistinct(rows, row);
    forall v | v in ids + {row.nodeID} ensures HasRow(rows + [row], v) {
      HasRowOneMore(rows, row, v);
    }
  }

  lemma HasRowOneMore(rows: seq<ImpactResult>, row: ImpactResult, v: string)
    requires HasRow(rows, v) || v == row.nodeID
    ensures HasRow(rows + [row], v)
  {
    if v == row.nodeID {
      assert row in rows + [row];
    } else {
      var r :| r in rows && r.nodeID == v;
      assert r in rows + [row];
    }
  }

  lemma MakeRowsFor(nodes: map<string, Node>, edges: set<Edge>, root: string, depth: nat, order: seq<Edge>, ids: set<string>)
    returns (rows: seq<ImpactResult>)
    requires depth > 0 && NamedEnds(edges) && IsOrder(order, Near(edges, root, depth))
    requires forall v :: v in ids ==> Listed(v, nodes, edges, root, depth)
    ensures RowsFor(rows, nodes, edges, root, depth, order, ids)
  {
    rows := [];
    var done: set<string> := {};
    while done != ids
      invariant done <= ids && RowsFor(rows, nodes, edges, root, depth, order, done)
      decreases ids - done
    {
      var v :| v in ids && v !in done;
      var row := RowFor(nodes, edges, root, depth, v, order);
      RowsForOneMore(rows, nodes, edges, root, depth, order, done, row);
      rows, done := rows + [row], done + {v};
    }
  }

  /** Sorting true rows, one for each listed node, gives the ranking of that order of the edges. */
  lemma SortedRanking(rows: seq<ImpactResult>, nodes: map<string, Node>, edges: set<Edge>, root: string, depth: nat,
                      order: seq<Edge>)
    requires depth > 0 && KeysDistinct(RowId, rows) && IsOrder(order, Near(edges, root, depth))
    requires forall row :: row in rows ==> TrueRow(row, nodes, edges, root, depth, order)
    requires forall v :: v in Ball(UndirectedArcs(edges), root, depth) && v != root && v in nodes ==> HasRow(rows, v)
    ensures IsRankingOf(Sort(ImpactLe, rows), nodes, edges, root, depth, order)
  {
    SortedImpact(rows, nodes, edges, root, depth);
    SameElements(rows, Sort(ImpactLe, rows));
  }

  lemma OrderHasRanking(nodes: map<string, Node>, edges: set<Edge>, root: string, depth: nat, order: seq<Edge>)
    returns (rows: seq<ImpactResult>)
    requires depth > 0 && NamedEnds(edges) && IsOrder(order, Near(edges, root, depth))
    ensures IsRankingOf(rows, nodes, edges, root, depth, order)
  {
    var ids := set u | u in Ball(UndirectedArcs(edges), root, depth) && u != root && u in nodes;
    var made := MakeRowsFor(nodes, edges, root, depth, order, ids);
    SortedRanking(made, nodes, edges, root, depth, order);
    rows := Sort(ImpactLe, made);
  }

  /** One order of the edges allows one ranking. */
  lemma OneRankingPerOrder(a: seq<ImpactResult>, b: seq<ImpactResult>, nodes: map<string, Node>, edges: set<Edge>,
                           root: string, depth: nat, order: seq<Edge>)
    requires depth > 0
    requires IsRankingOf(a, nodes, edges, root, depth, order) && IsRankingOf(b, nodes, edges, root, depth, order)
    ensures a == b
  {
    forall x, y | x in a && y in b && x.nodeID == y.nodeID ensures x.tier == y.tier {
      assert TierFromOrder(x, root, order) && TierFromOrder(y, root, order);
    }
    TiersDecideRanking(a, b, nodes, edges, root, depth);
  }

  // ---------------------------------------------------------------- when the order does not matter

  /** All shortest walks to `v` stand for the same tier. */
  ghost predicate OneTier(edges: set<Edge>, root: string, v: string) {
    forall d, s, t :: TierOnShortestWalk(edges, root, v, d, s) && TierOnShortestWalk(edges, root, v, d, t) ==> s == t
  }

  ghost predicate TiersAgree(nodes: map<string, Node>, edges: set<Edge>, root: string, depth: nat) {
    forall v :: Listed(v, nodes, edges, root, depth) ==> OneTier(edges, root, v)
  }

  lemma AgreedRankingIsUnique(a: seq<ImpactResult>, b: seq<ImpactResult>, nodes: map<string, Node>, edges: set<Edge>,
                              root: string, depth: nat)
    requires depth > 0 && IsImpact(a, nodes, edges, root, depth) && IsImpact(b, nodes, edges, root, depth)
    requires TiersAgree(nodes, edges, root, depth)
    ensures a == b
  {
    forall x, y | x in a && y in b && x.nodeID == y.nodeID ensures x.tier == y.tier {
      assert ImpactRow(x, nodes, edges, root, depth) && ImpactRow(y, nodes, edges, root, depth);
      RowListed(x, nodes, edges, root, depth);
      SameDepth(x, y, nodes, edges, root, depth);
      assert OneTier(edges, root, x.nodeID);
    }
    TiersDecideRanking(a, b, nodes, edges, root, depth);
  }

  /** A short walk uses returned edges only. */
  lemma {:induction false} WalkIsNear(edges: set<Edge>, root: string, depth: nat, v: string, es: seq<Edge>)
    requires depth > 0 && |es| <= depth && EdgeWalk(edges, root, v, es)
    ensures EdgeWalk(Near(edges, root, depth), root, v, es)
    decreases |es|
  {
    if |es| > 0 {
      var init, last := es[..|es| - 1], es[|es| - 1];
      WalkIsNear(edges, root, depth, OtherEnd(last, v), init);
      EdgeWalkReaches(edges, root, OtherEnd(last, v), init);
      InWiderBall(UndirectedArcs(edges), root, |es| - 1, depth - 1, OtherEnd(last, v));
    }
  }

  lemma NearDistance(edges: set<Edge>, root: string, depth: nat, v: string, d: nat)
    requires 0 < depth && d <= depth && AtDist(UndirectedArcs(edges), root, v, d)
    ensures AtDist(UndirectedArcs(Near(edges, root, depth)), root, v, d)
  {
    SubgraphTruncates(edges, root, depth);
    var arcs, near := UndirectedArcs(edges), UndirectedArcs(Near(edges, root, depth));
    assert Ball(near, root, d) == Ball(arcs, root, Min(d, depth));
    if d > 0 {
      assert Ball(near, root, d - 1) == Ball(arcs, root, Min(d - 1, depth));
    }
  }

  /** Every tier a shortest walk stands for is the one some order of the edges makes the search report. */
  lemma OrderForTier(edges: set<Edge>, root: string, depth: nat, v: string, d: nat, tier: Tier) returns (order: seq<Edge>)
    requires depth > 0 && NamedEnds(edges) && d <= depth && TierOnShortestWalk(edges, root, v, d, tier)
    ensures IsOrder(order, Near(edges, root, depth)) && v in Final(root, order).depths && TierIn(order, root, v) == tier
  {
    var es :| EdgeWalk(edges, root, v, es) && |es| == d && tier == TierOf(LabelsOf(es));
    WalkIsNear(edges, root, depth, v, es);
    NearDistance(edges, root, depth, v, d);
    order := OrderForWalk(Near(edges, root, depth), root, v, es);
    ClimbedWhole(Near(edges, root, depth), root, v, es);
  }

  lemma RankingShows(nodes: map<string, Node>, edges: set<Edge>, root: string, depth: nat, v: string, d: nat, tier: Tier)
    returns (order: seq<Edge>, rows: seq<ImpactResult>, row: ImpactResult)
    requires depth > 0 && NamedEnds(edges) && Listed(v, nodes, edges, root, depth) && TierOnShortestWalk(edges, root, v, d, tier)
    ensures IsRankingOf(rows, nodes, edges, root, depth, order)
    ensures row in rows && row.nodeID == v && row.tier == tier
  {
    NoShorter(UndirectedArcs(edges), root, v, d, depth);
    order := OrderForTier(edges, root, depth, v, d, tier);
    rows := OrderHasRanking(nodes, edges, root, depth, order);
    HasRowIffListed(rows, nodes, edges, root, depth, v);
    row :| row in rows && row.nodeID == v;
    assert TierFromOrder(row, root, order);
  }

  lemma DisagreementShows(nodes: map<string, Node>, edges: set<Edge>, root: string, depth: nat, v: string)
    returns (p: seq<Edge>, q: seq<Edge>, a: seq<ImpactResult>, b: seq<ImpactResult>)
    requires depth > 0 && NamedEnds(edges) && Listed(v, nodes, edges, root, depth) && !OneTier(edges, root, v)
    ensures IsRankingOf(a, nodes, edges, root, depth, p) && IsRankingOf(b, nodes, edges, root, depth, q) && a != b
  {
    var d, s, t :| TierOnShortestWalk(edges, root, v, d, s) && TierOnShortestWalk(edges, root, v, d, t) && s != t;
    var x, y;
    p, a, x := RankingShows(nodes, edges, root, depth, v, d, s);
    q, b, y := RankingShows(nodes, edges, root, depth, v, d, t);
    RowsAreDistinct(a);
  }

  /** The ranking is the same for every order of the returned edges exactly when the shortest walks to every
      listed node stand for the same tier. */
  lemma RankingIsUniqueIff(nodes: map<string, Node>, edges: set<Edge>, root: string, depth: nat)
    requires depth > 0 && NamedEnds(edges)
    ensures (forall p, q, a, b ::
               IsRankingOf(a, nodes, edges, root, depth, p) && IsRankingOf(b, nodes, edges, root, depth, q) ==> a == b)
       <==> TiersAgree(nodes, edges, root, depth)
  {
    if TiersAgree(nodes, edges, root, depth) {
      forall p, q, a, b | IsRankingOf(a, nodes, edges, root, depth, p) && IsRankingOf(b, nodes, edges, root, depth, q)
        ensures a == b
      {
        AgreedRankingIsUnique(a, b, nodes, edges, root, depth);
      }
    } else {
      var v :| Listed(v, nodes, edges, root, depth) && !OneTier(edges, root, v);
      var p, q, a, b := DisagreementShows(nodes, edges, root, depth, v);
    }
  }

  // ---------------------------------------------------------------- two edges, two orders, two tiers

  lemma OneEdgeWalk(edges: set<Edge>, root: string, v: string, e: Edge)
    requires e in edges && e.fromID == root && e.toID == v && root != v
    ensures EdgeWalk(edges, root, v, [e]) && AtDist(UndirectedArcs(edges), root, v, 1)
    ensures v != "" ==> Climbed(edges, root, v, [e]) == [e]
  {
    assert [e][..0] == [];
    assert EdgeWalk(edges, root, root, []);
    var arcs := UndirectedArcs(edges);
    assert (root, v) in arcs;
    assert Ball(arcs, root, 0) == {root};
    assert v in Heads(arcs, Ball(arcs, root, 0));
  }

  /** Of parallel edges the search takes the one listed first. */
  lemma FirstOfParallel(first: Edge, second: Edge)
    requires first.fromID != first.toID && first.toID != ""
    ensures first.toID in Final(first.fromID, [first, second]).depths
    ensures TierIn([first, second], first.fromID, first.toID) == TierOf([first.edgeLabel])
  {
    var edges := [first, second];
    assert first in edges && [first] <= edges;
    OneEdgeWalk(EdgeSet(edges), first.fromID, first.toID, first);
    FirstWalkIsTaken(first.fromID, edges, first.toID, [first]);
    assert LabelsOf([first]) == [first.edgeLabel];
  }

  lemma LabelsDecide()
    ensures TierOf(["ADVISES"]) == InferredAOP && TierOf(["IMPORTS"]) == Static
  {
    assert "ADVISES" in ["ADVISES"];
    assert forall l :: l in ["IMPORTS"] ==> l == "IMPORTS";
    assert |"IMPORTS"| == 7 && |"ADVISES"| == 7 && "IMPORTS"[0] == 'I' && "ADVISES"[0] == 'A';
    assert |"CALLS_REST"| == 10 && |"CALLS_SOAP"| == 10 && |"PRODUCES"| == 8 && |"REGISTERS"| == 9;
    assert "INJECTS"[1] == 'N' && "IMPORTS"[1] == 'M';
  }

  /** The same two edges in their two orders give one node two tiers. */
  lemma OrderDecidesTier(root: string, v: string, adviceID: string, plainID: string)
    requires root != v && v != ""
    ensures var advice, plain := Edge(adviceID, "ADVISES", root, v), Edge(plainID, "IMPORTS", root, v);
            && v in Final(root, [advice, plain]).depths && TierIn([advice, plain], root, v) == InferredAOP
            && v in Final(root, [plain, advice]).depths && TierIn([plain, advice], root, v) == Static
  {
    var advice, plain := Edge(adviceID, "ADVISES", root, v), Edge(plainID, "IMPORTS", root, v);
    FirstOfParallel(advice, plain);
    FirstOfParallel(plain, advice);
    LabelsDecide();
  }
}
