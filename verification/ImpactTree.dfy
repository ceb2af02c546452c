/** The search tree over the edges a blast-radius query returned, and the tier read off its paths. */
module ImpactTree {
  import opened Ordering
  import opened Reachability
  import opened GraphTypes

  datatype Tier = Static | InferredDI | CrossService | InferredAOP

  /** The tier a set of labels stands for, strongest evidence first. */
  predicate HasLabel(labels: seq<string>, choices: set<string>) {
    exists l :: l in choices && l in labels
  }

  function TierOf(labels: seq<string>): Tier {
    if HasLabel(labels, {"ADVISES"}) then InferredAOP
    else if HasLabel(labels, {"CALLS_REST", "CALLS_SOAP"}) then CrossService
    else if HasLabel(labels, {"INJECTS", "PRODUCES", "REGISTERS"}) then InferredDI
    else Static
  }

  /** Advice decides first, then remote calls, then injection and registration; without any of these it is static. */
  lemma TierByLabels(labels: seq<string>)
    ensures TierOf(labels) ==
            if "ADVISES" in labels then InferredAOP
            else if "CALLS_REST" in labels || "CALLS_SOAP" in labels then CrossService
            else if "INJECTS" in labels || "PRODUCES" in labels || "REGISTERS" in labels then InferredDI
            else Static
  {
  }

  function LabelsOf(es: seq<Edge>): seq<string> {
    seq(|es|, i requires 0 <= i < |es| => es[i].edgeLabel)
  }

  /** `es` leads from `root` to `v` through edges of the graph, crossed in either direction. */
  ghost predicate EdgeWalk(edges: set<Edge>, root: string, v: string, es: seq<Edge>)
    decreases |es|
  {
    if |es| == 0 then root == v
    else
      var last := es[|es| - 1];
      last in edges && Touches(last, v) && EdgeWalk(edges, root, OtherEnd(last, v), es[..|es| - 1])
  }

  lemma {:induction false} EdgeWalkReaches(edges: set<Edge>, root: string, v: string, es: seq<Edge>)
    requires EdgeWalk(edges, root, v, es)
    ensures v in Ball(UndirectedArcs(edges), root, |es|)
    decreases |es|
  {
    if |es| > 0 {
      var last := es[|es| - 1];
      EdgeWalkReaches(edges, root, OtherEnd(last, v), es[..|es| - 1]);
      assert (OtherEnd(last, v), v) in UndirectedArcs(edges);
    }
  }

  /** `tier` is what some shortest walk from `root` to `v`, of `d` edges, stands for. */
  ghost predicate TierOnShortestWalk(edges: set<Edge>, root: string, v: string, d: nat, tier: Tier) {
    AtDist(UndirectedArcs(edges), root, v, d)
    && exists es :: EdgeWalk(edges, root, v, es) && |es| == d && tier == TierOf(LabelsOf(es))
  }

  /** The end part of a walk, back from `v` to the root or to the first vertex without an id. */
  ghost function Climbed(edges: set<Edge>, root: string, v: string, es: seq<Edge>): seq<Edge>
    requires EdgeWalk(edges, root, v, es)
    decreases |es|
  {
    if |es| == 0 || v == "" then []
    else
      var last := es[|es| - 1];
      Climbed(edges, root, OtherEnd(last, v), es[..|es| - 1]) + [last]
  }

  /** `tier` is what the climb along some shortest walk from `v` back to `root` stands for. */
  ghost predicate TierOnClimb(edges: set<Edge>, root: string, v: string, d: nat, tier: Tier) {
    AtDist(UndirectedArcs(edges), root, v, d)
    && exists es :: EdgeWalk(edges, root, v, es) && |es| == d && tier == TierOf(LabelsOf(Climbed(edges, root, v, es)))
  }

  ghost predicate NamedEnds(edges: set<Edge>) {
    forall e :: e in edges ==> e.fromID != "" && e.toID != ""
  }

  lemma {:induction false} ClimbedWhole(edges: set<Edge>, root: string, v: string, es: seq<Edge>)
    requires NamedEnds(edges) && EdgeWalk(edges, root, v, es)
    ensures Climbed(edges, root, v, es) == es
    decreases |es|
  {
    if |es| > 0 {
      LastIsNamed(edges, root, v, es);
      ClimbedWhole(edges, root, OtherEnd(es[|es| - 1], v), es[..|es| - 1]);
      assert es == es[..|es| - 1] + [es[|es| - 1]];
    }
  }

  lemma LastIsNamed(edges: set<Edge>, root: string, v: string, es: seq<Edge>)
    requires NamedEnds(edges) && EdgeWalk(edges, root, v, es) && |es| > 0
    ensures v != "" && EdgeWalk(edges, root, OtherEnd(es[|es| - 1], v), es[..|es| - 1])
  {
    assert es[|es| - 1] in edges;
  }

  /** Where every vertex has an id, the climb is the whole walk. */
  lemma ClimbIsWalk(edges: set<Edge>, root: string, v: string, d: nat, tier: Tier)
    requires NamedEnds(edges)
    ensures TierOnClimb(edges, root, v, d, tier) <==> TierOnShortestWalk(edges, root, v, d, tier)
  {
    forall es | EdgeWalk(edges, root, v, es) ensures Climbed(edges, root, v, es) == es {
      ClimbedWhole(edges, root, v, es);
    }
  }

  // ---------------------------------------------------------------- the returned edges suffice

  /** The edges a query of `d` hops returns: those with an end nearer than `d`. */
  function Near(edges: set<Edge>, root: string, d: nat): set<Edge>
    requires d > 0
  {
    Touching(edges, Ball(UndirectedArcs(edges), root, d - 1))
  }

  lemma HeadsWithinSubgraph(edges: set<Edge>, root: string, d: nat, n: nat)
    requires n < d
    ensures Heads(UndirectedArcs(Near(edges, root, d)), Ball(UndirectedArcs(edges), root, n))
            == Heads(UndirectedArcs(edges), Ball(UndirectedArcs(edges), root, n))
  {
    BallMonotone(UndirectedArcs(edges), root, n, d - 1);
    var ids := Ball(UndirectedArcs(edges), root, n);
    var sub := Near(edges, root, d);
    forall a | a in UndirectedArcs(edges) && a.0 in ids ensures a in UndirectedArcs(sub) {
      var e := ArcIsCrossing(edges, a);
      CrossingIsArc(sub, e, a.0);
    }
  }

  lemma SubgraphStops(edges: set<Edge>, root: string, d: nat)
    requires d > 0
    ensures Heads(UndirectedArcs(Near(edges, root, d)), Ball(UndirectedArcs(edges), root, d))
            <= Ball(UndirectedArcs(edges), root, d)
  {
    var arcs := UndirectedArcs(edges);
    var inner := Ball(arcs, root, d - 1);
    forall a | a in UndirectedArcs(Near(edges, root, d)) && a.0 in Ball(arcs, root, d)
      ensures a.1 in Ball(arcs, root, d)
    {
      var e := ArcIsCrossing(Near(edges, root, d), a);
      if a.0 in inner {
        CrossingIsArc(edges, e, a.0);
        assert a.1 in Heads(arcs, inner);
      }
    }
  }

  /** Through the returned edges, all balls up to radius `d` are the ones of the whole graph, and no
      vertex farther than `d` can be reached. */
  lemma SubgraphTruncates(edges: set<Edge>, root: string, d: nat)
    requires d > 0
    ensures Truncates(UndirectedArcs(edges), UndirectedArcs(Near(edges, root, d)), root, d)
  {
    forall i: nat | i < d
      ensures LeavesAlike(UndirectedArcs(edges), UndirectedArcs(Near(edges, root, d)), root, i)
    {
      HeadsWithinSubgraph(edges, root, d, i);
    }
    SubgraphStops(edges, root, d);
    BallsTruncate(UndirectedArcs(edges), UndirectedArcs(Near(edges, root, d)), root, d);
  }

  lemma {:induction false} EdgeWalkInLarger(sub: set<Edge>, edges: set<Edge>, root: string, v: string, es: seq<Edge>)
    requires sub <= edges && EdgeWalk(sub, root, v, es)
    ensures EdgeWalk(edges, root, v, es)
    decreases |es|
  {
    if |es| > 0 {
      EdgeWalkInLarger(sub, edges, root, OtherEnd(es[|es| - 1], v), es[..|es| - 1]);
    }
  }

  // ---------------------------------------------------------------- the tier of a chain

  predicate Decides(l: string) {
    l in {"ADVISES", "CALLS_REST", "CALLS_SOAP", "INJECTS", "PRODUCES", "REGISTERS"}
  }

  function LabelTier(l: string): Tier
    requires Decides(l)
  {
    match l
    case "CALLS_SOAP" => CrossService
    case "CALLS_REST" => CrossService
    case "ADVISES" => InferredAOP
    case _ => InferredDI
  }

  lemma Initials(l: string)
    requires Decides(l)
    ensures |l| > 0 && l[0] >= 'A'
    ensures l == "ADVISES" <==> l[0] < 'C'
    ensures l == "CALLS_REST" || l == "CALLS_SOAP" <==> l[0] == 'C'
  {
  }

  /** In an alphabetical list, the first label that decides is the strongest one present. */
  lemma FirstDecidingLabel(labels: seq<string>, s: seq<string>, i: nat)
    requires Sorted(StringLe, s) && multiset(s) == multiset(labels)
    requires i < |s| && Decides(s[i]) && forall j :: 0 <= j < i ==> !Decides(s[j])
    ensures LabelTier(s[i]) == TierOf(labels)
  {
    SameElements(labels, s);
    var first := s[i];
    Initials(first);
    forall l | l in labels && Decides(l) ensures l[0] >= first[0] && |l| > 0 {
      Initials(l);
      var j :| 0 <= j < |s| && s[j] == l;
      assert i < j ==> StringLe(s[i], s[j]);
    }
    StrongestByInitial(labels, first);
  }

  lemma StrongestByInitial(labels: seq<string>, first: string)
    requires Decides(first) && |first| > 0 && first in labels
    requires forall l :: l in labels && Decides(l) ==> |l| > 0 && l[0] >= first[0]
    ensures LabelTier(first) == TierOf(labels)
  {
    Initials(first);
    forall l | l in labels && Decides(l) ensures |l| > 0 && l[0] >= first[0] {}
    if HasLabel(labels, {"ADVISES"}) {
      Initials("ADVISES");
      assert first == "ADVISES";
    } else if HasLabel(labels, {"CALLS_REST", "CALLS_SOAP"}) {
      Initials("CALLS_REST");
      Initials("CALLS_SOAP");
      assert first == "CALLS_REST" || first == "CALLS_SOAP";
    }
  }

  lemma NoDecidingLabel(labels: seq<string>, s: seq<string>)
    requires multiset(s) == multiset(labels) && forall j :: 0 <= j < |s| ==> !Decides(s[j])
    ensures TierOf(labels) == Static
  {
    SameElements(labels, s);
  }

  // ---------------------------------------------------------------- the search

  /** Number of edges of the list that leave `id`. */
  function OutCount(edges: seq<Edge>, id: string): nat {
    if |edges| == 0 then 0
    else OutCount(edges[..|edges| - 1], id) + if edges[|edges| - 1].fromID == id then 1 else 0
  }

  /** Each vertex met, other than the root, hangs by an edge from a vertex one step nearer. */
  ghost predicate Tree(edges: set<Edge>, root: string, depths: map<string, nat>,
                       parent: map<string, string>, parentEdge: map<string, Edge>)
  {
    forall v {:trigger v in parent} {:trigger parent[v]} {:trigger v in parentEdge} {:trigger parentEdge[v]} ::
      v in depths && v != root ==>
      && v in parent && v in parentEdge && parentEdge[v] in edges
      && Touches(parentEdge[v], v) && OtherEnd(parentEdge[v], v) == parent[v]
      && parent[v] in depths && depths[v] == depths[parent[v]] + 1
  }

  /** The edges from the root down to `v` in the tree. */
  ghost function Chain(edges: set<Edge>, root: string, depths: map<string, nat>, parent: map<string, string>,
                       parentEdge: map<string, Edge>, v: string): (es: seq<Edge>)
    requires Tree(edges, root, depths, parent, parentEdge) && v in depths
    ensures EdgeWalk(edges, root, v, es)
    ensures root in depths && depths[root] == 0 ==> |es| == depths[v]
    decreases depths[v]
  {
    if v == root then []
    else Chain(edges, root, depths, parent, parentEdge, parent[v]) + [parentEdge[v]]
  }

  /** The edges of the chain that a walk back from `v` sees before it stops. */
  ghost function Climb(edges: set<Edge>, root: string, depths: map<string, nat>, parent: map<string, string>,
                       parentEdge: map<string, Edge>, v: string): seq<Edge>
    requires Tree(edges, root, depths, parent, parentEdge) && v in depths
  {
    Climbed(edges, root, v, Chain(edges, root, depths, parent, parentEdge, v))
  }

  lemma ClimbsOn(edges: set<Edge>, root: string, depths: map<string, nat>, parent: map<string, string>,
                 parentEdge: map<string, Edge>, v: string)
    requires Tree(edges, root, depths, parent, parentEdge) && v in depths && v != root && v != ""
    ensures Climb(edges, root, depths, parent, parentEdge, v)
         == Climb(edges, root, depths, parent, parentEdge, parent[v]) + [parentEdge[v]]
  {
    var rest := Chain(edges, root, depths, parent, parentEdge, parent[v]);
    assert (rest + [parentEdge[v]])[..|rest|] == rest;
  }

  lemma TreeGrows(edges: set<Edge>, root: string, depths: map<string, nat>, parent: map<string, string>,
                  parentEdge: map<string, Edge>, cur: string, next: string, e: Edge)
    requires Tree(edges, root, depths, parent, parentEdge)
    requires cur in depths && next !in depths && e in edges && Touches(e, cur) && OtherEnd(e, cur) == next
    ensures Tree(edges, root, depths[next := depths[cur] + 1], parent[next := cur], parentEdge[next := e])
  {
  }

  lemma LabelsOneMore(labels: seq<string>, rest: seq<Edge>, e: Edge)
    ensures multiset(labels + [e.edgeLabel]) + multiset(LabelsOf(rest)) == multiset(labels) + multiset(LabelsOf(rest + [e]))
  {
    assert LabelsOf(rest + [e]) == LabelsOf(rest) + [e.edgeLabel];
  }

  /** The labels met on the way from `nodeID` up to the root. */
  method ChainLabels(nodeID: string, parent: map<string, string>, parentEdge: map<string, Edge>, rootID: string,
                     ghost edges: set<Edge>, ghost depths: map<string, nat>)
    returns (labels: seq<string>)
    requires Tree(edges, rootID, depths, parent, parentEdge) && nodeID in depths
    ensures multiset(labels) == multiset(LabelsOf(Climb(edges, rootID, depths, parent, parentEdge, nodeID)))
  {
    labels := [];
    var cur := nodeID;
    ghost var whole := LabelsOf(Climb(edges, rootID, depths, parent, parentEdge, nodeID));
    while cur != "" && cur != rootID
      invariant cur in depths
      invariant multiset(labels) + multiset(LabelsOf(Climb(edges, rootID, depths, parent, parentEdge, cur)))
                == multiset(whole)
      decreases depths[cur]
    {
      if cur !in parentEdge {
        break;
      }
      var e := parentEdge[cur];
      ClimbsOn(edges, rootID, depths, parent, parentEdge, cur);
      LabelsOneMore(labels, Climb(edges, rootID, depths, parent, parentEdge, parent[cur]), e);
      labels := labels + [e.edgeLabel];
      cur := if cur in parent then parent[cur] else "";
    }
  }

  method ClassifyTier(nodeID: string, parent: map<string, string>, parentEdge: map<string, Edge>, rootID: string,
                      ghost edges: set<Edge>, ghost depths: map<string, nat>)
    returns (tier: Tier)
    requires Tree(edges, rootID, depths, parent, parentEdge) && nodeID in depths
    ensures tier == TierOf(LabelsOf(Climb(edges, rootID, depths, parent, parentEdge, nodeID)))
  {
    var labels := ChainLabels(nodeID, parent, parentEdge, rootID, edges, depths);
    TierOfPermutation(labels, LabelsOf(Climb(edges, rootID, depths, parent, parentEdge, nodeID)));
    tier := FirstDeciding(labels);
  }

  lemma LabelsSorted(labels: seq<string>)
    ensures Sorted(StringLe, Sort(StringLe, labels))
  {
    StringLeRanking();
    SortSorts(StringLe, labels);
  }

  method FirstDeciding(labels: seq<string>) returns (tier: Tier)
    ensures tier == TierOf(labels)
  {
    if |labels| == 0 {
      return Static;
    }
    LabelsSorted(labels);
    tier := FirstOf(Sort(StringLe, labels), labels);
  }

  method FirstOf(sorted: seq<string>, ghost labels: seq<string>) returns (tier: Tier)
    requires Sorted(StringLe, sorted) && multiset(sorted) == multiset(labels)
    ensures tier == TierOf(labels)
  {
    for i := 0 to |sorted|
      invariant forall j :: 0 <= j < i ==> !Decides(sorted[j])
    {
      if Decides(sorted[i]) {
        FirstDecidingLabel(labels, sorted, i);
        return LabelTier(sorted[i]);
      }
    }
    NoDecidingLabel(labels, sorted);
    return Static;
  }

  lemma TierOfPermutation(a: seq<string>, b: seq<string>)
    requires multiset(a) == multiset(b)
    ensures TierOf(a) == TierOf(b)
  {
    SameElements(a, b);
  }
}
