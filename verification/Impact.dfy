/** Impact rows: what a row of the analysis says, how rows rank, and why distance beats tier. */
module Impact {
  import opened Prelude
  import opened Ordering
  import opened Reachability
  import opened GraphTypes
  import opened ImpactTree

  const HUB_THRESHOLD := 50
  const HUB_DAMPING: real := 0.5

  datatype ImpactResult = ImpactResult(nodeID: string, sourceRef: string, score: real, tier: Tier, depthFromRoot: nat)

  function TierWeight(tier: Tier): real {
    match tier
    case Static => 1.0
    case InferredDI => 0.9
    case CrossService => 0.8
    case InferredAOP => 0.85
  }

  function Damping(outDegree: nat): real {
    if outDegree > HUB_THRESHOLD then HUB_DAMPING else 1.0
  }

  function ImpactScore(tier: Tier, outDegree: nat, depth: nat): real
    requires depth > 0
  {
    TierWeight(tier) * Damping(outDegree) / depth as real
  }

  /** Number of edges of the set that leave `v`. */
  function OutDegree(edges: set<Edge>, v: string): nat {
    |OutEdges(edges, v)|
  }

  function OutEdges(edges: set<Edge>, v: string): set<Edge> {
    set e | e in edges && e.fromID == v
  }

  lemma {:induction false} OutCountIsOutDegree(edges: seq<Edge>, v: string)
    requires Distinct(edges)
    ensures OutCount(edges, v) == OutDegree(EdgeSet(edges), v)
  {
    if |edges| == 0 {
      assert OutEdges(EdgeSet(edges), v) == {};
    } else {
      OutCountIsOutDegree(edges[..|edges| - 1], v);
      OneMoreOut(edges, v);
    }
  }

  lemma OneMoreOut(edges: seq<Edge>, v: string)
    requires Distinct(edges) && |edges| > 0
    ensures var init, last := edges[..|edges| - 1], edges[|edges| - 1];
            OutDegree(EdgeSet(edges), v) == OutDegree(EdgeSet(init), v) + if last.fromID == v then 1 else 0
  {
    var init, last := edges[..|edges| - 1], edges[|edges| - 1];
    assert edges == init + [last];
    assert last !in init;
    assert OutEdges(EdgeSet(edges), v) == OutEdges(EdgeSet(init), v) + if last.fromID == v then {last} else {};
  }

  /** The degree that decides the damping is never more than the true one, and is the true one exactly for
      a node nearer than the depth asked for, or one whose outgoing edges all lead to such nodes. */
  lemma RimDegree(edges: set<Edge>, root: string, depth: nat, v: string)
    requires depth > 0
    ensures OutDegree(Near(edges, root, depth), v) <= OutDegree(edges, v)
    ensures OutDegree(Near(edges, root, depth), v) == OutDegree(edges, v) <==>
            || v in Ball(UndirectedArcs(edges), root, depth - 1)
            || forall e :: e in edges && e.fromID == v ==> e.toID in Ball(UndirectedArcs(edges), root, depth - 1)
  {
    var near, all := OutEdges(Near(edges, root, depth), v), OutEdges(edges, v);
    assert near <= all;
    SubsetCount(near, all);
    if |near| == |all| {
      SameSizeSubset(near, all);
      assert forall e :: e in edges && e.fromID == v ==> e in near;
    }
    if near != all {
      var e :| e in all && e !in near;
      assert e in edges && e.fromID == v;
    }
  }

  lemma SameSizeSubset<T>(a: set<T>, b: set<T>)
    requires a <= b && |a| == |b|
    ensures a == b
  {
    assert b == a + (b - a);
    assert |b - a| == 0;
  }

  // ---------------------------------------------------------------- a hub at the rim

  /** A valid id for each small number. */
  function Digest(i: nat): (id: string)
    requires i <= 64
    ensures IsDigest(id)
  {
    seq(64, k => if k < i then 'a' else '0')
  }

  lemma DigestsDiffer(i: nat, j: nat)
    requires i < j <= 64
    ensures Digest(i) != Digest(j)
  {
    assert Digest(i)[i] == '0' && Digest(j)[i] == 'a';
  }

  /** The root calls the hub, which calls `n` others. */
  function HubEdges(n: nat): set<Edge>
    requires n <= 60
  {
    {Edge(Digest(0), "CALLS", Digest(0), Digest(1))} + Spokes(n)
  }

  function Spoke(i: nat): Edge
    requires i < 60
  {
    Edge(Digest(i + 1), "CALLS", Digest(1), Digest(i + 2))
  }

  function Spokes(n: nat): set<Edge>
    requires n <= 60
  {
    set i | 0 <= i < n :: Spoke(i)
  }

  lemma {:induction false} SpokeCount(n: nat)
    requires n <= 60
    ensures |Spokes(n)| == n
  {
    if n > 0 {
      SpokeCount(n - 1);
      var last := Spoke(n - 1);
      forall i | 0 <= i < n - 1 ensures Spoke(i) != last {
        DigestsDiffer(i + 1, n);
      }
      assert last !in Spokes(n - 1);
      assert Spokes(n) == Spokes(n - 1) + {last};
    }
  }

  lemma HubDegree(n: nat)
    requires n <= 60
    ensures OutDegree(HubEdges(n), Digest(1)) == n
    ensures OutDegree(Near(HubEdges(n), Digest(0), 1), Digest(1)) == 0
  {
    DigestsDiffer(0, 1);
    SpokeCount(n);
    assert OutEdges(HubEdges(n), Digest(1)) == Spokes(n);
    forall e | e in Spokes(n) ensures e.toID != Digest(0) {
      var i :| 0 <= i < n && e == Spoke(i);
      DigestsDiffer(0, i + 2);
    }
    assert OutEdges(Near(HubEdges(n), Digest(0), 1), Digest(1)) == {};
  }

  /** A hub one hop away, at depth 1, is not damped although the whole graph would damp it. */
  lemma RimHubIsNotDamped()
    ensures Damping(OutDegree(Near(HubEdges(51), Digest(0), 1), Digest(1))) == 1.0
    ensures Damping(OutDegree(HubEdges(51), Digest(1))) == 0.5
    ensures AtDist(UndirectedArcs(HubEdges(51)), Digest(0), Digest(1), 1)
  {
    HubDegree(51);
    var arcs := UndirectedArcs(HubEdges(51));
    assert Edge(Digest(0), "CALLS", Digest(0), Digest(1)) in HubEdges(51);
    assert (Digest(0), Digest(1)) in arcs;
    DigestsDiffer(0, 1);
    assert Ball(arcs, Digest(0), 0) == {Digest(0)};
    assert Digest(1) in Heads(arcs, Ball(arcs, Digest(0), 0));
  }

  predicate ImpactLe(a: ImpactResult, b: ImpactResult) {
    a.score > b.score || (a.score == b.score && StringLe(a.nodeID, b.nodeID))
  }

  lemma ImpactLeRanking()
    ensures Ranking(ImpactLe)
  {
    forall a, b ensures ImpactLe(a, b) || ImpactLe(b, a) {
      StringLeTotal(a.nodeID, b.nodeID);
    }
    forall a, b, c | ImpactLe(a, b) && ImpactLe(b, c) ensures ImpactLe(a, c) {
      if a.score == b.score == c.score {
        StringLeTransitive(a.nodeID, b.nodeID, c.nodeID);
      }
    }
  }

  function RowId(row: ImpactResult): string {
    row.nodeID
  }

  /** A row tells the truth about a stored node: its distance in the whole graph, a tier read off one
      of its shortest walks, and the score these entail. */
  ghost predicate ImpactRow(row: ImpactResult, nodes: map<string, Node>, edges: set<Edge>, root: string, depth: nat)
    requires depth > 0
  {
    && row.nodeID in nodes && row.nodeID != root
    && row.sourceRef == nodes[row.nodeID].sourceRef
    && 1 <= row.depthFromRoot <= depth
    && TierOnShortestWalk(edges, root, row.nodeID, row.depthFromRoot, row.tier)
    && row.score == ImpactScore(row.tier, OutDegree(Near(edges, root, depth), row.nodeID), row.depthFromRoot)
  }

  ghost predicate HasRow(rows: seq<ImpactResult>, id: string) {
    exists row :: row in rows && row.nodeID == id
  }

  /** The full ranking: one true row for every stored node within `depth` of the root, in order. */
  ghost predicate IsImpact(rows: seq<ImpactResult>, nodes: map<string, Node>, edges: set<Edge>, root: string, depth: nat)
    requires depth > 0
  {
    && Sorted(ImpactLe, rows) && KeysDistinct(RowId, rows)
    && (forall row :: row in rows ==> ImpactRow(row, nodes, edges, root, depth))
    && (forall v :: v in Ball(UndirectedArcs(edges), root, depth) && v != root && v in nodes ==> HasRow(rows, v))
  }

  lemma SortedImpact(rows: seq<ImpactResult>, nodes: map<string, Node>, edges: set<Edge>, root: string, depth: nat)
    requires depth > 0 && KeysDistinct(RowId, rows)
    requires forall row :: row in rows ==> ImpactRow(row, nodes, edges, root, depth)
    requires forall v :: v in Ball(UndirectedArcs(edges), root, depth) && v != root && v in nodes ==> HasRow(rows, v)
    ensures IsImpact(Sort(ImpactLe, rows), nodes, edges, root, depth)
  {
    var s := Sort(ImpactLe, rows);
    ImpactLeRanking();
    SortSorts(ImpactLe, rows);
    SameElements(rows, s);
    KeysDistinctPermutation(RowId, rows, s);
    forall v | HasRow(rows, v) ensures HasRow(s, v) {
      var row :| row in rows && row.nodeID == v;
      assert row in s;
    }
  }

  // ---------------------------------------------------------------- what the ranking says

  /** Best score first, and by id where scores tie. */
  lemma RowsAreRanked(rows: seq<ImpactResult>, nodes: map<string, Node>, edges: set<Edge>, root: string, depth: nat, i: nat, j: nat)
    requires depth > 0 && IsImpact(rows, nodes, edges, root, depth) && i < j < |rows|
    ensures rows[i].score > rows[j].score || (rows[i].score == rows[j].score && StringLess(rows[i].nodeID, rows[j].nodeID))
  {
    assert ImpactLe(rows[i], rows[j]) && RowId(rows[i]) != RowId(rows[j]);
  }

  /** The score of a row, without what else the row says. */
  ghost predicate Scored(row: ImpactResult, degree: nat) {
    row.depthFromRoot > 0 && row.score == ImpactScore(row.tier, degree, row.depthFromRoot)
  }

  lemma RowIsScored(row: ImpactResult, nodes: map<string, Node>, edges: set<Edge>, root: string, depth: nat)
    requires depth > 0 && ImpactRow(row, nodes, edges, root, depth)
    ensures Scored(row, OutDegree(Near(edges, root, depth), row.nodeID))
  {
  }

  /** What a tier weighs, and half of it for a hub. */
  ghost function Evidence(tier: Tier, hub: bool): real {
    var weight := match tier case Static => 1.0 case InferredDI => 0.9 case InferredAOP => 0.85 case CrossService => 0.8;
    if hub then weight / 2.0 else weight
  }

  lemma ScoreIsEvidence(tier: Tier, degree: nat, d: nat)
    requires d > 0
    ensures ImpactScore(tier, degree, d) * d as real == Evidence(tier, degree > 50)
  {
    EvidenceIsDamped(tier, degree);
    TimesQuotient(TierWeight(tier) * Damping(degree), d as real);
  }

  lemma EvidenceIsDamped(tier: Tier, degree: nat)
    ensures TierWeight(tier) * Damping(degree) == Evidence(tier, degree > 50)
  {
    if degree > 50 {
      assert Damping(degree) == 0.5;
    } else {
      assert Damping(degree) == 1.0;
    }
  }

  lemma TimesQuotient(a: real, d: real)
    requires d > 0.0
    ensures a / d * d == a
  {
  }

  /** A row's score times its distance is what its tier weighs, halved for more than 50 outgoing edges. */
  lemma RowScore(row: ImpactResult, degree: nat)
    requires Scored(row, degree)
    ensures row.score * row.depthFromRoot as real == Evidence(row.tier, degree > 50)
  {
    ScoreIsEvidence(row.tier, degree, row.depthFromRoot);
  }

  lemma ScaleKeepsOrder(a: real, b: real, d: real)
    requires a >= b && d > 0.0
    ensures a * d >= b * d
  {
  }

  lemma HigherScoreMoreEvidence(x: ImpactResult, m: nat, y: ImpactResult, n: nat)
    requires Scored(x, m) && Scored(y, n) && x.depthFromRoot == y.depthFromRoot && x.score >= y.score
    ensures Evidence(x.tier, m > 50) >= Evidence(y.tier, n > 50)
  {
    RowScore(x, m);
    RowScore(y, n);
    ScaleKeepsOrder(x.score, y.score, x.depthFromRoot as real);
  }

  /** At one distance a row stands above another only if its evidence weighs at least as much: static before
      injected, injected before advised, advised before cross-service, and any of them before a hub. */
  lemma StrongerEvidenceFirst(rows: seq<ImpactResult>, nodes: map<string, Node>, edges: set<Edge>, root: string,
                              depth: nat, i: nat, j: nat)
    requires depth > 0 && IsImpact(rows, nodes, edges, root, depth) && i < j < |rows|
    requires rows[i].depthFromRoot == rows[j].depthFromRoot
    ensures Evidence(rows[i].tier, OutDegree(Near(edges, root, depth), rows[i].nodeID) > 50)
            >= Evidence(rows[j].tier, OutDegree(Near(edges, root, depth), rows[j].nodeID) > 50)
  {
    RowsAreRanked(rows, nodes, edges, root, depth, i, j);
    RowIsScored(rows[i], nodes, edges, root, depth);
    RowIsScored(rows[j], nodes, edges, root, depth);
    HigherScoreMoreEvidence(rows[i], OutDegree(Near(edges, root, depth), rows[i].nodeID),
                            rows[j], OutDegree(Near(edges, root, depth), rows[j].nodeID));
  }

  /** A stored node other than the root has a row exactly when a walk of at most `depth` hops leads to it, and
      the row tells the length of a shortest one. */
  lemma RowIffShortWalk(rows: seq<ImpactResult>, nodes: map<string, Node>, edges: set<Edge>, root: string, depth: nat, v: string)
    requires depth > 0 && IsImpact(rows, nodes, edges, root, depth)
    ensures HasRow(rows, v) <==>
            v in nodes && v != root && exists p :: WalkTo(UndirectedArcs(edges), root, v, p) && |p| <= depth + 1
    ensures forall row :: row in rows && row.nodeID == v ==>
              (exists p :: WalkTo(UndirectedArcs(edges), root, v, p) && |p| == row.depthFromRoot + 1)
              && forall p :: WalkTo(UndirectedArcs(edges), root, v, p) ==> |p| >= row.depthFromRoot + 1
  {
    HasRowIffListed(rows, nodes, edges, root, depth, v);
    BallIsShortWalks(UndirectedArcs(edges), root, v, depth);
    forall row | row in rows && row.nodeID == v
      ensures exists p :: WalkTo(UndirectedArcs(edges), root, v, p) && |p| == row.depthFromRoot + 1
      ensures forall p :: WalkTo(UndirectedArcs(edges), root, v, p) ==> |p| >= row.depthFromRoot + 1
    {
      assert ImpactRow(row, nodes, edges, root, depth);
      AtDistIsShortestWalk(UndirectedArcs(edges), root, v, row.depthFromRoot);
    }
  }

  // ---------------------------------------------------------------- what the ranking leaves open

  /** The nodes a ranking lists. */
  predicate Listed(v: string, nodes: map<string, Node>, edges: set<Edge>, root: string, depth: nat) {
    v in Ball(UndirectedArcs(edges), root, depth) && v != root && v in nodes
  }

  lemma RowListed(row: ImpactResult, nodes: map<string, Node>, edges: set<Edge>, root: string, depth: nat)
    requires depth > 0 && ImpactRow(row, nodes, edges, root, depth)
    ensures Listed(row.nodeID, nodes, edges, root, depth)
  {
    InWiderBall(UndirectedArcs(edges), root, row.depthFromRoot, depth, row.nodeID);
  }

  /** Whatever order the edges come in, a ranking lists the same nodes, at the same depths. */
  lemma RankingsListTheSame(a: seq<ImpactResult>, b: seq<ImpactResult>, nodes: map<string, Node>, edges: set<Edge>,
                            root: string, depth: nat)
    requires depth > 0 && IsImpact(a, nodes, edges, root, depth) && IsImpact(b, nodes, edges, root, depth)
    ensures forall v :: HasRow(a, v) <==> HasRow(b, v)
    ensures forall x, y :: x in a && y in b && x.nodeID == y.nodeID ==>
              x.depthFromRoot == y.depthFromRoot && x.sourceRef == y.sourceRef
  {
    forall v ensures HasRow(a, v) <==> Listed(v, nodes, edges, root, depth) {
      HasRowIffListed(a, nodes, edges, root, depth, v);
    }
    forall v ensures HasRow(b, v) <==> Listed(v, nodes, edges, root, depth) {
      HasRowIffListed(b, nodes, edges, root, depth, v);
    }
    forall x, y | x in a && y in b && x.nodeID == y.nodeID
      ensures x.depthFromRoot == y.depthFromRoot && x.sourceRef == y.sourceRef
    {
      SameDepth(x, y, nodes, edges, root, depth);
    }
  }

  lemma SameDepth(x: ImpactResult, y: ImpactResult, nodes: map<string, Node>, edges: set<Edge>, root: string, depth: nat)
    requires depth > 0 && ImpactRow(x, nodes, edges, root, depth) && ImpactRow(y, nodes, edges, root, depth)
    requires x.nodeID == y.nodeID
    ensures x.depthFromRoot == y.depthFromRoot && x.sourceRef == y.sourceRef
  {
    AtDistUnique(UndirectedArcs(edges), root, x.nodeID, x.depthFromRoot, y.depthFromRoot);
  }

  lemma HasRowIffListed(rows: seq<ImpactResult>, nodes: map<string, Node>, edges: set<Edge>, root: string, depth: nat, v: string)
    requires depth > 0 && IsImpact(rows, nodes, edges, root, depth)
    ensures HasRow(rows, v) <==> Listed(v, nodes, edges, root, depth)
  {
    if HasRow(rows, v) {
      var row :| row in rows && row.nodeID == v;
      RowListed(row, nodes, edges, root, depth);
    }
  }

  lemma RowsAreDistinct(rows: seq<ImpactResult>)
    requires KeysDistinct(RowId, rows)
    ensures Distinct(rows)
    ensures forall x, y :: x in rows && y in rows && x.nodeID == y.nodeID ==> x == y
  {
    forall i, j | 0 <= i < j < |rows| ensures rows[i] != rows[j] {
      assert RowId(rows[i]) != RowId(rows[j]);
    }
    forall x, y | x in rows && y in rows && x.nodeID == y.nodeID ensures x == y {
      var i :| 0 <= i < |rows| && rows[i] == x;
      var j :| 0 <= j < |rows| && rows[j] == y;
      assert RowId(rows[i]) == RowId(rows[j]);
    }
  }

  /** The two rankings give every node they both list the same tier. */
  ghost predicate SameTiers(a: seq<ImpactResult>, b: seq<ImpactResult>) {
    forall x, y :: x in a && y in b && x.nodeID == y.nodeID ==> x.tier == y.tier
  }

  lemma RowElsewhere(a: seq<ImpactResult>, b: seq<ImpactResult>, nodes: map<string, Node>, edges: set<Edge>,
                     root: string, depth: nat, x: ImpactResult)
    requires depth > 0 && IsImpact(a, nodes, edges, root, depth) && IsImpact(b, nodes, edges, root, depth)
    requires SameTiers(a, b) && x in a
    ensures x in b
  {
    assert ImpactRow(x, nodes, edges, root, depth);
    RowListed(x, nodes, edges, root, depth);
    HasRowIffListed(b, nodes, edges, root, depth, x.nodeID);
    var y :| y in b && y.nodeID == x.nodeID;
    assert ImpactRow(y, nodes, edges, root, depth);
    SameDepth(x, y, nodes, edges, root, depth);
  }

  /** The tiers are all a ranking leaves open. */
  lemma TiersDecideRanking(a: seq<ImpactResult>, b: seq<ImpactResult>, nodes: map<string, Node>, edges: set<Edge>,
                           root: string, depth: nat)
    requires depth > 0 && IsImpact(a, nodes, edges, root, depth) && IsImpact(b, nodes, edges, root, depth)
    requires SameTiers(a, b)
    ensures a == b
  {
    RowsAreDistinct(a);
    RowsAreDistinct(b);
    forall x ensures x in a <==> x in b {
      if x in a {
        RowElsewhere(a, b, nodes, edges, root, depth, x);
      }
      if x in b {
        RowElsewhere(b, a, nodes, edges, root, depth, x);
      }
    }
    forall x, y | x in a && y in a && ImpactLe(x, y) && ImpactLe(y, x) ensures x == y {
      StringLeAntisymmetric(x.nodeID, y.nodeID);
    }
    ListingIsUnique(ImpactLe, a, b);
  }

  /** A tier found among the returned edges stands for a shortest walk of the whole graph. */
  lemma TierInWholeGraph(edges: set<Edge>, root: string, depth: nat, v: string, d: nat, tier: Tier)
    requires depth > 0 && TierOnShortestWalk(Near(edges, root, depth), root, v, d, tier)
    ensures d <= depth && TierOnShortestWalk(edges, root, v, d, tier)
  {
    SubgraphTruncates(edges, root, depth);
    TruncatedDistance(UndirectedArcs(edges), UndirectedArcs(Near(edges, root, depth)), root, depth, v, d);
    var es :| EdgeWalk(Near(edges, root, depth), root, v, es) && |es| == d && tier == TierOf(LabelsOf(es));
    EdgeWalkInLarger(Near(edges, root, depth), edges, root, v, es);
  }

  // ---------------------------------------------------------------- distance against tier

  /** With the same damping, a nearer row never scores less than a farther one up to depth 5; they
      score the same only for cross-service at 4 hops against static at 5. */
  lemma NearerNeverScoresLess(s: Tier, a: nat, t: Tier, b: nat, degree: nat)
    requires 1 <= a < b <= 5
    ensures ImpactScore(s, degree, a) >= ImpactScore(t, degree, b)
    ensures ImpactScore(s, degree, a) == ImpactScore(t, degree, b)
            <==> s == CrossService && a == 4 && t == Static && b == 5
  {
    var f := Damping(degree);
    ScoreTimesDepth(s, degree, a);
    ScoreTimesDepth(t, degree, b);
  }

  lemma ScoreTimesDepth(t: Tier, degree: nat, depth: nat)
    requires 1 <= depth <= 5
    ensures ImpactScore(t, degree, depth) == Damping(degree) *
              (if depth == 1 then TierWeight(t) else if depth == 2 then TierWeight(t) / 2.0
               else if depth == 3 then TierWeight(t) / 3.0 else if depth == 4 then TierWeight(t) / 4.0
               else TierWeight(t) / 5.0)
  {
  }

  /** `hi` scores as a row of the same damping would, and is ranked above `lo`. */
  lemma RankedAbove(hi: ImpactResult, lo: ImpactResult, degree: nat)
    requires 1 <= hi.depthFromRoot <= 5 && 1 <= lo.depthFromRoot <= 5
    requires hi.score == ImpactScore(hi.tier, degree, hi.depthFromRoot)
    requires lo.score == ImpactScore(lo.tier, degree, lo.depthFromRoot)
    requires ImpactLe(hi, lo) && hi.nodeID != lo.nodeID
    ensures NearerOrTied(hi, lo)
  {
    if hi.depthFromRoot > lo.depthFromRoot {
      NearerNeverScoresLess(lo.tier, lo.depthFromRoot, hi.tier, hi.depthFromRoot, degree);
    }
  }

  predicate NearerOrTied(hi: ImpactResult, lo: ImpactResult) {
    || hi.depthFromRoot <= lo.depthFromRoot
    || (hi.depthFromRoot == 5 && hi.tier == Static && lo.depthFromRoot == 4 && lo.tier == CrossService
        && StringLess(hi.nodeID, lo.nodeID))
  }

  lemma SameDampingSameScore(t: Tier, a: nat, b: nat, depth: nat)
    requires depth > 0 && Damping(a) == Damping(b)
    ensures ImpactScore(t, a, depth) == ImpactScore(t, b, depth)
  {
  }

  /** In the ranking, a row of equal damping stands above every farther one, but for that one tie,
      which ids settle. */
  lemma DistanceDominates(rows: seq<ImpactResult>, nodes: map<string, Node>, edges: set<Edge>, root: string,
                          depth: nat, i: nat, j: nat)
    requires 1 <= depth <= 5 && IsImpact(rows, nodes, edges, root, depth) && i < j < |rows|
    requires Damping(OutDegree(Near(edges, root, depth), rows[i].nodeID))
             == Damping(OutDegree(Near(edges, root, depth), rows[j].nodeID))
    ensures NearerOrTied(rows[i], rows[j])
  {
    var hi, lo := rows[i], rows[j];
    assert ImpactLe(hi, lo) && RowId(hi) != RowId(lo);
    assert ImpactRow(hi, nodes, edges, root, depth) && ImpactRow(lo, nodes, edges, root, depth);
    var degree := OutDegree(Near(edges, root, depth), hi.nodeID);
    SameDampingSameScore(lo.tier, OutDegree(Near(edges, root, depth), lo.nodeID), degree, lo.depthFromRoot);
    RankedAbove(hi, lo, degree);
  }
}
