/** The graph signal of a search: nodes near the first seeds, scored by their distances. */
module GraphSignal {
  import opened Ordering
  import opened Reachability
  import opened GraphTypes
  import opened Fusion

  const MAX_SEEDS := 3

  /** Text hits lead; vector hits stand in when there are none; three seeds at most. */
  function Seeds(vectorHits: seq<SearchHit>, ftsHits: seq<SearchHit>): (s: seq<SearchHit>)
    ensures s <= (if |ftsHits| > 0 then ftsHits else vectorHits)
    ensures |s| == 3 || (|s| < 3 && s == if |ftsHits| > 0 then ftsHits else vectorHits)
  {
    var all := if |ftsHits| == 0 then vectorHits else ftsHits;
    if |all| > MAX_SEEDS then all[..MAX_SEEDS] else all
  }

  /** Distances to `v` from those seeds, other than `v` itself, that lie within `depth`. */
  ghost function NearSeeds(edges: set<Edge>, seeds: seq<SearchHit>, v: string, depth: nat): (ds: seq<nat>)
    ensures forall d :: d in ds ==> 1 <= d <= depth
  {
    if |seeds| == 0 then []
    else
      var before := NearSeeds(edges, seeds[..|seeds| - 1], v, depth);
      var d := Dist(UndirectedArcs(edges), seeds[|seeds| - 1].nodeID, v, depth);
      if d >= 1 then before + [d] else before
  }

  function ShareSum(ds: seq<nat>): real {
    if |ds| == 0 then 0.0 else ShareSum(ds[..|ds| - 1]) + Share(DEFAULT_RRF_K, ds[|ds| - 1])
  }

  function MinOf(ds: seq<nat>): (m: nat)
    requires |ds| > 0
    ensures m in ds && forall d :: d in ds ==> m <= d
  {
    var last := ds[|ds| - 1];
    if |ds| == 1 then last
    else
      var m := MinOf(ds[..|ds| - 1]);
      assert ds == ds[..|ds| - 1] + [last];
      if m < last then m else last
  }

  function SignalName(n: nat): string {
    if n <= 1 then "graph" else SignalName(n - 1) + ",graph"
  }

  /** The hit that distances `ds` make of a node. */
  function HitOf(n: Node, ds: seq<nat>): SearchHit
    requires |ds| > 0
  {
    SearchHit(n.nodeID, n.sourceRef, n.confidence, SignalName(|ds|), MinOf(ds), MinOf(ds), ShareSum(ds))
  }

  lemma HitOfOne(n: Node, d: nat)
    requires d > 0
    ensures HitOf(n, [d]) == SearchHit(n.nodeID, n.sourceRef, n.confidence, "graph", d, d, Share(DEFAULT_RRF_K, d))
  {
    assert [d][..0] == [];
    assert ShareSum([d]) == ShareSum([]) + Share(DEFAULT_RRF_K, d);
    assert MinOf([d]) == d;
  }

  lemma HitOfOneMore(n: Node, ds: seq<nat>, d: nat)
    requires |ds| > 0 && d > 0
    ensures HitOf(n, ds + [d]) ==
            var h := HitOf(n, ds);
            var m: int := if h.rank < d then h.rank else d;
            SearchHit(h.nodeID, h.sourceRef, h.confidence, h.signal + ",graph", m, m, h.score + Share(DEFAULT_RRF_K, d))
  {
    assert (ds + [d])[..|ds|] == ds;
  }

  predicate HitLe(a: SearchHit, b: SearchHit) {
    a.score > b.score || (a.score == b.score && StringLe(a.nodeID, b.nodeID))
  }

  lemma HitLeRanking()
    ensures Ranking(HitLe)
  {
    forall a, b ensures HitLe(a, b) || HitLe(b, a) {
      StringLeTotal(a.nodeID, b.nodeID);
    }
    forall a, b, c | HitLe(a, b) && HitLe(b, c) ensures HitLe(a, c) {
      if a.score == b.score == c.score {
        StringLeTransitive(a.nodeID, b.nodeID, c.nodeID);
      }
    }
  }

  ghost predicate HitListed(hits: seq<SearchHit>, id: string) {
    exists h :: h in hits && h.nodeID == id
  }

  /** The full signal: a hit for every stored node near a seed, made of its distances, best first. */
  ghost predicate IsGraphSignal(hits: seq<SearchHit>, nodes: map<string, Node>, edges: set<Edge>,
                                seeds: seq<SearchHit>, depth: nat)
  {
    && Sorted(HitLe, hits) && KeysDistinct(HitId, hits)
    && (forall h :: h in hits ==> SignalHit(h, nodes, edges, seeds, depth))
    && (forall v :: v in nodes && NearSeeds(edges, seeds, v, depth) != [] ==> HitListed(hits, v))
  }

  ghost predicate SignalHit(h: SearchHit, nodes: map<string, Node>, edges: set<Edge>, seeds: seq<SearchHit>, depth: nat) {
    var ds := NearSeeds(edges, seeds, h.nodeID, depth);
    h.nodeID in nodes && nodes[h.nodeID].nodeID == h.nodeID && ds != [] && h == HitOf(nodes[h.nodeID], ds)
  }

  /** Neither the order of the edges nor that of the tables shows in the signal. */
  lemma GraphSignalIsUnique(a: seq<SearchHit>, b: seq<SearchHit>, nodes: map<string, Node>, edges: set<Edge>,
                            seeds: seq<SearchHit>, depth: nat)
    requires IsGraphSignal(a, nodes, edges, seeds, depth) && IsGraphSignal(b, nodes, edges, seeds, depth)
    ensures a == b
  {
    SameHits(a, b, nodes, edges, seeds, depth);
    SameHits(b, a, nodes, edges, seeds, depth);
    forall i, j | 0 <= i < j < |a| ensures a[i] != a[j] {
      assert HitId(a[i]) != HitId(a[j]);
    }
    forall i, j | 0 <= i < j < |b| ensures b[i] != b[j] {
      assert HitId(b[i]) != HitId(b[j]);
    }
    forall x, y | x in a && y in a && HitLe(x, y) && HitLe(y, x) ensures x == y {
      StringLeAntisymmetric(x.nodeID, y.nodeID);
      assert SignalHit(x, nodes, edges, seeds, depth) && SignalHit(y, nodes, edges, seeds, depth);
    }
    ListingIsUnique(HitLe, a, b);
  }

  lemma SameHits(a: seq<SearchHit>, b: seq<SearchHit>, nodes: map<string, Node>, edges: set<Edge>,
                 seeds: seq<SearchHit>, depth: nat)
    requires IsGraphSignal(a, nodes, edges, seeds, depth) && IsGraphSignal(b, nodes, edges, seeds, depth)
    ensures forall h :: h in a ==> h in b
  {
    forall h | h in a ensures h in b {
      assert SignalHit(h, nodes, edges, seeds, depth);
      var q :| q in b && q.nodeID == h.nodeID;
      assert SignalHit(q, nodes, edges, seeds, depth);
    }
  }

  // ---------------------------------------------------------------- what the signal says

  /** Best score first, and by id where scores tie. */
  lemma SignalIsRanked(hits: seq<SearchHit>, nodes: map<string, Node>, edges: set<Edge>, seeds: seq<SearchHit>,
                       depth: nat, i: nat, j: nat)
    requires IsGraphSignal(hits, nodes, edges, seeds, depth) && i < j < |hits|
    ensures hits[i].score > hits[j].score
            || (hits[i].score == hits[j].score && StringLess(hits[i].nodeID, hits[j].nodeID))
  {
    assert HitLe(hits[i], hits[j]) && HitId(hits[i]) != HitId(hits[j]);
  }

  /** No hit that a cut drops outscores one that it keeps. */
  lemma CutKeepsBest(hits: seq<SearchHit>, nodes: map<string, Node>, edges: set<Edge>, seeds: seq<SearchHit>,
                     depth: nat, kept: seq<SearchHit>, k: SearchHit, c: SearchHit)
    requires IsGraphSignal(hits, nodes, edges, seeds, depth) && kept <= hits
    requires k in kept && c in hits && c !in kept
    ensures k.score >= c.score
  {
    var i :| 0 <= i < |kept| && kept[i] == k;
    var j :| 0 <= j < |hits| && hits[j] == c;
    assert j >= |kept|;
    SignalIsRanked(hits, nodes, edges, seeds, depth, i, j);
  }

  ghost function ScoreIn(hits: seq<SearchHit>, id: string): real {
    if h :| h in hits && h.nodeID == id then h.score else 0.0
  }

  lemma ScoreInSignal(hits: seq<SearchHit>, nodes: map<string, Node>, edges: set<Edge>, seeds: seq<SearchHit>,
                      depth: nat, v: string)
    requires IsGraphSignal(hits, nodes, edges, seeds, depth) && v in nodes
    ensures ScoreIn(hits, v) == ShareSum(NearSeeds(edges, seeds, v, depth))
  {
    if HitListed(hits, v) {
      var h :| h in hits && h.nodeID == v && ScoreIn(hits, v) == h.score;
      assert SignalHit(h, nodes, edges, seeds, depth);
    }
  }

  /** One more seed adds to the score of a stored node near it the share of the distance. */
  lemma NearSeedAdds(hits: seq<SearchHit>, more: seq<SearchHit>, nodes: map<string, Node>, edges: set<Edge>,
                     seeds: seq<SearchHit>, s: SearchHit, depth: nat, v: string, d: nat)
    requires IsGraphSignal(hits, nodes, edges, seeds, depth) && IsGraphSignal(more, nodes, edges, seeds + [s], depth)
    requires v in nodes && 1 <= d <= depth && AtDist(UndirectedArcs(edges), s.nodeID, v, d)
    ensures ScoreIn(more, v) == ScoreIn(hits, v) + 1.0 / (60 + d) as real
  {
    DistIs(edges, s.nodeID, v, depth, d);
    ScoreGains(hits, more, nodes, edges, seeds, s, depth, v, d);
  }

  /** It is recorded by one more "graph" in the signal of the hit. */
  lemma NearSeedSigns(hits: seq<SearchHit>, more: seq<SearchHit>, nodes: map<string, Node>, edges: set<Edge>,
                      seeds: seq<SearchHit>, s: SearchHit, depth: nat, h: SearchHit, d: nat)
    requires IsGraphSignal(hits, nodes, edges, seeds, depth) && IsGraphSignal(more, nodes, edges, seeds + [s], depth)
    requires h in more && 1 <= d <= depth && AtDist(UndirectedArcs(edges), s.nodeID, h.nodeID, d)
    ensures !HitListed(hits, h.nodeID) ==> h.signal == "graph"
    ensures forall g :: g in hits && g.nodeID == h.nodeID ==> h.signal == g.signal + ",graph"
  {
    assert SignalHit(h, nodes, edges, seeds + [s], depth);
    DistIs(edges, s.nodeID, h.nodeID, depth, d);
    assert (seeds + [s])[..|seeds|] == seeds;
    var ds := NearSeeds(edges, seeds, h.nodeID, depth);
    SignalIs(nodes[h.nodeID], ds, d);
    forall g | g in hits && g.nodeID == h.nodeID ensures h.signal == g.signal + ",graph" {
      assert SignalHit(g, nodes, edges, seeds, depth);
    }
  }

  lemma SignalIs(n: Node, ds: seq<nat>, d: nat)
    requires d > 0
    ensures ds == [] ==> HitOf(n, ds + [d]).signal == "graph"
    ensures ds != [] ==> HitOf(n, ds + [d]).signal == HitOf(n, ds).signal + ",graph"
  {
  }

  /** It adds nothing to its own score nor to that of a node that is not near, and without seeds nothing scores. */
  lemma FarSeedAddsNothing(hits: seq<SearchHit>, more: seq<SearchHit>, nodes: map<string, Node>, edges: set<Edge>,
                           seeds: seq<SearchHit>, s: SearchHit, depth: nat, v: string)
    requires IsGraphSignal(hits, nodes, edges, seeds, depth) && IsGraphSignal(more, nodes, edges, seeds + [s], depth)
    requires v in nodes && (v == s.nodeID || v !in Ball(UndirectedArcs(edges), s.nodeID, depth))
    ensures ScoreIn(more, v) == ScoreIn(hits, v)
    ensures seeds == [] ==> ScoreIn(hits, v) == 0.0
  {
    if v == s.nodeID {
      DistIs(edges, v, v, depth, 0);
    }
    ScoreGains(hits, more, nodes, edges, seeds, s, depth, v, Dist(UndirectedArcs(edges), s.nodeID, v, depth));
  }

  lemma ScoreGains(hits: seq<SearchHit>, more: seq<SearchHit>, nodes: map<string, Node>, edges: set<Edge>,
                   seeds: seq<SearchHit>, s: SearchHit, depth: nat, v: string, n: int)
    requires IsGraphSignal(hits, nodes, edges, seeds, depth) && IsGraphSignal(more, nodes, edges, seeds + [s], depth)
    requires v in nodes && n == Dist(UndirectedArcs(edges), s.nodeID, v, depth)
    ensures ScoreIn(more, v) == ScoreIn(hits, v) + if n >= 1 then 1.0 / (60 + n) as real else 0.0
    ensures seeds == [] ==> ScoreIn(hits, v) == 0.0
  {
    ScoreInSignal(hits, nodes, edges, seeds, depth, v);
    ScoreInSignal(more, nodes, edges, seeds + [s], depth, v);
    OneMoreNear(edges, seeds, s, v, depth, n);
  }

  lemma DistIs(edges: set<Edge>, seed: string, v: string, depth: nat, d: nat)
    requires d <= depth && AtDist(UndirectedArcs(edges), seed, v, d)
    ensures Dist(UndirectedArcs(edges), seed, v, depth) == d
  {
    var arcs := UndirectedArcs(edges);
    BallMonotone(arcs, seed, d, depth);
    AtDistUnique(arcs, seed, v, d, Dist(arcs, seed, v, depth));
  }

  lemma OneMoreNear(edges: set<Edge>, seeds: seq<SearchHit>, s: SearchHit, v: string, depth: nat, d: int)
    requires d == Dist(UndirectedArcs(edges), s.nodeID, v, depth)
    ensures ShareSum(NearSeeds(edges, seeds + [s], v, depth))
            == ShareSum(NearSeeds(edges, seeds, v, depth)) + if d >= 1 then 1.0 / (60 + d) as real else 0.0
  {
    assert (seeds + [s])[..|seeds|] == seeds;
    if d >= 1 {
      ShareSumOneMore(NearSeeds(edges, seeds, v, depth), d);
    }
  }

  lemma ShareSumOneMore(ds: seq<nat>, d: nat)
    requires d >= 1
    ensures ShareSum(ds + [d]) == ShareSum(ds) + 1.0 / (60 + d) as real
  {
    assert (ds + [d])[..|ds|] == ds;
  }

  /** A hit's rank and depth are the distance of a nearest seed other than itself. */
  lemma RankIsLeastDistance(hits: seq<SearchHit>, nodes: map<string, Node>, edges: set<Edge>, seeds: seq<SearchHit>,
                            depth: nat, h: SearchHit)
    requires IsGraphSignal(hits, nodes, edges, seeds, depth) && h in hits
    ensures h.depth == h.rank && 1 <= h.rank <= depth
    ensures exists s :: s in seeds && AtDist(UndirectedArcs(edges), s.nodeID, h.nodeID, h.rank)
    ensures forall s, d: nat :: s in seeds && 1 <= d <= depth && AtDist(UndirectedArcs(edges), s.nodeID, h.nodeID, d) ==>
              h.rank <= d
  {
    assert SignalHit(h, nodes, edges, seeds, depth);
    var ds := NearSeeds(edges, seeds, h.nodeID, depth);
    RankIsLeast(nodes[h.nodeID], ds, h);
    NearSeedsAre(edges, seeds, h.nodeID, depth, h.rank);
    forall s, d: nat | s in seeds && 1 <= d <= depth && AtDist(UndirectedArcs(edges), s.nodeID, h.nodeID, d)
      ensures h.rank <= d
    {
      NearSeedsAre(edges, seeds, h.nodeID, depth, d);
    }
  }

  lemma RankIsLeast(n: Node, ds: seq<nat>, h: SearchHit)
    requires |ds| > 0 && h == HitOf(n, ds)
    ensures h.depth == h.rank && h.rank in ds && forall d :: d in ds ==> h.rank <= d
  {
  }

  lemma {:induction false} NearSeedsAre(edges: set<Edge>, seeds: seq<SearchHit>, v: string, depth: nat, d: nat)
    ensures d in NearSeeds(edges, seeds, v, depth) <==>
            1 <= d <= depth && exists s :: s in seeds && AtDist(UndirectedArcs(edges), s.nodeID, v, d)
  {
    if |seeds| > 0 {
      var init, last := seeds[..|seeds| - 1], seeds[|seeds| - 1];
      assert seeds == init + [last];
      NearSeedsAre(edges, init, v, depth, d);
      if 1 <= d <= depth && AtDist(UndirectedArcs(edges), last.nodeID, v, d) {
        DistIs(edges, last.nodeID, v, depth, d);
      }
      if s :| s in init && AtDist(UndirectedArcs(edges), s.nodeID, v, d) {
        assert s in seeds;
      }
      assert last in seeds;
    }
  }

  /** Around a single seed a nearer node stands before a farther one, and earns more. */
  lemma NearerStandsFirst(hits: seq<SearchHit>, nodes: map<string, Node>, edges: set<Edge>, seed: SearchHit, depth: nat,
                          i: nat, j: nat, a: nat, b: nat)
    requires IsGraphSignal(hits, nodes, edges, [seed], depth) && i < |hits| && j < |hits|
    requires AtDist(UndirectedArcs(edges), seed.nodeID, hits[i].nodeID, a)
    requires AtDist(UndirectedArcs(edges), seed.nodeID, hits[j].nodeID, b)
    requires a < b
    ensures i < j && hits[i].score == 1.0 / (60 + a) as real && hits[i].score > hits[j].score
  {
    OnlySeedScores(hits, nodes, edges, seed, depth, hits[i], a);
    OnlySeedScores(hits, nodes, edges, seed, depth, hits[j], b);
    FartherEarnsLess(a, b);
    if j < i {
      SignalIsRanked(hits, nodes, edges, [seed], depth, j, i);
    }
  }

  lemma FartherEarnsLess(a: nat, b: nat)
    requires a < b
    ensures 1.0 / (60 + a) as real > 1.0 / (60 + b) as real
  {
    ReciprocalDecreases((60 + a) as real, (60 + b) as real);
  }

  lemma OnlySeedScores(hits: seq<SearchHit>, nodes: map<string, Node>, edges: set<Edge>, seed: SearchHit, depth: nat,
                       h: SearchHit, d: nat)
    requires IsGraphSignal(hits, nodes, edges, [seed], depth) && h in hits
    requires AtDist(UndirectedArcs(edges), seed.nodeID, h.nodeID, d)
    ensures h.score == 1.0 / (60 + d) as real
  {
    assert SignalHit(h, nodes, edges, [seed], depth);
    assert [] + [seed] == [seed];
    var n := Dist(UndirectedArcs(edges), seed.nodeID, h.nodeID, depth);
    OneSeedNear(edges, seed, h.nodeID, depth);
    OneMoreNear(edges, [], seed, h.nodeID, depth, n);
    AtDistUnique(UndirectedArcs(edges), seed.nodeID, h.nodeID, d, n);
  }

  lemma OneSeedNear(edges: set<Edge>, seed: SearchHit, v: string, depth: nat)
    requires NearSeeds(edges, [seed], v, depth) != []
    ensures var n := Dist(UndirectedArcs(edges), seed.nodeID, v, depth);
            1 <= n <= depth && AtDist(UndirectedArcs(edges), seed.nodeID, v, n)
  {
    assert [seed][..0] == [] && NearSeeds(edges, [], v, depth) == [];
  }

  // ---------------------------------------------------------------- the table being filled

  /** The distances counted for `v`: those from `seeds`, and from `last` if `v` is among `done`. */
  ghost function Counted(edges: set<Edge>, seeds: seq<SearchHit>, v: string, depth: nat, last: string, done: set<string>): seq<nat> {
    var d := Dist(UndirectedArcs(edges), last, v, depth);
    NearSeeds(edges, seeds, v, depth) + if v in done && d >= 1 then [d] else []
  }

  ghost predicate SeenAt(seen: map<string, SearchHit>, nodes: map<string, Node>, v: string, ds: seq<nat>) {
    && (v in seen <==> v in nodes && ds != [])
    && (v in seen ==> nodes[v].nodeID == v && seen[v] == HitOf(nodes[v], ds))
  }

  ghost predicate SeenFor(seen: map<string, SearchHit>, nodes: map<string, Node>, edges: set<Edge>,
                          seeds: seq<SearchHit>, depth: nat, last: string, done: set<string>)
  {
    forall v :: SeenAt(seen, nodes, v, Counted(edges, seeds, v, depth, last, done))
  }

  /** What the table holds for `v` after one more distance. */
  function Updated(seen: map<string, SearchHit>, n: Node, d: nat): SearchHit
    requires d > 0
  {
    if n.nodeID in seen then
      var e := seen[n.nodeID];
      var m: int := if e.rank < d then e.rank else d;
      e.(score := e.score + Share(DEFAULT_RRF_K, d), rank := m,
         depth := if e.depth < d then e.depth else d, signal := e.signal + ",graph")
    else SearchHit(n.nodeID, n.sourceRef, n.confidence, "graph", d, d, Share(DEFAULT_RRF_K, d))
  }

  lemma SeenGrows(seen: map<string, SearchHit>, nodes: map<string, Node>, edges: set<Edge>, seeds: seq<SearchHit>,
                  depth: nat, last: string, done: set<string>, v: string)
    requires SeenFor(seen, nodes, edges, seeds, depth, last, done)
    requires v !in done && v in nodes && nodes[v].nodeID == v
    requires Dist(UndirectedArcs(edges), last, v, depth) >= 1
    ensures var d := Dist(UndirectedArcs(edges), last, v, depth);
            SeenFor(seen[v := Updated(seen, nodes[v], d)], nodes, edges, seeds, depth, last, done + {v})
  {
    var d := Dist(UndirectedArcs(edges), last, v, depth);
    var seen' := seen[v := Updated(seen, nodes[v], d)];
    var before := NearSeeds(edges, seeds, v, depth);
    assert Counted(edges, seeds, v, depth, last, done) == before;
    assert SeenAt(seen, nodes, v, before);
    if before == [] {
      HitOfOne(nodes[v], d);
    } else {
      HitOfOneMore(nodes[v], before, d);
    }
    assert SeenAt(seen', nodes, v, before + [d]) by {
      assert [] + [d] == [d];
    }
    forall x ensures SeenAt(seen', nodes, x, Counted(edges, seeds, x, depth, last, done + {v})) {
      assert SeenAt(seen, nodes, x, Counted(edges, seeds, x, depth, last, done));
    }
  }

  lemma SeenSkips(seen: map<string, SearchHit>, nodes: map<string, Node>, edges: set<Edge>, seeds: seq<SearchHit>,
                  depth: nat, last: string, done: set<string>, v: string)
    requires SeenFor(seen, nodes, edges, seeds, depth, last, done)
    requires v !in nodes || Dist(UndirectedArcs(edges), last, v, depth) < 1
    ensures SeenFor(seen, nodes, edges, seeds, depth, last, done + {v})
  {
    forall x ensures SeenAt(seen, nodes, x, Counted(edges, seeds, x, depth, last, done + {v})) {
      assert SeenAt(seen, nodes, x, Counted(edges, seeds, x, depth, last, done));
      if x == v && v !in nodes {
        assert x !in seen;
      }
    }
  }

  /** Once every vertex within reach of a seed is done, that seed has been counted. */
  lemma SeedCounted(seen: map<string, SearchHit>, nodes: map<string, Node>, edges: set<Edge>, seeds: seq<SearchHit>,
                    depth: nat, i: nat, done: set<string>)
    requires i < |seeds|
    requires SeenFor(seen, nodes, edges, seeds[..i], depth, seeds[i].nodeID, done)
    requires forall v :: v in Ball(UndirectedArcs(edges), seeds[i].nodeID, depth) ==> v in done
    ensures SeenFor(seen, nodes, edges, seeds[..i + 1], depth, "", {})
  {
    var more := seeds[..i + 1];
    assert more[..i] == seeds[..i];
    forall x ensures SeenAt(seen, nodes, x, Counted(edges, more, x, depth, "", {})) {
      assert SeenAt(seen, nodes, x, Counted(edges, seeds[..i], x, depth, seeds[i].nodeID, done));
      assert Counted(edges, more, x, depth, "", {}) == Counted(edges, seeds[..i], x, depth, seeds[i].nodeID, done);
    }
  }

  lemma FreshSeed(seen: map<string, SearchHit>, nodes: map<string, Node>, edges: set<Edge>, seeds: seq<SearchHit>,
                  depth: nat, last: string)
    requires SeenFor(seen, nodes, edges, seeds, depth, "", {})
    ensures SeenFor(seen, nodes, edges, seeds, depth, last, {})
  {
    forall x ensures SeenAt(seen, nodes, x, Counted(edges, seeds, x, depth, last, {})) {
      assert SeenAt(seen, nodes, x, Counted(edges, seeds, x, depth, "", {}));
    }
  }

  method ListHits(seen: map<string, SearchHit>, ghost nodes: map<string, Node>, ghost edges: set<Edge>,
                  ghost seeds: seq<SearchHit>, ghost depth: nat)
    returns (hits: seq<SearchHit>)
    requires SeenFor(seen, nodes, edges, seeds, depth, "", {})
    ensures IsGraphSignal(hits, nodes, edges, seeds, depth)
  {
    hits := [];
    var rest := seen.Keys;
    while rest != {}
      invariant rest <= seen.Keys
      invariant forall h :: h in hits ==> h.nodeID in seen && h.nodeID !in rest && SignalHit(h, nodes, edges, seeds, depth)
      invariant forall v :: v in seen && v !in rest ==> HitListed(hits, v)
      invariant KeysDistinct(HitId, hits)
      decreases rest
    {
      var v :| v in rest;
      rest := rest - {v};
      assert SeenAt(seen, nodes, v, Counted(edges, seeds, v, depth, "", {}));
      assert Counted(edges, seeds, v, depth, "", {}) == NearSeeds(edges, seeds, v, depth);
      assert seen[v] in hits + [seen[v]];
      hits := hits + [seen[v]];
    }
    forall v | v in nodes && NearSeeds(edges, seeds, v, depth) != [] ensures HitListed(hits, v) {
      assert SeenAt(seen, nodes, v, Counted(edges, seeds, v, depth, "", {}));
    }
    SortedSignal(hits, nodes, edges, seeds, depth);
    hits := Sort(HitLe, hits);
  }

  lemma SortedSignal(hits: seq<SearchHit>, nodes: map<string, Node>, edges: set<Edge>, seeds: seq<SearchHit>, depth: nat)
    requires KeysDistinct(HitId, hits)
    requires forall h :: h in hits ==> SignalHit(h, nodes, edges, seeds, depth)
    requires forall v :: v in nodes && NearSeeds(edges, seeds, v, depth) != [] ==> HitListed(hits, v)
    ensures IsGraphSignal(Sort(HitLe, hits), nodes, edges, seeds, depth)
  {
    var s := Sort(HitLe, hits);
    HitLeRanking();
    SortSorts(HitLe, hits);
    SameElements(hits, s);
    KeysDistinctPermutation(HitId, hits, s);
    forall v | HitListed(hits, v) ensures HitListed(s, v) {
      var h :| h in hits && h.nodeID == v;
      assert h in s;
    }
  }
}
