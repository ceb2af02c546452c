/** The retrieval service: impact analysis and hybrid search over the graph store. */
module Retriever {
  import opened Prelude
  import opened Ordering
  import opened Reachability
  import opened GraphTypes
  import opened JsonStoreModule
  import opened ImpactTree
  import opened TreeSearch
  import opened EdgeOrder
  import opened Impact
  import opened RankingOrder
  import opened Fusion
  import opened GraphSignal

  const DEFAULT_SEARCH_K := 10
  const DEFAULT_GRAPH_DEPTH := 2
  const MAX_SEARCH_GRAPH_DEPTH := 3
  const DEFAULT_IMPACT_DEPTH := 3
  const MAX_IMPACT_DEPTH := 5

  datatype RetrieverError =
    | NoGraph | GraphFailed(error: GraphError)
    | NoBackend | NoEmbedder | EmbedFailed(text: string) | VectorFailed(text: string) | FtsFailed(text: string)

  /** What the text backends answered to one query. */
  datatype Backends = Backends(embedded: Result<(), string>, vector: Result<seq<SearchHit>, string>,
                               fts: Result<seq<SearchHit>, string>)

  predicate IsSpace(c: char) {
    c in {'\t', '\n', '\r', ' '} || c as int in {0x0B, 0x0C, 0x85, 0xA0, 0x1680, 0x2028, 0x2029, 0x202F, 0x205F, 0x3000}
    || 0x2000 <= c as int <= 0x200A
  }

  /** Nothing is left of the text once its surrounding white space is trimmed. */
  predicate IsBlank(s: string) {
    forall i :: 0 <= i < |s| ==> IsSpace(s[i])
  }

  /** Blanks alone make a blank text, and one visible character makes it none. */
  lemma BlankIffNothingVisible(s: string)
    ensures (forall c :: c in s ==> c in {' ', '\t', '\n', '\r'}) ==> IsBlank(s)
    ensures (exists c :: c in s && '!' <= c <= '~') ==> !IsBlank(s)
  {
    assert forall i :: 0 <= i < |s| ==> s[i] in s;
    if c :| c in s && '!' <= c <= '~' {
      var i :| 0 <= i < |s| && s[i] == c;
      assert !IsSpace(s[i]);
    }
  }

  function Clamp(value: int, default: nat, cap: nat): (r: nat)
    requires 0 < default <= cap
    ensures 0 < r <= cap
    ensures 1 <= value <= cap ==> r == value
  {
    if value <= 0 then default else if value > cap then cap else value
  }

  function OrDefault(value: int, default: nat): nat {
    if value <= 0 then default else value
  }

  function Cut<T>(s: seq<T>, n: nat): seq<T> {
    if |s| > n then s[..n] else s
  }

  /** The first `n` entries, or all if there are fewer. */
  ghost predicate IsHead<T>(head: seq<T>, s: seq<T>, n: nat) {
    head <= s && |head| <= n && (|head| < n ==> head == s)
  }

  lemma HeadIsCut<T>(head: seq<T>, s: seq<T>, n: nat)
    ensures IsHead(head, s, n) <==> head == Cut(s, n)
  {
  }

  lemma ComesLater<T>(head: seq<T>, s: seq<T>, i: nat, x: T) returns (j: nat)
    requires head <= s && i < |head| && x in s && x !in head[..i + 1]
    ensures i < j < |s| && s[j] == x
  {
    j :| 0 <= j < |s| && s[j] == x;
    assert forall k :: 0 <= k <= i ==> head[..i + 1][k] == s[k];
  }

  lemma HeadIsDistinct(head: seq<SearchHit>, s: seq<SearchHit>)
    requires head <= s && KeysDistinct(HitId, s)
    ensures KeysDistinct(HitId, head)
  {
    forall i, j | 0 <= i < j < |head| ensures HitId(head[i]) != HitId(head[j]) {
      assert HitId(s[i]) != HitId(s[j]);
    }
  }

  /** The returned edges are the near edges of the store, and none has an empty end. */
  lemma ReturnedEdges(br: BlastRadiusResult, nodes: map<string, Node>, edges: map<string, Edge>, root: string, depth: nat)
    requires depth > 0 && KeyedByValidIds(nodes, edges) && IsBlastRadius(br, nodes, edges.Values, root, depth)
    ensures IsOrder(br.edges, Near(edges.Values, root, depth))
    ensures NamedEnds(Near(edges.Values, root, depth))
  {
    forall e | e in br.edges ensures e.fromID != "" && e.toID != "" {
      assert e in edges.Values;
      var k :| k in edges && edges[k] == e;
      assert EdgeIsValid(e);
    }
  }

  class Service {
    var graph: JSONStore?
    var hasBackend: bool
    var hasEmbedder: bool

    constructor (graph: JSONStore?, hasBackend: bool, hasEmbedder: bool)
      ensures this.graph == graph && this.hasBackend == hasBackend && this.hasEmbedder == hasEmbedder
    {
      this.graph, this.hasBackend, this.hasEmbedder := graph, hasBackend, hasEmbedder;
    }

    /** Ranks what a change of the root may affect. `full` is the ranking before the cut and `order` the order
        in which the store returned the edges. */
    method Impact(rootID: string, depth: int, limit: int)
      returns (r: Result<seq<ImpactResult>, RetrieverError>, ghost full: seq<ImpactResult>, ghost order: seq<Edge>)
      requires graph != null ==> graph.Valid()
      ensures graph == null ==> r == Err(NoGraph)
      ensures graph != null && IsBlank(rootID) ==> r == Ok([])
      ensures graph != null && !IsBlank(rootID) && !IsDigest(rootID) ==> r == Err(GraphFailed(InvalidNodeID))
      ensures graph != null && IsDigest(rootID) ==>
                && (1 <= depth <= 5 ==> IsRankingOf(full, graph.nodes, graph.edges.Values, rootID, depth, order))
                && (depth <= 0 ==> IsRankingOf(full, graph.nodes, graph.edges.Values, rootID, 3, order))
                && (depth > 5 ==> IsRankingOf(full, graph.nodes, graph.edges.Values, rootID, 5, order))
                && r.Ok? && IsHead(r.value, full, if limit > 0 then limit else 50)
    {
      full, order := [], [];
      if graph == null {
        return Err(NoGraph), [], [];
      }
      assert IsDigest(rootID) ==> !IsBlank(rootID) by {
        if IsDigest(rootID) {
          assert !IsSpace(rootID[0]);
        }
      }
      if IsBlank(rootID) {
        return Ok([]), [], [];
      }
      var d := Clamp(depth, DEFAULT_IMPACT_DEPTH, MAX_IMPACT_DEPTH);
      var max := OrDefault(limit, DEFAULT_SEARCH_K * 5);
      var ranked;
      ranked, order := RankAround(rootID, d);
      if ranked.Err? {
        return Err(GraphFailed(ranked.error)), [], [];
      }
      full := ranked.value;
      r := Ok(Cut(ranked.value, max));
    }

    /** The whole ranking of what lies within `depth` of the root. */
    method RankAround(rootID: string, depth: nat) returns (ranked: Result<seq<ImpactResult>, GraphError>, ghost order: seq<Edge>)
      requires graph != null && graph.Valid() && DepthInRange(depth)
      ensures !IsDigest(rootID) ==> ranked == Err(InvalidNodeID)
      ensures IsDigest(rootID) ==>
                ranked.Ok? && IsRankingOf(ranked.value, graph.nodes, graph.edges.Values, rootID, depth, order)
    {
      order := [];
      var found := graph.BlastRadius(rootID, depth);
      if found.Err? {
        return Err(found.error), [];
      }
      var rows := Rows(found.value, rootID, depth);
      StoredHaveRows(rows, found.value, graph.nodes, graph.edges, rootID, depth);
      order := found.value.edges;
      ReturnedEdges(found.value, graph.nodes, graph.edges, rootID, depth);
      SortedRanking(rows, graph.nodes, graph.edges.Values, rootID, depth, order);
      ranked := Ok(Sort(ImpactLe, rows));
    }

    /** The metadata of the returned edges, as facts about the whole store. */
    method Metadata(br: BlastRadiusResult, rootID: string, depth: nat)
      returns (depths: map<string, nat>, tiers: map<string, Tier>, outgoing: map<string, nat>)
      requires graph != null && graph.Valid() && depth > 0 && rootID != ""
      requires IsBlastRadius(br, graph.nodes, graph.edges.Values, rootID, depth)
      ensures forall v :: v in depths <==> v in Ball(UndirectedArcs(graph.edges.Values), rootID, depth)
      ensures forall v :: v in depths ==> depths[v] <= depth && AtDist(UndirectedArcs(graph.edges.Values), rootID, v, depths[v])
      ensures forall v :: v in depths && v != rootID ==>
                v in tiers && 1 <= depths[v]
                && TierOnShortestWalk(graph.edges.Values, rootID, v, depths[v], tiers[v])
      ensures forall v :: v in depths && v != rootID ==> ReadFromTree(tiers, br.edges, rootID, v)
      ensures forall v :: OutDegree(Near(graph.edges.Values, rootID, depth), v) ==
                          if v in outgoing then outgoing[v] else 0
    {
      ghost var edges := graph.edges.Values;
      ReturnedEdges(br, graph.nodes, graph.edges, rootID, depth);
      ghost var low;
      depths, tiers, outgoing, low := ImpactMetadata(rootID, br.edges);
      SubgraphTruncates(edges, rootID, depth);
      TruncatedSearch(UndirectedArcs(edges), UndirectedArcs(Near(edges, rootID, depth)), rootID, depth, depths, low);
      forall v | v in depths && v != rootID
        ensures 1 <= depths[v] && TierOnShortestWalk(edges, rootID, v, depths[v], tiers[v])
        ensures ReadFromTree(tiers, br.edges, rootID, v)
      {
        assert AtDist(UndirectedArcs(edges), rootID, v, depths[v]);
        ClimbIsWalk(Near(edges, rootID, depth), rootID, v, depths[v], tiers[v]);
        TierInWholeGraph(edges, rootID, depth, v, depths[v], tiers[v]);
      }
      forall v ensures OutDegree(Near(edges, rootID, depth), v) == if v in outgoing then outgoing[v] else 0 {
        OutCountIsOutDegree(br.edges, v);
      }
    }

    /** The metadata, with the rows it is going to make. */
    method RowMetadata(br: BlastRadiusResult, rootID: string, depth: nat)
      returns (depths: map<string, nat>, tiers: map<string, Tier>, outgoing: map<string, nat>,
               ghost made: seq<ImpactResult>)
      requires graph != null && graph.Valid() && depth > 0 && rootID != ""
      requires IsBlastRadius(br, graph.nodes, graph.edges.Values, rootID, depth)
      ensures MadeFrom(made, br.nodes, depths, tiers, outgoing)
      ensures forall row :: row in made ==> TrueRow(row, graph.nodes, graph.edges.Values, rootID, depth, br.edges)
    {
      depths, tiers, outgoing := Metadata(br, rootID, depth);
      made := RowsAreTrue(br, graph.nodes, graph.edges, rootID, depth, depths, tiers, outgoing);
    }

    method Rows(br: BlastRadiusResult, rootID: string, depth: nat) returns (rows: seq<ImpactResult>)
      requires graph != null && graph.Valid() && depth > 0 && rootID != ""
      requires IsBlastRadius(br, graph.nodes, graph.edges.Values, rootID, depth)
      ensures |rows| == |br.nodes| && forall j :: 0 <= j < |rows| ==> rows[j].nodeID == br.nodes[j].nodeID
      ensures forall row :: row in rows ==> TrueRow(row, graph.nodes, graph.edges.Values, rootID, depth, br.edges)
    {
      var depths, tiers, outgoing;
      ghost var made;
      depths, tiers, outgoing, made := RowMetadata(br, rootID, depth);
      rows := MakeRows(br.nodes, depths, tiers, outgoing, made);
    }

    /** Distances around one seed and the stored nodes there. */
    method Around(seed: string, depth: nat) returns (depths: map<string, nat>, byID: map<string, Node>)
      requires graph != null && graph.Valid() && IsDigest(seed) && DepthInRange(depth)
      ensures DistancesAround(depths, graph.edges.Values, seed, depth)
      ensures forall v :: v in depths && v != seed ==>
                (v in byID <==> v in graph.nodes) && (v in byID ==> byID[v] == graph.nodes[v])
    {
      var found := graph.BlastRadius(seed, depth);
      depths := SeedDepths(found.value, seed, depth);
      byID := IndexNodes(found.value.nodes);
      IndexedAround(found.value.nodes, byID, graph.nodes, Ball(UndirectedArcs(graph.edges.Values), seed, depth) - {seed});
    }

    method SeedDepths(br: BlastRadiusResult, seed: string, depth: nat) returns (depths: map<string, nat>)
      requires graph != null && graph.Valid() && depth > 0 && seed != ""
      requires IsBlastRadius(br, graph.nodes, graph.edges.Values, seed, depth)
      ensures DistancesAround(depths, graph.edges.Values, seed, depth)
    {
      var tiers, outgoing;
      depths, tiers, outgoing := Metadata(br, seed, depth);
      DepthsAreDistances(depths, graph.edges.Values, seed, depth);
    }

    /** Counts one more seed into the table. */
    method MergeSeed(seen: map<string, SearchHit>, ghost seeds: seq<SearchHit>, ghost i: nat, seed: string, depth: nat)
      returns (seen': map<string, SearchHit>)
      requires graph != null && graph.Valid() && IsDigest(seed) && DepthInRange(depth)
      requires i < |seeds| && seeds[i].nodeID == seed
      requires SeenFor(seen, graph.nodes, graph.edges.Values, seeds[..i], depth, "", {})
      ensures SeenFor(seen', graph.nodes, graph.edges.Values, seeds[..i + 1], depth, "", {})
    {
      var depths, byID := Around(seed, depth);
      FreshSeed(seen, graph.nodes, graph.edges.Values, seeds[..i], depth, seed);
      seen' := CountSeed(seen, depths, byID, seed, graph.nodes, graph.edges.Values, seeds[..i], depth);
      SeedCounted(seen', graph.nodes, graph.edges.Values, seeds, depth, i, depths.Keys);
    }

    /** The graph signal around the first seeds. `full` is the ranking before the cut. */
    method GraphHits(vectorHits: seq<SearchHit>, ftsHits: seq<SearchHit>, depth: nat, limit: nat)
      returns (r: Result<seq<SearchHit>, RetrieverError>, ghost full: seq<SearchHit>)
      requires graph != null ==> graph.Valid()
      requires DepthInRange(depth)
      ensures graph == null ==> r == Ok([])
      ensures graph != null && (forall s :: s in Seeds(vectorHits, ftsHits) ==> IsDigest(s.nodeID)) ==>
                && IsGraphSignal(full, graph.nodes, graph.edges.Values, Seeds(vectorHits, ftsHits), depth)
                && r.Ok? && IsHead(r.value, full, limit)
      ensures graph != null && (exists s :: s in Seeds(vectorHits, ftsHits) && !IsDigest(s.nodeID)) ==>
                r == Err(GraphFailed(InvalidNodeID))
    {
      full := [];
      if graph == null {
        return Ok([]), [];
      }
      var seeds := Seeds(vectorHits, ftsHits);
      if |seeds| == 0 {
        return Ok([]), [];
      }
      var seen: map<string, SearchHit> := map[];
      for i := 0 to |seeds|
        invariant SeenFor(seen, graph.nodes, graph.edges.Values, seeds[..i], depth, "", {})
        invariant forall s :: s in seeds[..i] ==> IsDigest(s.nodeID)
      {
        assert seeds[i] in seeds && seeds[..i + 1] == seeds[..i] + [seeds[i]];
        if !IsDigest(seeds[i].nodeID) {
          return Err(GraphFailed(InvalidNodeID)), [];
        }
        seen := MergeSeed(seen, seeds, i, seeds[i].nodeID, depth);
      }
      assert seeds[..|seeds|] == seeds;
      var hits := ListHits(seen, graph.nodes, graph.edges.Values, seeds, depth);
      full := hits;
      r := Ok(Cut(hits, limit));
    }

    /** The answer to two hit lists: the first `limit` of their fusion with the first `limit` of the graph signal. */
    ghost predicate Answers(r: Result<seq<SearchResult>, RetrieverError>, signal: seq<SearchHit>, fused: seq<SearchResult>,
                            limit: nat, depth: nat, vectorHits: seq<SearchHit>, ftsHits: seq<SearchHit>)
      reads this, graph
    {
      if graph == null then
        IsFusion(fused, AllVotes(vectorHits, ftsHits, [], 60)) && r.Ok? && IsHead(r.value, fused, limit)
      else if exists s :: s in Seeds(vectorHits, ftsHits) && !IsDigest(s.nodeID) then
        r == Err(GraphFailed(InvalidNodeID))
      else
        && IsGraphSignal(signal, graph.nodes, graph.edges.Values, Seeds(vectorHits, ftsHits), depth)
        && IsFusion(fused, AllVotes(vectorHits, ftsHits, Cut(signal, limit), 60))
        && r.Ok? && IsHead(r.value, fused, limit)
    }

    /** Two lists have one answer, whatever order edges and tables are walked in. */
    lemma AnswerIsUnique(r: Result<seq<SearchResult>, RetrieverError>, signal: seq<SearchHit>, fused: seq<SearchResult>,
                         r': Result<seq<SearchResult>, RetrieverError>, signal': seq<SearchHit>, fused': seq<SearchResult>,
                         limit: nat, depth: nat, vectorHits: seq<SearchHit>, ftsHits: seq<SearchHit>)
      requires Answers(r, signal, fused, limit, depth, vectorHits, ftsHits)
      requires Answers(r', signal', fused', limit, depth, vectorHits, ftsHits)
      ensures r == r'
    {
      if graph == null {
        FusionIsUnique(fused, fused', AllVotes(vectorHits, ftsHits, [], 60));
        HeadIsCut(r.value, fused, limit);
        HeadIsCut(r'.value, fused, limit);
      } else if forall s :: s in Seeds(vectorHits, ftsHits) ==> IsDigest(s.nodeID) {
        GraphSignalIsUnique(signal, signal', graph.nodes, graph.edges.Values, Seeds(vectorHits, ftsHits), depth);
        FusionIsUnique(fused, fused', AllVotes(vectorHits, ftsHits, Cut(signal, limit), 60));
        HeadIsCut(r.value, fused, limit);
        HeadIsCut(r'.value, fused, limit);
      }
    }

    /** An answer ranks by the reciprocal ranks in the two lists and in the head of the graph signal, and
        nothing left out outscores what is answered. */
    lemma AnswerIsRanked(r: Result<seq<SearchResult>, RetrieverError>, signal: seq<SearchHit>, fused: seq<SearchResult>,
                         limit: nat, depth: nat, vectorHits: seq<SearchHit>, ftsHits: seq<SearchHit>,
                         near: seq<SearchHit>, i: nat, x: SearchResult)
      requires Answers(r, signal, fused, limit, depth, vectorHits, ftsHits) && r.Ok?
      requires KeysDistinct(HitId, vectorHits) && KeysDistinct(HitId, ftsHits)
      requires if graph == null then near == [] else IsHead(near, signal, limit)
      requires i < |r.value| && x in fused && x !in r.value[..i + 1]
      ensures var y := r.value[i];
              && (y.score > x.score || (y.score == x.score && StringLess(y.nodeID, x.nodeID)))
              && y.score == Reciprocals(60, RankOf(vectorHits, y.nodeID), RankOf(ftsHits, y.nodeID), RankOf(near, y.nodeID))
    {
      var votes := AllVotes(vectorHits, ftsHits, near, 60);
      if graph != null {
        HeadIsCut(near, signal, limit);
        HeadIsDistinct(near, signal);
      }
      assert r.value[i] == fused[i];
      FusedScoreIsRRF(vectorHits, ftsHits, near, 60, fused, fused[i]);
      var j := ComesLater(r.value, fused, i, x);
      FusionIsStrict(fused, votes, i, j);
    }

    method Rank(k: int, graphDepth: int, vectorHits: seq<SearchHit>, ftsHits: seq<SearchHit>)
      returns (r: Result<seq<SearchResult>, RetrieverError>, ghost signal: seq<SearchHit>, ghost fused: seq<SearchResult>)
      requires graph != null ==> graph.Valid()
      ensures Answers(r, signal, fused, if k > 0 then k else 10,
                      if graphDepth <= 0 then 2 else if graphDepth <= 3 then graphDepth else 3, vectorHits, ftsHits)
    {
      var limit := OrDefault(k, DEFAULT_SEARCH_K);
      var depth := Clamp(graphDepth, DEFAULT_GRAPH_DEPTH, MAX_SEARCH_GRAPH_DEPTH);
      var found;
      found, signal := GraphHits(vectorHits, ftsHits, depth, limit);
      if found.Err? {
        return Err(found.error), signal, [];
      }
      var results := FuseHybrid(vectorHits, ftsHits, found.value, DEFAULT_RRF_K);
      if graph != null {
        HeadIsCut(found.value, signal, limit);
      }
      fused := results;
      r := Ok(Cut(results, limit));
    }

    /** Hybrid search, given what the text backends answer. `signal` and `fused` are the graph signal and
        the ranking behind the answer. */
    method Search(query: string, k: int, graphDepth: int, backends: Backends)
      returns (r: Result<seq<SearchResult>, RetrieverError>, ghost signal: seq<SearchHit>, ghost fused: seq<SearchResult>)
      requires graph != null ==> graph.Valid()
      ensures !hasBackend ==> r == Err(NoBackend)
      ensures hasBackend && !hasEmbedder ==> r == Err(NoEmbedder)
      ensures hasBackend && hasEmbedder && IsBlank(query) ==> r == Ok([])
      ensures hasBackend && hasEmbedder && !IsBlank(query) ==>
                && (backends.embedded.Err? ==> r == Err(EmbedFailed(backends.embedded.error)))
                && (backends.embedded.Ok? && backends.vector.Err? ==> r == Err(VectorFailed(backends.vector.error)))
                && (backends.embedded.Ok? && backends.vector.Ok? && backends.fts.Err? ==> r == Err(FtsFailed(backends.fts.error)))
                && (backends.embedded.Ok? && backends.vector.Ok? && backends.fts.Ok? ==>
                      Answers(r, signal, fused, if k > 0 then k else 10,
                              if graphDepth <= 0 then 2 else if graphDepth <= 3 then graphDepth else 3,
                              backends.vector.value, backends.fts.value))
    {
      signal, fused := [], [];
      if !hasBackend {
        return Err(NoBackend), [], [];
      }
      if !hasEmbedder {
        return Err(NoEmbedder), [], [];
      }
      if IsBlank(query) {
        return Ok([]), [], [];
      }
      if backends.embedded.Err? {
        return Err(EmbedFailed(backends.embedded.error)), [], [];
      }
      if backends.vector.Err? {
        return Err(VectorFailed(backends.vector.error)), [], [];
      }
      if backends.fts.Err? {
        return Err(FtsFailed(backends.fts.error)), [], [];
      }
      r, signal, fused := Rank(k, graphDepth, backends.vector.value, backends.fts.value);
    }
  }

  ghost predicate DistancesAround(depths: map<string, nat>, edges: set<Edge>, seed: string, depth: nat) {
    && (forall v :: v in depths <==> v in Ball(UndirectedArcs(edges), seed, depth))
    && (forall v :: v in depths ==> Dist(UndirectedArcs(edges), seed, v, depth) == depths[v])
  }

  lemma DepthsAreDistances(depths: map<string, nat>, edges: set<Edge>, seed: string, depth: nat)
    requires forall v :: v in depths <==> v in Ball(UndirectedArcs(edges), seed, depth)
    requires forall v :: v in depths ==> AtDist(UndirectedArcs(edges), seed, v, depths[v])
    ensures DistancesAround(depths, edges, seed, depth)
  {
    forall v | v in depths ensures Dist(UndirectedArcs(edges), seed, v, depth) == depths[v] {
      AtDistUnique(UndirectedArcs(edges), seed, v, depths[v], Dist(UndirectedArcs(edges), seed, v, depth));
    }
  }

  lemma IndexedAround(ns: seq<Node>, byID: map<string, Node>, nodes: map<string, Node>, ids: set<string>)
    requires forall k :: k in nodes ==> nodes[k].nodeID == k
    requires ListsStored(ns, nodes, ids)
    requires forall v :: v in byID ==> byID[v] in ns && byID[v].nodeID == v
    requires forall n :: n in ns ==> n.nodeID in byID
    ensures forall v :: v in ids ==> (v in byID <==> v in nodes) && (v in byID ==> byID[v] == nodes[v])
  {
    forall v | v in ids && v in nodes ensures v in byID {
      assert nodes[v] in ns;
    }
  }

  method IndexNodes(ns: seq<Node>) returns (byID: map<string, Node>)
    ensures forall v :: v in byID ==> byID[v] in ns && byID[v].nodeID == v
    ensures forall n :: n in ns ==> n.nodeID in byID
  {
    byID := map[];
    for i := 0 to |ns|
      invariant forall v :: v in byID ==> byID[v] in ns && byID[v].nodeID == v
      invariant forall n :: n in ns[..i] ==> n.nodeID in byID
    {
      assert ns[..i + 1] == ns[..i] + [ns[i]];
      byID := byID[ns[i].nodeID := ns[i]];
    }
  }

  /** Walks the distance table in any order, counting each stored node other than the seed. */
  method CountSeed(seen: map<string, SearchHit>, depths: map<string, nat>, byID: map<string, Node>, seed: string,
                   ghost nodes: map<string, Node>, ghost edges: set<Edge>, ghost seeds: seq<SearchHit>, ghost depth: nat)
    returns (seen': map<string, SearchHit>)
    requires forall k :: k in nodes ==> nodes[k].nodeID == k
    requires DistancesAround(depths, edges, seed, depth)
    requires forall v :: v in depths && v != seed ==>
               (v in byID <==> v in nodes) && (v in byID ==> byID[v] == nodes[v])
    requires SeenFor(seen, nodes, edges, seeds, depth, seed, {})
    ensures SeenFor(seen', nodes, edges, seeds, depth, seed, depths.Keys)
  {
    seen' := seen;
    var rest := depths.Keys;
    ghost var done: set<string> := {};
    while rest != {}
      invariant rest <= depths.Keys && done == depths.Keys - rest
      invariant SeenFor(seen', nodes, edges, seeds, depth, seed, done)
      decreases rest
    {
      var v :| v in rest;
      rest := rest - {v};
      var d := depths[v];
      SeedAtZero(edges, seed, v, depth);
      if v == seed || d <= 0 || v !in byID {
        SeenSkips(seen', nodes, edges, seeds, depth, seed, done, v);
      } else {
        SeenGrows(seen', nodes, edges, seeds, depth, seed, done, v);
        seen' := seen'[v := Updated(seen', byID[v], d)];
      }
      done := done + {v};
    }
    assert done == depths.Keys;
  }

  lemma SeedAtZero(edges: set<Edge>, seed: string, v: string, depth: nat)
    ensures v == seed ==> Dist(UndirectedArcs(edges), seed, v, depth) == 0
  {
    var arcs := UndirectedArcs(edges);
    BallMonotone(arcs, seed, 0, depth);
    if v == seed {
      assert AtDist(arcs, seed, seed, 0);
      AtDistUnique(arcs, seed, seed, 0, Dist(arcs, seed, seed, depth));
    }
  }

  /** A row for each node met at a positive depth. */
  method MakeRows(nodes: seq<Node>, depths: map<string, nat>, tiers: map<string, Tier>, outgoing: map<string, nat>,
                  ghost made: seq<ImpactResult>)
    returns (rows: seq<ImpactResult>)
    requires MadeFrom(made, nodes, depths, tiers, outgoing)
    ensures rows == made
  {
    rows := [];
    for i := 0 to |nodes|
      invariant rows == made[..i]
    {
      var n := nodes[i];
      if n.nodeID in depths && depths[n.nodeID] > 0 {
        rows := rows + [MakeRow(n, depths, tiers, outgoing)];
      }
    }
  }

  /** The tier recorded for `v` is the one the order of the edges decides. */
  ghost predicate ReadFromTree(tiers: map<string, Tier>, order: seq<Edge>, root: string, v: string) {
    v in tiers && v in Final(root, order).depths && tiers[v] == TierIn(order, root, v)
  }

  ghost predicate MadeFrom(made: seq<ImpactResult>, nodes: seq<Node>, depths: map<string, nat>,
                           tiers: map<string, Tier>, outgoing: map<string, nat>)
  {
    |made| == |nodes| && forall j :: 0 <= j < |made| ==>
      && nodes[j].nodeID in depths && depths[nodes[j].nodeID] > 0
      && made[j] == MakeRow(nodes[j], depths, tiers, outgoing)
  }

  function MakeRow(n: Node, depths: map<string, nat>, tiers: map<string, Tier>, outgoing: map<string, nat>): ImpactResult
    requires n.nodeID in depths && depths[n.nodeID] > 0
  {
    var d := depths[n.nodeID];
    var tier := if n.nodeID in tiers then tiers[n.nodeID] else Static;
    var degree := if n.nodeID in outgoing then outgoing[n.nodeID] else 0;
    ImpactResult(n.nodeID, n.sourceRef, ImpactScore(tier, degree, d), tier, d)
  }

  lemma RowsAreTrue(br: BlastRadiusResult, nodes: map<string, Node>, edges: map<string, Edge>, root: string, depth: nat,
                    depths: map<string, nat>, tiers: map<string, Tier>, outgoing: map<string, nat>)
    returns (made: seq<ImpactResult>)
    requires depth > 0 && KeyedByValidIds(nodes, edges) && IsBlastRadius(br, nodes, edges.Values, root, depth)
    requires forall v :: v in depths <==> v in Ball(UndirectedArcs(edges.Values), root, depth)
    requires forall v :: v in depths ==> depths[v] <= depth
    requires forall v :: v in depths && v != root ==>
               v in tiers && 1 <= depths[v] && TierOnShortestWalk(edges.Values, root, v, depths[v], tiers[v])
    requires forall v :: v in depths && v != root ==> ReadFromTree(tiers, br.edges, root, v)
    requires forall v :: OutDegree(Near(edges.Values, root, depth), v) == if v in outgoing then outgoing[v] else 0
    ensures MadeFrom(made, br.nodes, depths, tiers, outgoing)
    ensures forall row :: row in made ==> TrueRow(row, nodes, edges.Values, root, depth, br.edges)
  {
    made := seq(|br.nodes|, j requires 0 <= j < |br.nodes| =>
      assert br.nodes[j] in br.nodes; MakeRow(br.nodes[j], depths, tiers, outgoing));
  }

  lemma StoredHaveRows(rows: seq<ImpactResult>, br: BlastRadiusResult, nodes: map<string, Node>, edges: map<string, Edge>,
                       root: string, depth: nat)
    requires depth > 0 && KeyedByValidIds(nodes, edges) && IsBlastRadius(br, nodes, edges.Values, root, depth)
    requires |rows| == |br.nodes| && forall j :: 0 <= j < |rows| ==> rows[j].nodeID == br.nodes[j].nodeID
    ensures KeysDistinct(RowId, rows)
    ensures forall v :: v in Ball(UndirectedArcs(edges.Values), root, depth) && v != root && v in nodes ==> HasRow(rows, v)
  {
    forall v | v in Ball(UndirectedArcs(edges.Values), root, depth) && v != root && v in nodes ensures HasRow(rows, v) {
      var j :| 0 <= j < |br.nodes| && br.nodes[j] == nodes[v];
      assert rows[j] in rows;
    }
  }
}
