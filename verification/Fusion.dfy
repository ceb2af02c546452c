/** Reciprocal-rank fusion of three ranked hit lists, over exact reals. */
module Fusion {
  import opened Ordering

  const DEFAULT_RRF_K := 60

  datatype SearchHit = SearchHit(nodeID: string, sourceRef: string, confidence: string,
                                 signal: string, rank: int, depth: int, score: real)

  datatype SearchResult = SearchResult(nodeID: string, sourceRef: string, score: real,
                                       confidence: string, signals: seq<string>)

  // ---------------------------------------------------------------- the score of a list of ranks

  function RankSum(k: nat, ranks: seq<int>): real
    requires k > 0
  {
    if |ranks| == 0 then 0.0
    else
      var last := ranks[|ranks| - 1];
      RankSum(k, ranks[..|ranks| - 1]) + if last <= 0 then 0.0 else 1.0 / (k + last) as real
  }

  /** Ranks count from 1; zero and negative ranks contribute nothing; a bad `k` means 60. */
  method RRFScore(k: int, ranks: seq<int>) returns (score: real)
    ensures score == RankSum(if k <= 0 then DEFAULT_RRF_K else k, ranks)
  {
    var k' := if k <= 0 then DEFAULT_RRF_K else k;
    score := 0.0;
    for i := 0 to |ranks|
      invariant score == RankSum(k', ranks[..i])
    {
      assert ranks[..i + 1][..i] == ranks[..i];
      if ranks[i] <= 0 {
        continue;
      }
      score := score + 1.0 / (k' + ranks[i]) as real;
    }
    assert ranks[..|ranks|] == ranks;
  }

  // ---------------------------------------------------------------- votes

  /** One hit of one list, with the weight its position earns. */
  datatype Vote = Vote(hit: SearchHit, signal: string, weight: real)

  function Votes(hits: seq<SearchHit>, signal: string, k: nat): (vs: seq<Vote>)
    ensures |vs| == |hits|
  {
    seq(|hits|, i requires 0 <= i < |hits| => Vote(hits[i], signal, 1.0 / (k + i + 1) as real))
  }

  function AllVotes(vector: seq<SearchHit>, fts: seq<SearchHit>, graph: seq<SearchHit>, k: nat): seq<Vote> {
    Votes(vector, "vector", k) + Votes(fts, "fts", k) + Votes(graph, "graph", k)
  }

  /** The votes cast for a node, in order. */
  function For(votes: seq<Vote>, id: string): seq<Vote> {
    if |votes| == 0 then []
    else
      var last := votes[|votes| - 1];
      For(votes[..|votes| - 1], id) + if last.hit.nodeID == id then [last] else []
  }

  function Total(votes: seq<Vote>): real {
    if |votes| == 0 then 0.0 else Total(votes[..|votes| - 1]) + votes[|votes| - 1].weight
  }

  function FirstRef(votes: seq<Vote>): string {
    if |votes| == 0 then ""
    else
      var before := FirstRef(votes[..|votes| - 1]);
      if before == "" then votes[|votes| - 1].hit.sourceRef else before
  }

  function FirstConfidence(votes: seq<Vote>): string {
    if |votes| == 0 then ""
    else
      var before := FirstConfidence(votes[..|votes| - 1]);
      if before == "" then votes[|votes| - 1].hit.confidence else before
  }

  function SignalsOf(votes: seq<Vote>): set<string> {
    set v | v in votes :: v.signal
  }

  lemma ForOneMore(votes: seq<Vote>, v: Vote, id: string)
    ensures For(votes + [v], id) == if v.hit.nodeID == id then For(votes, id) + [v] else For(votes, id)
  {
    assert (votes + [v])[..|votes|] == votes;
  }

  lemma CandidateGrows(c: Candidate, votes: seq<Vote>, v: Vote)
    requires CandidateOf(c, votes)
    ensures CandidateOf(Count(c, v), votes + [v])
  {
    assert (votes + [v])[..|votes|] == votes;
    assert SignalsOf(votes + [v]) == SignalsOf(votes) + {v.signal};
  }

  lemma {:induction false} ForAppend(a: seq<Vote>, b: seq<Vote>, id: string)
    ensures For(a + b, id) == For(a, id) + For(b, id)
  {
    if |b| == 0 {
      assert a + b == a;
    } else {
      ForAppend(a, b[..|b| - 1], id);
      assert (a + b)[..|a + b| - 1] == a + b[..|b| - 1];
    }
  }

  lemma {:induction false} TotalAppend(a: seq<Vote>, b: seq<Vote>)
    ensures Total(a + b) == Total(a) + Total(b)
  {
    if |b| == 0 {
      assert a + b == a;
    } else {
      TotalAppend(a, b[..|b| - 1]);
      assert (a + b)[..|a + b| - 1] == a + b[..|b| - 1];
    }
  }

  lemma {:induction false} ForMembers(votes: seq<Vote>, id: string)
    ensures forall v :: v in For(votes, id) <==> v in votes && v.hit.nodeID == id
  {
    if |votes| > 0 {
      ForMembers(votes[..|votes| - 1], id);
      assert votes == votes[..|votes| - 1] + [votes[|votes| - 1]];
    }
  }

  // ---------------------------------------------------------------- the tally

  datatype Candidate = Candidate(sourceRef: string, confidence: string, signals: set<string>, score: real)

  /** What the votes make of a candidate. */
  ghost predicate CandidateOf(c: Candidate, votes: seq<Vote>) {
    && c.score == Total(votes) && c.signals == SignalsOf(votes)
    && c.sourceRef == FirstRef(votes) && c.confidence == FirstConfidence(votes)
  }

  /** Exactly the named nodes with a vote are candidates, each as its votes make it. */
  ghost predicate Tallied(candidates: map<string, Candidate>, votes: seq<Vote>) {
    forall id :: TalliedAt(candidates, For(votes, id), id)
  }

  ghost predicate TalliedAt(candidates: map<string, Candidate>, votes: seq<Vote>, id: string) {
    && (id in candidates <==> id != "" && votes != [])
    && (id in candidates ==> CandidateOf(candidates[id], votes))
  }

  function Count(c: Candidate, v: Vote): Candidate {
    Candidate(
      if c.sourceRef == "" then v.hit.sourceRef else c.sourceRef,
      if c.confidence == "" then v.hit.confidence else c.confidence,
      c.signals + {v.signal},
      c.score + v.weight)
  }

  const NEW_CANDIDATE := Candidate("", "", {}, 0.0)

  lemma TallyGrows(candidates: map<string, Candidate>, votes: seq<Vote>, v: Vote)
    requires Tallied(candidates, votes) && v.hit.nodeID != ""
    ensures var id := v.hit.nodeID;
            Tallied(candidates[id := Count(if id in candidates then candidates[id] else NEW_CANDIDATE, v)], votes + [v])
  {
    var id := v.hit.nodeID;
    var c := if id in candidates then candidates[id] else NEW_CANDIDATE;
    assert TalliedAt(candidates, For(votes, id), id);
    CandidateGrows(c, For(votes, id), v);
    forall x ensures TalliedAt(candidates[id := Count(c, v)], For(votes + [v], x), x) {
      ForOneMore(votes, v, x);
      assert TalliedAt(candidates, For(votes, x), x);
    }
  }

  lemma TallyIgnores(candidates: map<string, Candidate>, votes: seq<Vote>, v: Vote)
    requires Tallied(candidates, votes) && v.hit.nodeID == ""
    ensures Tallied(candidates, votes + [v])
  {
    forall id ensures TalliedAt(candidates, For(votes + [v], id), id) {
      ForOneMore(votes, v, id);
      assert TalliedAt(candidates, For(votes, id), id);
    }
  }

  method Merge(candidates: map<string, Candidate>, hits: seq<SearchHit>, signal: string, k: nat, ghost votes: seq<Vote>)
    returns (candidates': map<string, Candidate>)
    requires Tallied(candidates, votes)
    ensures Tallied(candidates', votes + Votes(hits, signal, k))
  {
    candidates' := candidates;
    ghost var vs := Votes(hits, signal, k);
    assert votes + vs[..0] == votes;
    for i := 0 to |hits|
      invariant Tallied(candidates', votes + vs[..i])
    {
      var hit := hits[i];
      var v := Vote(hit, signal, 1.0 / (k + i + 1) as real);
      assert votes + vs[..i + 1] == (votes + vs[..i]) + [v];
      if hit.nodeID == "" {
        TallyIgnores(candidates', votes + vs[..i], v);
        continue;
      }
      TallyGrows(candidates', votes + vs[..i], v);
      var c := if hit.nodeID in candidates' then candidates'[hit.nodeID] else NEW_CANDIDATE;
      candidates' := candidates'[hit.nodeID := Count(c, v)];
    }
    assert vs[..|hits|] == vs;
  }

  // ---------------------------------------------------------------- ranking the candidates

  predicate ResultLe(a: SearchResult, b: SearchResult) {
    a.score > b.score || (a.score == b.score && StringLe(a.nodeID, b.nodeID))
  }

  lemma ResultLeRanking()
    ensures Ranking(ResultLe)
  {
    forall a, b ensures ResultLe(a, b) || ResultLe(b, a) {
      StringLeTotal(a.nodeID, b.nodeID);
    }
    forall a, b, c | ResultLe(a, b) && ResultLe(b, c) ensures ResultLe(a, c) {
      if a.score == b.score == c.score {
        StringLeTransitive(a.nodeID, b.nodeID, c.nodeID);
      }
    }
  }

  /** `r` is the result the votes entail for its node. */
  ghost predicate ResultOf(r: SearchResult, votes: seq<Vote>) {
    && r.nodeID != "" && For(votes, r.nodeID) != []
    && r.score == Total(For(votes, r.nodeID))
    && r.sourceRef == FirstRef(For(votes, r.nodeID))
    && r.confidence == FirstConfidence(For(votes, r.nodeID))
    && Sorted(StringLe, r.signals) && Distinct(r.signals)
    && (forall s :: s in r.signals <==> s in SignalsOf(For(votes, r.nodeID)))
  }

  function IdOf(r: SearchResult): string {
    r.nodeID
  }

  /** Some result is about the node. */
  ghost predicate Lists(results: seq<SearchResult>, id: string) {
    exists r :: r in results && r.nodeID == id
  }

  /** The fused ranking: one result for every node some list names, best score first, ids breaking ties. */
  ghost predicate IsFusion(results: seq<SearchResult>, votes: seq<Vote>) {
    && Sorted(ResultLe, results) && KeysDistinct(IdOf, results)
    && (forall r :: r in results ==> ResultOf(r, votes))
    && (forall id :: id != "" && For(votes, id) != [] ==> Lists(results, id))
  }

  method SortedSignals(signals: set<string>) returns (out: seq<string>)
    ensures Sorted(StringLe, out) && Distinct(out) && forall s :: s in out <==> s in signals
  {
    out := [];
    var rest := signals;
    while rest != {}
      invariant rest <= signals
      invariant Distinct(out) && forall s :: s in out <==> s in signals && s !in rest
      decreases rest
    {
      var s :| s in rest;
      rest := rest - {s};
      out := out + [s];
    }
    StringLeRanking();
    SortSorts(StringLe, out);
    DistinctPermutation(out, Sort(StringLe, out));
    SameElements(out, Sort(StringLe, out));
    out := Sort(StringLe, out);
  }

  method FuseHybrid(vectorHits: seq<SearchHit>, ftsHits: seq<SearchHit>, graphHits: seq<SearchHit>, k: nat)
    returns (results: seq<SearchResult>)
    ensures IsFusion(results, AllVotes(vectorHits, ftsHits, graphHits, k))
  {
    var candidates: map<string, Candidate> := map[];
    ghost var votes: seq<Vote> := [];
    candidates := Merge(candidates, vectorHits, "vector", k, votes);
    votes := votes + Votes(vectorHits, "vector", k);
    candidates := Merge(candidates, ftsHits, "fts", k, votes);
    votes := votes + Votes(ftsHits, "fts", k);
    candidates := Merge(candidates, graphHits, "graph", k, votes);
    votes := votes + Votes(graphHits, "graph", k);
    assert votes == AllVotes(vectorHits, ftsHits, graphHits, k);
    results := ListCandidates(candidates, votes);
    SortedFusion(results, votes);
    results := Sort(ResultLe, results);
  }

  method ListCandidates(candidates: map<string, Candidate>, ghost votes: seq<Vote>) returns (results: seq<SearchResult>)
    requires Tallied(candidates, votes)
    ensures KeysDistinct(IdOf, results)
    ensures forall r :: r in results ==> ResultOf(r, votes)
    ensures forall id :: id != "" && For(votes, id) != [] ==> Lists(results, id)
  {
    results := [];
    var rest := candidates.Keys;
    while rest != {}
      invariant rest <= candidates.Keys
      invariant KeysDistinct(IdOf, results)
      invariant forall r :: r in results ==> ResultOf(r, votes)
      invariant forall id :: Lists(results, id) <==> id in candidates && id !in rest
      decreases rest
    {
      var id :| id in rest;
      rest := rest - {id};
      var c := candidates[id];
      assert TalliedAt(candidates, For(votes, id), id);
      var signals := SortedSignals(c.signals);
      var r := SearchResult(id, c.sourceRef, c.score, c.confidence, signals);
      assert r in results + [r];
      results := results + [r];
    }
    forall id | id != "" && For(votes, id) != [] ensures Lists(results, id) {
      assert TalliedAt(candidates, For(votes, id), id);
    }
  }

  lemma SortedFusion(results: seq<SearchResult>, votes: seq<Vote>)
    requires KeysDistinct(IdOf, results) && forall r :: r in results ==> ResultOf(r, votes)
    requires forall id :: id != "" && For(votes, id) != [] ==> Lists(results, id)
    ensures IsFusion(Sort(ResultLe, results), votes)
  {
    var s := Sort(ResultLe, results);
    ResultLeRanking();
    SortSorts(ResultLe, results);
    SameElements(results, s);
    KeysDistinctPermutation(IdOf, results, s);
    forall id | Lists(results, id) ensures Lists(s, id) {
      var r :| r in results && r.nodeID == id;
      assert r in s;
    }
  }

  // ---------------------------------------------------------------- what the fusion means

  function HitId(h: SearchHit): string {
    h.nodeID
  }

  /** The position, from 1, of a node in a hit list; 0 when it is not there. */
  function RankOf(hits: seq<SearchHit>, id: string): (r: nat)
    ensures r == 0 <==> forall h :: h in hits ==> h.nodeID != id
    ensures r > 0 ==> r <= |hits| && hits[r - 1].nodeID == id
  {
    if |hits| == 0 then 0
    else
      assert hits == hits[..|hits| - 1] + [hits[|hits| - 1]];
      if hits[|hits| - 1].nodeID == id then |hits| else RankOf(hits[..|hits| - 1], id)
  }

  /** What one list contributes to a node it ranks. */
  function Share(k: nat, rank: nat): (s: real)
    requires k > 0
    ensures s >= 0.0
  {
    if rank == 0 then 0.0 else Reciprocal((k + rank) as real)
  }

  function Reciprocal(x: real): (r: real)
    requires x > 0.0
    ensures r > 0.0 && r * x == 1.0
  {
    1.0 / x
  }

  lemma TotalOneMore(votes: seq<Vote>, v: Vote)
    ensures Total(votes + [v]) == Total(votes) + v.weight
  {
    assert (votes + [v])[..|votes|] == votes;
  }

  lemma LastRank(hits: seq<SearchHit>, id: string)
    requires KeysDistinct(HitId, hits) && |hits| > 0
    ensures var init, last := hits[..|hits| - 1], hits[|hits| - 1];
            if last.nodeID == id then RankOf(hits, id) == |hits| && RankOf(init, id) == 0
            else RankOf(hits, id) == RankOf(init, id)
  {
    var init, last := hits[..|hits| - 1], hits[|hits| - 1];
    forall h | h in init ensures h.nodeID != last.nodeID {
      var i :| 0 <= i < |init| && init[i] == h;
      assert HitId(hits[i]) != HitId(last);
    }
  }

  lemma LastShare(hits: seq<SearchHit>, signal: string, k: nat, id: string)
    requires k > 0 && |hits| > 0
    ensures var init, last := hits[..|hits| - 1], hits[|hits| - 1];
            Total(For(Votes(hits, signal, k), id))
            == Total(For(Votes(init, signal, k), id)) + if last.nodeID == id then Share(k, |hits|) else 0.0
  {
    var init, last := hits[..|hits| - 1], hits[|hits| - 1];
    var v := Vote(last, signal, Share(k, |hits|));
    assert Votes(hits, signal, k) == Votes(init, signal, k) + [v];
    ForOneMore(Votes(init, signal, k), v, id);
    TotalOneMore(For(Votes(init, signal, k), id), v);
  }

  lemma {:induction false} ListShare(hits: seq<SearchHit>, signal: string, k: nat, id: string)
    requires k > 0 && KeysDistinct(HitId, hits)
    ensures Total(For(Votes(hits, signal, k), id)) == Share(k, RankOf(hits, id))
  {
    if |hits| > 0 {
      LastRank(hits, id);
      LastShare(hits, signal, k, id);
      ListShare(hits[..|hits| - 1], signal, k, id);
    }
  }

  lemma ThreeShares(vector: seq<SearchHit>, fts: seq<SearchHit>, graph: seq<SearchHit>, k: nat, id: string)
    requires k > 0
    requires KeysDistinct(HitId, vector) && KeysDistinct(HitId, fts) && KeysDistinct(HitId, graph)
    ensures Total(For(AllVotes(vector, fts, graph, k), id)) ==
            Share(k, RankOf(vector, id)) + Share(k, RankOf(fts, id)) + Share(k, RankOf(graph, id))
  {
    var v, f, g := Votes(vector, "vector", k), Votes(fts, "fts", k), Votes(graph, "graph", k);
    ForAppend(v + f, g, id);
    ForAppend(v, f, id);
    TotalAppend(For(v, id) + For(f, id), For(g, id));
    TotalAppend(For(v, id), For(f, id));
    ListShare(vector, "vector", k, id);
    ListShare(fts, "fts", k, id);
    ListShare(graph, "graph", k, id);
  }

  /** On lists without repetition every fused score is the reciprocal-rank score of the three ranks. */
  lemma FusedScoreIsRRF(vector: seq<SearchHit>, fts: seq<SearchHit>, graph: seq<SearchHit>, k: nat,
                        results: seq<SearchResult>, r: SearchResult)
    requires k > 0
    requires KeysDistinct(HitId, vector) && KeysDistinct(HitId, fts) && KeysDistinct(HitId, graph)
    requires IsFusion(results, AllVotes(vector, fts, graph, k)) && r in results
    ensures r.score == RankSum(k, [RankOf(vector, r.nodeID), RankOf(fts, r.nodeID), RankOf(graph, r.nodeID)])
    ensures r.score == Reciprocals(k, RankOf(vector, r.nodeID), RankOf(fts, r.nodeID), RankOf(graph, r.nodeID))
  {
    ThreeShares(vector, fts, graph, k, r.nodeID);
    var a, b, c := RankOf(vector, r.nodeID), RankOf(fts, r.nodeID), RankOf(graph, r.nodeID);
    RankSumOfThree(k, a, b, c);
  }

  /** What three ranks earn, a rank of 0 standing for absence. */
  ghost function Reciprocals(k: nat, a: nat, b: nat, c: nat): real
    requires k > 0
  {
    (if a > 0 then 1.0 / (k + a) as real else 0.0) + (if b > 0 then 1.0 / (k + b) as real else 0.0)
    + (if c > 0 then 1.0 / (k + c) as real else 0.0)
  }

  lemma RankSumOfThree(k: nat, a: nat, b: nat, c: nat)
    requires k > 0
    ensures RankSum(k, [a, b, c]) == Share(k, a) + Share(k, b) + Share(k, c) == Reciprocals(k, a, b, c)
  {
    assert [a, b, c][..2] == [a, b] && [a, b][..1] == [a] && [a][..0] == [];
    assert RankSum(k, [a]) == Share(k, a);
    assert RankSum(k, [a, b]) == Share(k, a) + Share(k, b);
  }

  // ---------------------------------------------------------------- conservation

  /** The weight of all hits that name a node. */
  function NamedTotal(votes: seq<Vote>): real {
    if |votes| == 0 then 0.0
    else
      var last := votes[|votes| - 1];
      NamedTotal(votes[..|votes| - 1]) + if last.hit.nodeID == "" then 0.0 else last.weight
  }

  function ScoreSum(results: seq<SearchResult>): real {
    if |results| == 0 then 0.0 else ScoreSum(results[1..]) + results[0].score
  }

  /** The summed scores the votes give to the nodes of `results`. */
  function Shared(results: seq<SearchResult>, votes: seq<Vote>): real {
    if |results| == 0 then 0.0 else Shared(results[1..], votes) + Total(For(votes, results[0].nodeID))
  }

  lemma {:induction false} SharedOneMore(results: seq<SearchResult>, votes: seq<Vote>, v: Vote)
    requires KeysDistinct(IdOf, results)
    ensures Shared(results, votes + [v]) ==
            Shared(results, votes) + if Lists(results, v.hit.nodeID) then v.weight else 0.0
  {
    if |results| > 0 {
      var first := results[0];
      assert KeysDistinct(IdOf, results[1..]);
      SharedOneMore(results[1..], votes, v);
      ForOneMore(votes, v, first.nodeID);
      assert results == [first] + results[1..];
      if first.nodeID == v.hit.nodeID {
        assert (For(votes, first.nodeID) + [v])[..|For(votes, first.nodeID)|] == For(votes, first.nodeID);
        forall r | r in results[1..] ensures r.nodeID != v.hit.nodeID {
          var i :| 1 <= i < |results| && results[i] == r;
          assert IdOf(results[0]) != IdOf(results[i]);
        }
      }
      assert Lists(results, v.hit.nodeID) <==> first.nodeID == v.hit.nodeID || Lists(results[1..], v.hit.nodeID);
    }
  }

  lemma {:induction false} SharedIsNamed(results: seq<SearchResult>, votes: seq<Vote>)
    requires KeysDistinct(IdOf, results) && !Lists(results, "")
    requires forall v :: v in votes && v.hit.nodeID != "" ==> Lists(results, v.hit.nodeID)
    ensures Shared(results, votes) == NamedTotal(votes)
    decreases |votes|
  {
    if |votes| == 0 {
      NothingShared(results);
    } else {
      var init, last := votes[..|votes| - 1], votes[|votes| - 1];
      assert votes == init + [last];
      SharedIsNamed(results, init);
      SharedOneMore(results, init, last);
    }
  }

  lemma {:induction false} NothingShared(results: seq<SearchResult>)
    ensures Shared(results, []) == 0.0
  {
    if |results| > 0 {
      NothingShared(results[1..]);
    }
  }

  lemma {:induction false} SharedIsScored(results: seq<SearchResult>, votes: seq<Vote>)
    requires forall r :: r in results ==> ResultOf(r, votes)
    ensures ScoreSum(results) == Shared(results, votes)
  {
    if |results| > 0 {
      assert results[0] in results;
      SharedIsScored(results[1..], votes);
    }
  }

  /** No score is lost or invented: the results share out exactly what the hits brought, repeated or not. */
  lemma ScoreIsConserved(votes: seq<Vote>, results: seq<SearchResult>)
    requires IsFusion(results, votes)
    ensures ScoreSum(results) == NamedTotal(votes)
  {
    forall v | v in votes && v.hit.nodeID != "" ensures Lists(results, v.hit.nodeID) {
      ForMembers(votes, v.hit.nodeID);
    }
    SharedIsScored(results, votes);
    SharedIsNamed(results, votes);
  }

  // ---------------------------------------------------------------- order

  /** The output order is strict, so no two results compare equal. */
  lemma FusionIsStrict(results: seq<SearchResult>, votes: seq<Vote>, i: nat, j: nat)
    requires IsFusion(results, votes) && i < j < |results|
    ensures results[i].score > results[j].score
            || (results[i].score == results[j].score && StringLess(results[i].nodeID, results[j].nodeID))
  {
    assert ResultLe(results[i], results[j]);
    assert IdOf(results[i]) != IdOf(results[j]);
  }

  /** Whatever order the candidate table is walked in, the outcome is the same list. */
  lemma FusionIsUnique(a: seq<SearchResult>, b: seq<SearchResult>, votes: seq<Vote>)
    requires IsFusion(a, votes) && IsFusion(b, votes)
    ensures a == b
  {
    SameResults(a, b, votes);
    SameResults(b, a, votes);
    forall i, j | 0 <= i < j < |a| ensures a[i] != a[j] {
      assert IdOf(a[i]) != IdOf(a[j]);
    }
    forall i, j | 0 <= i < j < |b| ensures b[i] != b[j] {
      assert IdOf(b[i]) != IdOf(b[j]);
    }
    forall x, y | x in a && y in a && ResultLe(x, y) && ResultLe(y, x) ensures x == y {
      StringLeAntisymmetric(x.nodeID, y.nodeID);
      ResultIsUnique(x, y, votes);
    }
    ListingIsUnique(ResultLe, a, b);
  }

  lemma ResultIsUnique(x: SearchResult, y: SearchResult, votes: seq<Vote>)
    requires ResultOf(x, votes) && ResultOf(y, votes) && x.nodeID == y.nodeID
    ensures x == y
  {
    forall s, t | s in x.signals && t in x.signals && StringLe(s, t) && StringLe(t, s) ensures s == t {
      StringLeAntisymmetric(s, t);
    }
    ListingIsUnique(StringLe, x.signals, y.signals);
  }

  lemma SameResults(a: seq<SearchResult>, b: seq<SearchResult>, votes: seq<Vote>)
    requires IsFusion(a, votes) && IsFusion(b, votes)
    ensures forall r :: r in a ==> r in b
  {
    forall r | r in a ensures r in b {
      assert ResultOf(r, votes);
      assert Lists(b, r.nodeID);
      var q :| q in b && q.nodeID == r.nodeID;
      ResultIsUnique(r, q, votes);
    }
  }

  /** `x` comes before `y` in every list that has `y`. */
  ghost predicate Ahead(hits: seq<SearchHit>, x: string, y: string) {
    RankOf(hits, y) > 0 ==> 0 < RankOf(hits, x) < RankOf(hits, y)
  }

  lemma AheadEarnsMore(hits: seq<SearchHit>, k: nat, x: string, y: string)
    requires k > 0 && Ahead(hits, x, y)
    ensures Share(k, RankOf(hits, x)) >= Share(k, RankOf(hits, y))
    ensures RankOf(hits, y) > 0 ==> Share(k, RankOf(hits, x)) > Share(k, RankOf(hits, y))
  {
    EarlierEarnsMore(k, RankOf(hits, x), RankOf(hits, y));
  }

  lemma EarlierEarnsMore(k: nat, a: nat, b: nat)
    requires k > 0 && (b > 0 ==> 0 < a < b)
    ensures Share(k, a) >= Share(k, b) && (b > 0 ==> Share(k, a) > Share(k, b))
  {
    if b > 0 {
      ReciprocalDecreases((k + a) as real, (k + b) as real);
    }
  }

  lemma ReciprocalDecreases(p: real, q: real)
    requires 0.0 < p < q
    ensures Reciprocal(p) > Reciprocal(q)
  {
    var a, b := Reciprocal(p), Reciprocal(q);
    if a <= b {
      ProductGrows(a, b, p, q);
    }
  }

  lemma ProductGrows(a: real, b: real, p: real, q: real)
    requires 0.0 < a <= b && 0.0 < p < q
    ensures a * p < b * q
  {
    assert a * p <= b * p;
    assert b * p < b * q;
  }

  /** A node ahead of another in every list that has the other is ranked strictly above it. */
  lemma AheadEverywhereOutranks(vector: seq<SearchHit>, fts: seq<SearchHit>, graph: seq<SearchHit>, k: nat,
                                results: seq<SearchResult>, i: nat, j: nat)
    requires k > 0
    requires KeysDistinct(HitId, vector) && KeysDistinct(HitId, fts) && KeysDistinct(HitId, graph)
    requires IsFusion(results, AllVotes(vector, fts, graph, k))
    requires i < |results| && j < |results|
    requires Ahead(vector, results[i].nodeID, results[j].nodeID)
    requires Ahead(fts, results[i].nodeID, results[j].nodeID)
    requires Ahead(graph, results[i].nodeID, results[j].nodeID)
    ensures results[i].score > results[j].score && i < j
  {
    var x, y := results[i].nodeID, results[j].nodeID;
    var votes := AllVotes(vector, fts, graph, k);
    ThreeShares(vector, fts, graph, k, x);
    ThreeShares(vector, fts, graph, k, y);
    AheadEarnsMore(vector, k, x, y);
    AheadEarnsMore(fts, k, x, y);
    AheadEarnsMore(graph, k, x, y);
    assert ResultOf(results[i], votes) && ResultOf(results[j], votes);
    VotedIsListed(vector, fts, graph, k, y);
    if j < i {
      FusionIsStrict(results, votes, j, i);
    }
  }

  lemma VotedIsListed(vector: seq<SearchHit>, fts: seq<SearchHit>, graph: seq<SearchHit>, k: nat, id: string)
    requires For(AllVotes(vector, fts, graph, k), id) != []
    ensures RankOf(vector, id) > 0 || RankOf(fts, id) > 0 || RankOf(graph, id) > 0
  {
    var votes := AllVotes(vector, fts, graph, k);
    ForMembers(votes, id);
    assert For(votes, id)[0] in votes;
    var v := For(votes, id)[0];
    assert v.hit in vector || v.hit in fts || v.hit in graph;
  }
}
