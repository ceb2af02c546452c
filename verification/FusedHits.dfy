/** What a fused result tells about a node besides its score. */
module FusedHits {
  import opened Ordering
  import opened Fusion

  /** `text` is what the first hit of the node that has any says; empty if none does. */
  ghost predicate FirstGiven(hits: seq<SearchHit>, says: SearchHit -> string, id: string, text: string) {
    if text == "" then forall h :: h in hits && h.nodeID == id ==> says(h) == ""
    else exists i :: 0 <= i < |hits| && hits[i].nodeID == id && says(hits[i]) == text
                     && forall j :: 0 <= j < i && hits[j].nodeID == id ==> says(hits[j]) == ""
  }

  function Ref(h: SearchHit): string {
    h.sourceRef
  }

  function Confidence(h: SearchHit): string {
    h.confidence
  }

  lemma FirstGivenOneMore(hits: seq<SearchHit>, h: SearchHit, says: SearchHit -> string, id: string, text: string)
    requires FirstGiven(hits, says, id, text)
    ensures FirstGiven(hits + [h], says, id, if text == "" && h.nodeID == id then says(h) else text)
  {
    var more := hits + [h];
    assert more[|hits|] == h;
    if text != "" {
      var i :| 0 <= i < |hits| && hits[i].nodeID == id && says(hits[i]) == text
               && forall j :: 0 <= j < i && hits[j].nodeID == id ==> says(hits[j]) == "";
      assert more[i] == hits[i];
    }
  }

  function HitsOf(votes: seq<Vote>): seq<SearchHit> {
    seq(|votes|, i requires 0 <= i < |votes| => votes[i].hit)
  }

  lemma {:induction false} FirstTexts(votes: seq<Vote>, id: string)
    ensures FirstGiven(HitsOf(votes), Ref, id, FirstRef(For(votes, id)))
    ensures FirstGiven(HitsOf(votes), Confidence, id, FirstConfidence(For(votes, id)))
  {
    if |votes| > 0 {
      var init, last := votes[..|votes| - 1], votes[|votes| - 1];
      FirstTexts(init, id);
      assert votes == init + [last];
      assert HitsOf(votes) == HitsOf(init) + [last.hit];
      ForOneMore(init, last, id);
      FirstGivenOneMore(HitsOf(init), last.hit, Ref, id, FirstRef(For(init, id)));
      FirstGivenOneMore(HitsOf(init), last.hit, Confidence, id, FirstConfidence(For(init, id)));
      LastText(For(init, id), last);
    }
  }

  lemma LastText(votes: seq<Vote>, v: Vote)
    ensures FirstRef(votes + [v]) == if FirstRef(votes) == "" then v.hit.sourceRef else FirstRef(votes)
    ensures FirstConfidence(votes + [v]) == if FirstConfidence(votes) == "" then v.hit.confidence else FirstConfidence(votes)
  {
    assert (votes + [v])[..|votes|] == votes;
  }

  /** Reference and confidence are those of the first hit of the node that gives any: text before graph, vector first. */
  lemma TextsAreFirstGiven(vector: seq<SearchHit>, fts: seq<SearchHit>, graph: seq<SearchHit>, k: nat,
                           results: seq<SearchResult>, r: SearchResult)
    requires IsFusion(results, AllVotes(vector, fts, graph, k)) && r in results
    ensures FirstGiven(vector + fts + graph, Ref, r.nodeID, r.sourceRef)
    ensures FirstGiven(vector + fts + graph, Confidence, r.nodeID, r.confidence)
  {
    var votes := AllVotes(vector, fts, graph, k);
    assert ResultOf(r, votes);
    FirstTexts(votes, r.nodeID);
    assert HitsOf(votes) == vector + fts + graph;
  }

  lemma VotesSign(hits: seq<SearchHit>, signal: string, k: nat, id: string, s: string)
    ensures (exists v :: v in Votes(hits, signal, k) && v.hit.nodeID == id && v.signal == s) <==>
            s == signal && exists h :: h in hits && h.nodeID == id
  {
    if h :| h in hits && h.nodeID == id {
      var i :| 0 <= i < |hits| && hits[i] == h;
      assert Votes(hits, signal, k)[i].hit == h && Votes(hits, signal, k)[i] in Votes(hits, signal, k);
    }
  }

  /** The signals name, in order and once each, exactly the lists that have the node. */
  lemma SignalsNameLists(vector: seq<SearchHit>, fts: seq<SearchHit>, graph: seq<SearchHit>, k: nat,
                         results: seq<SearchResult>, r: SearchResult, s: string)
    requires IsFusion(results, AllVotes(vector, fts, graph, k)) && r in results
    ensures s in r.signals <==>
            || (s == "vector" && exists h :: h in vector && h.nodeID == r.nodeID)
            || (s == "fts" && exists h :: h in fts && h.nodeID == r.nodeID)
            || (s == "graph" && exists h :: h in graph && h.nodeID == r.nodeID)
    ensures forall i, j :: 0 <= i < j < |r.signals| ==> StringLess(r.signals[i], r.signals[j])
  {
    var votes := AllVotes(vector, fts, graph, k);
    assert ResultOf(r, votes);
    ForMembers(votes, r.nodeID);
    VotesSign(vector, "vector", k, r.nodeID, s);
    VotesSign(fts, "fts", k, r.nodeID, s);
    VotesSign(graph, "graph", k, r.nodeID, s);
    assert s in r.signals <==> exists v :: v in votes && v.hit.nodeID == r.nodeID && v.signal == s;
  }

  lemma HitHasVote(votes: seq<Vote>, id: string)
    ensures For(votes, id) != [] <==> exists h :: h in HitsOf(votes) && h.nodeID == id
  {
    ForMembers(votes, id);
    if For(votes, id) != [] {
      var v := For(votes, id)[0];
      assert v in For(votes, id);
      var i :| 0 <= i < |votes| && votes[i] == v;
      assert HitsOf(votes)[i] == v.hit;
    }
    if h :| h in HitsOf(votes) && h.nodeID == id {
      var i :| 0 <= i < |votes| && HitsOf(votes)[i] == h;
      assert votes[i] in For(votes, id);
    }
  }

  /** Every node hit under an id has a result, and nothing else has. */
  lemma ResultIffHit(vector: seq<SearchHit>, fts: seq<SearchHit>, graph: seq<SearchHit>, k: nat,
                     results: seq<SearchResult>, id: string)
    requires IsFusion(results, AllVotes(vector, fts, graph, k))
    ensures (exists r :: r in results && r.nodeID == id) <==>
            id != "" && exists h :: (h in vector || h in fts || h in graph) && h.nodeID == id
  {
    var votes := AllVotes(vector, fts, graph, k);
    HitHasVote(votes, id);
    assert HitsOf(votes) == vector + fts + graph;
    if r :| r in results && r.nodeID == id {
      assert ResultOf(r, votes);
    }
    assert Lists(results, id) <==> exists r :: r in results && r.nodeID == id;
  }
}
