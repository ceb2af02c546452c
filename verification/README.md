# A verified model of the repository's core algorithms

This project models the stateful and algorithmic core of six components and proves what they promise, for
every input, every run and every order in which a map is walked:

- **Change impact and hybrid search** (`cc-rif`): the in-memory graph store searches level by level, the demo
  graph searches with a queue and a depth table; the retriever searches a third time on the edges the store
  returned, walks the tree back to classify each dependency, scores, fuses and ranks. `Reachability` holds the
  common theory (balls, shortest walks, what every breadth-first search keeps); `JsonStore`, `FixtureGraph`,
  `ImpactTree`, `TreeSearch`, `Impact`, `GraphSignal`, `Fusion`, `FusedHits` and `Retriever` follow the program's
  files, and `EdgeOrder` and `RankingOrder` say what the order of the returned edges decides.
- **The transcription sidecar's job protocol** (`transcript-agent`): submissions, the worker, deletion and the
  expiry sweep interleave over one registry and one queue (`JobProtocol`); `JobResults` says what GET answers when.
- **The per-repository token bucket** (`cc-rif`): `RateLimiter`, over exact reals.
- **The network diagram** (`antr`, phase 4): the builder (`Diagram` says what it draws, `DiagramBuilder` draws
  it band by band), its own layout checker (`LayoutCheck`), the severity overlay (`Overlay`), the lines
  (`DiagramEdges`, `FixtureLines`), the hub (`Hub`), rendering (`DiagramRender`) and the projected views (`Views`,
  `FindingViews`, `NodeViews`, `ViewParts`).
- **Grading and planning** (`antr` phase 1, `ba-agent`): the greedy finding matcher (`EvalMatch`) and the greedy
  sprint planner (`SprintPlanner`).
- **Admin rules and reverse dependencies** (`antr` engine, `repo-intelligence-factory`): `AdminRules`, with
  `AdminGates` on what the port texts mean and which gate decides, and `DependentsIndex`.

Objects that the program updates in place are classes here; loops are loops, and each method is tied to a
specification function or predicate about which the theorems are then proved. `dafny verify dfyconfig.toml`
checks everything.

## Where the code does something other than one would expect

Each of these is proved, with the exact condition wherever there is one:

- A rate limiter with a burst below one call is unsound: the first call always passes and overdraws the bucket
  (`RateLimiter.SoundIffBurstAtLeastOne`: sound if and only if the burst is at least one).
- The expiry sweep can purge a record, and its files, while the worker is still reading them
  (`JobProtocol.FilesCanVanishUnderWorker`); they are there exactly as long as no sweep since the job was begun had a
  cutoff after that moment (`JobProtocol.BusyFilesIffSpared`).
- Scores by severity group add up to the overall score for every engine output if and only if every expected
  finding names its severity (`EvalMatch.GroupsAddUpIffAllNamed`).
- With unique names, a detailed diagram renders if and only if no two VNets share a subnet key; a slash in a VNet
  name can make them collide (`DiagramRender.RenderableIffKeysApart`, `DiagramRender.SlashCanCollide`).
- An exposed NIC that is drawn can be left without an exposure line: such lines are drawn only when the internet is,
  that is with a public address or a single firewall (`DiagramEdges.ExposureWithoutInternet`), and they look findings
  up by a NIC's bare name while the overlay is keyed by its resource id (`DiagramEdges.ExposureCanBeMissed`). They
  follow every overlay if and only if the internet is drawn and drawn NICs are known by their bare names
  (`DiagramEdges.ExposureFollowsOverlay`).
- The demo graph answers with an empty node for every edge end that is not stored; its node list agrees with the
  store's if and only if everything met is stored (`FixtureGraphModule.NodesAgree`).
- An item left out of the sprint can fit what finally remains (`SprintPlanner.NegativePointsMakeRoom`). No priorities and
  no capacity let that happen to a backlog if and only if it does not mix negative with positive points
  (`SprintPlanner.NothingMoreFitsIff`).
- A backlog item with negative points can hide an overflow (`SprintPlanner.NegativePointsHideOverflow`). For any
  points, the overflow question is raised exactly when an item is left out if and only if the whole backlog exceeds
  the capacity or no part of it, taken from the top of the priority order, does (`SprintPlanner.QuestionIsRightIff`).
- Hub damping counts only the returned edges. The count is the true out-degree if and only if the node is nearer than
  the depth asked for or all its outgoing edges lead to such nodes (`Impact.RimDegree`); a hub at the rim can escape
  damping (`Impact.RimHubIsNotDamped`).
- The store returns its edges in the order in which a map is walked, and that order alone decides the impact ranking
  (`RankingOrder.OneRankingPerOrder`). When two shortest walks to a node carry different evidence, the same two edges in
  their two orders give it two tiers (`RankingOrder.OrderDecidesTier`). Every order gives the same ranking if and only
  if the shortest walks to every listed node agree on the tier (`RankingOrder.RankingIsUniqueIff`). Which nodes are
  listed, and at which depths, never changes (`Impact.RankingsListTheSame`).
- With equal damping only one pair of tier and distance ties (`Impact.NearerNeverScoresLess`).
- With a slash in a VNet name the risk and boundary views can drop a NIC that carries a finding
  (`Views.SlashHidesRisk`; `Views.RiskViewNics` and `Views.BoundaryViewNics` are the exact rules).
- Finding views are shared by name: a NIC and a gateway of the same name get one view between them
  (`NodeViews.SameNameSharesView`; `NodeViews.NodeGetsViewIff` is the exact rule).

## Model

| member | source | states |
|---|---|---|
| Reachability.BallIsShortWalks | cc-rif/libs/graphstore/json_store.go:248-317 | a vertex is within n hops exactly when a walk of at most n hops reaches it: what "distance" means everywhere below |
| Reachability.AtDistIsShortestWalk | cc-rif/services/retriever/impact.go:46 | a recorded distance is the length of a shortest walk |
| Reachability.SearchEnds | cc-rif/services/mcp-server/fixture.go:288-331 | a bounded queue search that has run dry has met exactly the ball of its radius, each vertex at its true distance |
| Ordering.StringLessIff | cc-rif/services/retriever/retriever.go:283-288 | the order of ids used in every ranking: the first difference decides, and a text comes before its extensions |
| GraphTypes.DigestIsHex | cc-rif/libs/graphstore/graphstore.go:16-18 | a valid id is 64 characters out of 0 to 9 and a to f |
| JsonStoreModule.JSONStore.UpsertNode | cc-rif/libs/graphstore/json_store.go:94-104 | an invalid id is refused and changes nothing; a valid node replaces the one of its id |
| JsonStoreModule.JSONStore.GetNode | cc-rif/libs/graphstore/json_store.go:106-118 | the stored node under its own id, else invalid id or not found |
| JsonStoreModule.JSONStore.UpsertEdge | cc-rif/libs/graphstore/json_store.go:120-137 | edge id checked first, then both ends; a refused edge changes nothing |
| JsonStoreModule.JSONStore.BulkLoad | cc-rif/libs/graphstore/json_store.go:139-168 | all or nothing: everything is validated before anything is written, nodes first, and the error is that of the first invalid entry; otherwise both tables take the batch in order |
| JsonStoreModule.LastWriteWins | cc-rif/libs/graphstore/json_store.go:161-163 | after a batch the node table holds, under each id the batch names, the last node of that id |
| JsonStoreModule.OthersKept | cc-rif/libs/graphstore/json_store.go:161-163 | and what it held before under every other id |
| JsonStoreModule.LastEdgeWriteWins | cc-rif/libs/graphstore/json_store.go:164-166 | the edge table holds, under each id the batch names, the last edge of that id |
| JsonStoreModule.OtherEdgesKept | cc-rif/libs/graphstore/json_store.go:164-166 | and what it held before under every other id |
| JsonStoreModule.JSONStore.DirectCallers | cc-rif/libs/graphstore/json_store.go:170-198 | each stored node with an edge to the id, once |
| JsonStoreModule.JSONStore.Dependents | cc-rif/libs/graphstore/json_store.go:200-244 | the stored nodes at directed distance 1 to depth, sorted by id; errors for a bad id or a depth out of range |
| JsonStoreModule.JSONStore.BlastRadius | cc-rif/libs/graphstore/json_store.go:246-317 | the stored nodes at undirected distance 1 to depth and exactly the edges with an end at distance below depth, in any order of the edge table |
| FixtureGraphModule.FixtureGraph.Dependents | cc-rif/services/mcp-server/fixture.go:254-286 | the queue search looks up exactly the nodes at directed distance 1 to depth, once each |
| FixtureGraphModule.FixtureGraph.BlastRadius | cc-rif/services/mcp-server/fixture.go:288-331 | the queue search looks up exactly the nodes at undirected distance 1 to depth, and returns one edge for each id touching the inner ball |
| FixtureGraphModule.NodesAgree | cc-rif/services/mcp-server/fixture.go:276-284 | the two stores' node lists hold the same nodes exactly when every vertex met is stored |
| FixtureGraphModule.TwoImplementationsAgree | cc-rif/services/mcp-server/fixture.go:288-331 | on stored endpoints and unique edge ids, for every root and depth 1 to 5, the two blast-radius searches return the same nodes and the same edges |
| FixtureGraphModule.DependentsAgree | cc-rif/services/mcp-server/fixture.go:254-286 | on stored endpoints, for every root and depth 1 to 5, the two directed searches return the same nodes |
| ImpactTree.SubgraphTruncates | cc-rif/services/retriever/impact.go:9-35 | the edges a blast radius returns have the same balls as the whole graph up to the depth, and reach nothing farther |
| TreeSearch.SearchTree | cc-rif/services/retriever/impact.go:27-49 | for every order of the edges, the search finds true distances, each tree edge leads one step nearer the root, and depths and tree are those of a function of the edge list |
| EdgeOrder.FirstWalkIsTaken | cc-rif/services/retriever/impact.go:27-49 | a shortest walk whose edges come first in the list is the one by which its end hangs in the tree |
| ImpactTree.ClassifyTier | cc-rif/services/retriever/impact.go:61-86 | the walk back terminates at the root or at a vertex without an id, and the tier depends only on the labels of the tree path it climbed |
| ImpactTree.FirstDecidingLabel | cc-rif/services/retriever/impact.go:72-85 | taking the first deciding label of the sorted list is the precedence ADVISES, then CALLS_REST or CALLS_SOAP, then INJECTS, PRODUCES or REGISTERS, else static |
| ImpactTree.TierByLabels | cc-rif/services/retriever/impact.go:72-85 | which labels stand for which tier, and which of them decide first |
| ImpactTree.ClimbIsWalk | cc-rif/services/retriever/impact.go:63-69 | where every edge end has an id, the climb is the whole shortest walk |
| TreeSearch.ImpactMetadata | cc-rif/services/retriever/impact.go:9-59 | for any edge list, every reached node gets its distance, the tier that the order of the list decides, read off the climb along one of its shortest walks, and its out-degree among the edges given |
| Impact.TierInWholeGraph | cc-rif/services/retriever/impact.go:27-86 | a tier found on the returned edges stands on a shortest walk of the whole store |
| Impact.RimDegree | cc-rif/services/retriever/impact.go:14-22 | the out-degree used for damping is never more than the true one, and equals it exactly for a node below the depth or one whose outgoing edges all lead below it |
| Impact.RimHubIsNotDamped | cc-rif/services/retriever/retriever.go:190-206 | a hub of 51 outgoing edges one hop away is not damped at depth 1 although its true degree is damped |
| Impact.RowIffShortWalk | cc-rif/services/retriever/retriever.go:184-206 | a stored node other than the root has a row exactly when a walk of at most that many hops leads to it, and the row tells the length of a shortest one |
| Impact.RowsAreRanked | cc-rif/services/retriever/retriever.go:208-219 | a row stands above another exactly for a higher score, or the same score and the lesser id |
| Impact.RowScore | cc-rif/services/retriever/rrf.go:19-32 | score times distance is 1, 0.9, 0.85 or 0.8 by tier, halved for more than 50 outgoing edges |
| Impact.StrongerEvidenceFirst | cc-rif/services/retriever/retriever.go:208-219 | of two rows at one distance the upper one has at least the evidence of the lower one |
| Impact.RankingsListTheSame | cc-rif/services/retriever/retriever.go:184-219 | any two rankings of one query list the same nodes at the same depths |
| RankingOrder.OrderHasRanking | cc-rif/services/retriever/retriever.go:184-219 | every order of the returned edges gives a ranking |
| RankingOrder.OneRankingPerOrder | cc-rif/services/retriever/retriever.go:184-219 | and one only: nothing else is left open, neither the order of the nodes nor that of any table |
| RankingOrder.OrderForTier | cc-rif/services/retriever/impact.go:27-86 | every tier that some shortest walk to a node stands for is the one that the search reports for some order of the returned edges |
| RankingOrder.RankingIsUniqueIff | cc-rif/services/retriever/impact.go:27-59 | all orders of the returned edges give one ranking exactly when the shortest walks to every listed node agree on the tier |
| RankingOrder.OrderDecidesTier | cc-rif/services/retriever/impact.go:35-48 | two parallel edges in their two orders make the search report two tiers for one node |
| Impact.NearerNeverScoresLess | cc-rif/services/retriever/rrf.go:19-32 | with equal damping and depths up to 5 a nearer node never scores less, and ties only for cross-service at 4 against static at 5 |
| Impact.DistanceDominates | cc-rif/services/retriever/retriever.go:184-219 | so in the ranking a nearer row of equal damping stands first, but for that one tie, which ids settle |
| Retriever.Service.Impact | cc-rif/services/retriever/retriever.go:154-220 | before the cut, the ranking of the edges in the order in which the store returned them, at exactly the depth asked for from 1 to 5, at 3 for none and at 5 for more: one row for every stored node within it, at its distance in the whole store, sorted; then the first limit rows, 50 for none; all error cases |
| GraphSignal.GraphSignalIsUnique | cc-rif/services/retriever/retriever.go:240-293 | the graph signal is one list, whatever order edges and tables are walked in |
| GraphSignal.SignalIsRanked | cc-rif/services/retriever/retriever.go:283-288 | a hit stands above another exactly for a higher score, or the same score and the lesser id |
| GraphSignal.CutKeepsBest | cc-rif/services/retriever/retriever.go:289-291 | no hit that the cut drops outscores one that it keeps |
| GraphSignal.NearSeedAdds | cc-rif/services/retriever/retriever.go:239-281 | one more seed at distance d adds 1/(60 + d) to the score of a stored node |
| GraphSignal.NearSeedSigns | cc-rif/services/retriever/retriever.go:256-281 | and one more mark to its signal |
| GraphSignal.FarSeedAddsNothing | cc-rif/services/retriever/retriever.go:248-256 | it adds nothing to its own score nor to that of a node out of reach, and without seeds nothing scores |
| GraphSignal.RankIsLeastDistance | cc-rif/services/retriever/retriever.go:256-281 | rank and depth of a hit are the distance of a nearest seed other than itself |
| GraphSignal.NearerStandsFirst | cc-rif/services/retriever/retriever.go:239-293 | around a single seed a nearer node stands before a farther one |
| Retriever.Service.GraphHits | cc-rif/services/retriever/retriever.go:222-293 | each stored node scores the sum over the seeds within depth, other than itself, of 1/(60 + true distance), with the least distance as rank |
| Retriever.Service.Search | cc-rif/services/retriever/retriever.go:107-152 | a missing backend or embedder, a blank query, the first failing backend call and a bad seed id answer as in the source; otherwise the answer is the first k, 10 for none, of the fusion of the two hit lists and the first k of the graph signal, at the depth asked for from 1 to 3, at 2 for none and at 3 for more |
| Retriever.Service.AnswerIsUnique | cc-rif/services/retriever/retriever.go:107-152 | two answers to one query are equal, so the search depends on no order in which a table is walked |
| Retriever.Service.AnswerIsRanked | cc-rif/services/retriever/retriever.go:107-152 | every answered node scores the sum of 1/(60 + rank) over the two lists and the cut graph signal, and stands above all that are left out |
| Retriever.BlankIffNothingVisible | cc-rif/services/retriever/retriever.go:158-160 | blanks alone are blank and one visible character is not |
| Fusion.RRFScore | cc-rif/services/retriever/rrf.go:5-17 | the sum of 1/(k + rank) over positive ranks, k defaulting to 60 |
| Fusion.FuseHybrid | cc-rif/services/retriever/retriever.go:295-358 | one result for each node hit, with the score and signals of all its hits, strictly ordered |
| Fusion.FusedScoreIsRRF | cc-rif/services/retriever/retriever.go:299-334 | on lists without repetition the score is the reciprocal-rank score of the three ranks, 0 standing for absence |
| Fusion.ScoreIsConserved | cc-rif/services/retriever/retriever.go:295-358 | the results share out exactly what the hits brought, repeated or not |
| Fusion.FusionIsStrict | cc-rif/services/retriever/retriever.go:351-356 | strictly sorted by score and id, so no duplicates |
| Fusion.FusionIsUnique | cc-rif/services/retriever/retriever.go:336-358 | the same list whatever order the candidate table is walked in |
| Fusion.AheadEverywhereOutranks | cc-rif/services/retriever/rrf.go:5-17 | a node ahead of another in every list that has the other is ranked strictly above it |
| FusedHits.ResultIffHit | cc-rif/services/retriever/retriever.go:304-349 | there is a result for exactly the ids, other than the empty one, that some list has |
| FusedHits.TextsAreFirstGiven | cc-rif/services/retriever/retriever.go:310-327 | its reference and confidence are those of the first hit of the node that gives any, in the order vector, text, graph |
| FusedHits.SignalsNameLists | cc-rif/services/retriever/retriever.go:328-342 | its signals name, sorted and once each, exactly the lists that have the node |
| RateLimiter.RepoRateLimiter.Allow | cc-rif/services/mcp-server/app.go:540-560 | the answer and the one bucket changed are the token-bucket decision; every other bucket is untouched |
| RateLimiter.RunIsDecided | cc-rif/services/mcp-server/app.go:540-560 | a whole run is those decisions one after the other |
| RateLimiter.AllowedIffAllWindowsHold | cc-rif/services/mcp-server/app.go:550-559 | a call passes exactly when no window ending with it would hold more than burst plus rate times its length |
| RateLimiter.IntervalBound | cc-rif/services/mcp-server/app.go:540-560 | in any interval of time at most burst + rate * length calls are allowed |
| RateLimiter.TokensStayInRange | cc-rif/services/mcp-server/app.go:551-558 | tokens stay between 0 and burst |
| RateLimiter.SoundIffBurstAtLeastOne | cc-rif/services/mcp-server/app.go:546-549 | range and bound hold exactly when the burst is at least one call |
| RateLimiter.SpacedCallsAllowed | cc-rif/services/mcp-server/app.go:550-559 | calls so far apart that rate times the time in between is at least one token are always allowed |
| RateLimiter.RepositoriesAreIsolated | cc-rif/services/mcp-server/app.go:545-549 | a repository's bucket is what its own calls alone would have made it |
| JobProtocol.StepOk | transcript-agent/stt-sidecar/app.py:270-431 | every step of submit, worker, delete and sweep, in any interleaving, keeps the protocol invariant |
| JobProtocol.OneAtATime | transcript-agent/stt-sidecar/app.py:277-288 | at most one record is processing, and the worker holds it |
| JobProtocol.BegunOnceNeverLost | transcript-agent/stt-sidecar/app.py:277-288 | no job is begun twice, and a queued record is still on its way to the worker |
| JobProtocol.DirectoriesRemovedOnce | transcript-agent/stt-sidecar/app.py:270-323 | an upload directory is removed at most once: not while its handler or an unfinished record owns it, exactly once as soon as none does |
| JobProtocol.BusyFilesIffRecord | transcript-agent/stt-sidecar/app.py:313-323 | while the worker is busy its files exist exactly as long as its record does |
| JobProtocol.BusyFilesIffSpared | transcript-agent/stt-sidecar/app.py:313-321 | the files of a job begun at t exist under the busy worker exactly as long as no sweep since then had a cutoff after t |
| JobProtocol.FilesCanVanishUnderWorker | transcript-agent/stt-sidecar/app.py:317-321 | a run in which the sweep purges a record being processed |
| JobProtocol.StatusMoves | transcript-agent/stt-sidecar/app.py:277-310 | one step moves a status only from queued to processing and from processing to done or error |
| JobProtocol.StatusNeverGoesBack | transcript-agent/stt-sidecar/app.py:277-310 | so over any stretch of a run it never goes back, and a final status stays |
| JobProtocol.ObservationsAgree | transcript-agent/stt-sidecar/app.py:399-415 | a result is shown exactly for done jobs and an error exactly for failed ones |
| JobProtocol.DeleteIsFinal | transcript-agent/stt-sidecar/app.py:418-431 | after a successful delete no observation ever shows a result |
| JobResults.ResultIsReal | transcript-agent/stt-sidecar/app.py:277-310 | a result that GET shows for a job is what the worker's transcription of that very job gave |
| JobResults.ErrorIsReal | transcript-agent/stt-sidecar/app.py:277-310 | an error that GET shows is the one raised over that job, or says that it was cancelled, and then it was deleted while the worker was busy with it |
| JobResults.CancelledIffDeleted | transcript-agent/stt-sidecar/app.py:418-431 | a record is marked cancelled exactly when its job was deleted while the worker was busy with it |
| JobResults.OutcomeIsShown | transcript-agent/stt-sidecar/app.py:297-323 | once the worker is done with a job whose record is there, GET shows exactly that outcome until a delete or a sweep with a later cutoff, and then nothing |
| JobResults.QueuedIsShown | transcript-agent/stt-sidecar/app.py:313-323 | from its registration until it is begun a job is shown as queued, unless deleted or swept |
| JobResults.BusyIsShown | transcript-agent/stt-sidecar/app.py:277-323 | while the worker is busy with a job it is shown as processing, unless swept |
| JobResults.FirstQueuedFirstTaken | transcript-agent/stt-sidecar/app.py:277-279 | of two jobs the worker takes the one queued earlier first |
| JobProtocol.Sidecar.StartUpload | transcript-agent/stt-sidecar/app.py:369-371 | a submission makes its directory and begins its upload: exactly the receive step |
| JobProtocol.Sidecar.AbandonUpload | transcript-agent/stt-sidecar/app.py:376-378 | a failed upload removes its own directory and leaves no record |
| JobProtocol.Sidecar.RegisterJob | transcript-agent/stt-sidecar/app.py:380-392 | under the lock the record is entered as queued, with its directory |
| JobProtocol.Sidecar.EnqueueJob | transcript-agent/stt-sidecar/app.py:393 | only after the lock is the id queued |
| JobProtocol.Sidecar.TakeNext | transcript-agent/stt-sidecar/app.py:279 | the worker takes the head of the queue |
| JobProtocol.Sidecar.BeginJob | transcript-agent/stt-sidecar/app.py:280-287 | a job dropped while queued is skipped; any other becomes processing and is counted as begun |
| JobProtocol.Sidecar.GetJob | transcript-agent/stt-sidecar/app.py:399-415 | the answer is the record's status, error and result, or that there is none |
| JobProtocol.Sidecar.FinishJob | transcript-agent/stt-sidecar/app.py:296-310 | the method makes exactly the worker's finishing step and keeps the invariant |
| JobProtocol.Sidecar.DeleteJob | transcript-agent/stt-sidecar/app.py:418-431 | the method makes exactly the delete step: mark a processing record, drop any other with its files |
| JobProtocol.Sidecar.SweepExpired | transcript-agent/stt-sidecar/app.py:313-321 | the sweep, in any order, makes exactly the sweep step |
| EvalMatch.ScoreFixture | antr/phase-1/eval/run_eval.py:89-134 | tp, fp and fn come from the first-fit pairing, tp+fn and tp+fp are the list lengths, and the leftovers are those not paired |
| EvalMatch.Measure | antr/phase-1/eval/run_eval.py:111-117 | precision and recall are the paired shares of the two lists, 1 for an empty list; f1 is twice the pairs over both lists together |
| EvalMatch.MatchIsAgreement | antr/phase-1/eval/run_eval.py:66-86 | a finding meets an expectation exactly when it agrees with every field that asks for something |
| EvalMatch.PairsAreValid | antr/phase-1/eval/run_eval.py:96-105 | the pairing is one-to-one and every pair matches |
| EvalMatch.PairsAreMaximal | antr/phase-1/eval/run_eval.py:96-105 | no unpaired expected finding matches an unpaired engine finding |
| EvalMatch.GreedyIsAtLeastHalf | antr/phase-1/eval/run_eval.py:89-109 | twice tp is at least the size of any valid pairing |
| EvalMatch.PairsAreGreedy | antr/phase-1/eval/run_eval.py:96-105 | pairing by index and taking from a shrinking pool are the same process |
| EvalMatch.GroupsBySeverity | antr/phase-1/eval/run_eval.py:262-281 | critical and high findings form one group, medium ones the second, all others the third |
| EvalMatch.GroupsAddUp | antr/phase-1/eval/run_eval.py:262-281 | when every expected finding names its severity, the tps of the three severity groups add up to the overall tp |
| EvalMatch.GroupsAddUpIffAllNamed | antr/phase-1/eval/run_eval.py:262-281 | they add up for every engine output exactly when every expected finding names its severity |
| EvalMatch.Aggregate | antr/phase-1/eval/run_eval.py:255-281 | the counters are the sums over all fixtures of the overall and re-scored tallies |
| EvalMatch.OneMoreFixture | antr/phase-1/eval/run_eval.py:255-261 | one more fixture adds its paired expected findings to tp, its other engine findings to fp and its other expected findings to fn |
| EvalMatch.GroupIsRescored | antr/phase-1/eval/run_eval.py:262-281 | a group's counters are those of the same fixtures with only the group's findings on both sides |
| EvalMatch.AggregatesAddUp | antr/phase-1/eval/run_eval.py:255-281 | when the answer keys name every severity, the graded groups and the rest account for every counted tp, fp and fn |
| SprintPlanner.BuildPlan | ba-agent/src/ba_agent/mvp.py:103-117 | capacity truncated toward zero and floored at 0, the chosen items in priority order, and the open questions raised |
| SprintPlanner.RecommendedPoints | ba-agent/src/ba_agent/mvp.py:110 | the points are velocity times availability without the fraction, and none if negative |
| SprintPlanner.SelectedIffFits | ba-agent/src/ba_agent/mvp.py:111-115 | an item is selected exactly when it fits what the selected items of lower rank number, or of the same and an earlier place in the backlog, leave of the capacity |
| SprintPlanner.ChoiceFits | ba-agent/src/ba_agent/mvp.py:111-115 | the selection never exceeds the capacity |
| SprintPlanner.ChosenIffFits | ba-agent/src/ba_agent/mvp.py:112-115 | for any points, an item is left out exactly when it does not fit what is left at its turn |
| SprintPlanner.ChoiceIsGreatest | ba-agent/src/ba_agent/mvp.py:111-115 | for any points, of all plans that keep within the capacity all the way down the list it is the lexicographically greatest |
| SprintPlanner.LeftOutDoesNotFit | ba-agent/src/ba_agent/mvp.py:111-115 | whatever the points above it, an item left out does not fit what finally remains unless an item below it has negative points |
| SprintPlanner.NothingMoreFitsIff | ba-agent/src/ba_agent/mvp.py:110-115 | under all priorities and capacities no item left out fits what finally remains, exactly when no negative item stands beside a positive one |
| SprintPlanner.NegativePointsMakeRoom | ba-agent/src/ba_agent/mvp.py:111-115 | a negative item lets an item left out fit in the end |
| SprintPlanner.ChoiceIsPreferred | ba-agent/src/ba_agent/mvp.py:111-115 | with non-negative points it is the lexicographically greatest of all plans within the capacity |
| SprintPlanner.OverflowIffLeftOut | ba-agent/src/ba_agent/mvp.py:116-117 | with non-negative points the overflow question is raised exactly when an item is left out |
| SprintPlanner.LeftOutIffPrefixOver | ba-agent/src/ba_agent/mvp.py:111-115 | for any points, an item is left out exactly when the items from the top down to some point exceed the capacity |
| SprintPlanner.QuestionIsRightIff | ba-agent/src/ba_agent/mvp.py:103-117 | for any points, a plan raises the overflow question exactly when it leaves an item out, if and only if the whole backlog exceeds the capacity or no top part of it does |
| SprintPlanner.OverflowMeansLeftOut | ba-agent/src/ba_agent/mvp.py:116-117 | whatever the points, the question is never raised without an item left out |
| SprintPlanner.NegativePointsHideOverflow | ba-agent/src/ba_agent/mvp.py:103-117 | a plan for two items that leaves the first out and raises no question |
| AdminRules.CoversIsTransitive | antr/engine/reference/analyze.py:292-305 | with CoversIsReflexive: port coverage is a preorder on the texts |
| AdminRules.CoversIsReflexive | antr/engine/reference/analyze.py:292-305 | every specification covers itself |
| AdminRules.CoversIsInclusion | antr/engine/reference/analyze.py:274-305 | on numeric ranges, coverage is inclusion of the ports |
| AdminRules.WildcardCoversAll | antr/engine/reference/analyze.py:298-299 | the wild card covers everything, and nothing but a wild card covers it |
| AdminGates.SignedIsParsed | antr/engine/reference/analyze.py:274-289 | a written number with a sign is read as that number or its negative |
| AdminGates.SpanCoversPort | antr/engine/reference/analyze.py:274-305 | an admin rule on a written span of ports, blanks around it or not, governs a written port exactly when the port lies in the span |
| AdminGates.SpanCoversSpan | antr/engine/reference/analyze.py:274-305 | and a span exactly when that one lies within it or is the same text |
| AdminGates.PortCoversPort | antr/engine/reference/analyze.py:274-305 | a single port governs that port and no other |
| AdminRules.ChoiceIsChosen | antr/engine/reference/analyze.py:308-328 | the running best is the earliest governing rule of least priority below the default |
| AdminRules.AdminVerdict | antr/engine/reference/analyze.py:308-328 | the loop returns the access of that rule, or none |
| AdminRules.DenyDecidesOrChangesNothing | antr/engine/reference/analyze.py:308-328 | a deny rule inserted anywhere either decides or leaves the verdict alone |
| AdminRules.ExposureFindings | antr/engine/reference/analyze.py:361-408 | the gate loop yields one exposure entry for each internet-facing inbound rule, reachable exactly when all gates are open |
| AdminGates.ExposuresAre | antr/engine/reference/analyze.py:361-408 | there is an entry for every inbound rule from the internet, from any address or from the cloud, and for no other |
| AdminGates.TopRuleDecides | antr/engine/reference/analyze.py:308-408 | a topmost rule that always allows opens past the interface's own rule, one that denies closes, one that allows leaves it to that rule; a public address and a first default route to the internet are needed in any case |
| AdminGates.OwnRuleDecides | antr/engine/reference/analyze.py:308-408 | where no inbound admin rule from the internet or any address governs the port, the interface's own rule decides |
| AdminRules.DenyOnlyShrinksExposure | antr/engine/reference/analyze.py:361-408 | inserting a deny rule makes nothing reachable and keeps the number of findings |
| DependentsIndex.JSONIndex.FindCallers | repo-intelligence-factory/phase-1/graphstore/graphstore.go:90-98 | the source of every CALLS edge into the id, in load order, repeats kept |
| DependentsIndex.LastNodeIsStored | repo-intelligence-factory/phase-1/graphstore/graphstore.go:75-77 | loading stores each listed node as it stands last in the list, and no other |
| DependentsIndex.CallersAre | repo-intelligence-factory/phase-1/graphstore/graphstore.go:90-98 | for each CALLS edge into the id, in load order, its source, or an empty node if that is not stored |
| DependentsIndex.JSONIndex.Dependents | repo-intelligence-factory/phase-1/graphstore/graphstore.go:100-126 | the reverse search answers each dependent at its distance through a true last step |
| DependentsIndex.DistanceIsShortestPath | repo-intelligence-factory/phase-1/graphstore/graphstore.go:100-126 | distance from the query is the length of a shortest dependency path |
| DependentsIndex.AnsweredIffDepends | repo-intelligence-factory/phase-1/graphstore/graphstore.go:100-126 | a node is answered exactly when a dependency path of 1 to maxDepth edges leads to the target, so the target itself exactly when it lies on so short a cycle |
| DependentsIndex.AnswerIsShortest | repo-intelligence-factory/phase-1/graphstore/graphstore.go:108-121 | the depth is that of a shortest path and kind and confidence are those of its first edge |
| LayoutCheck.Check | antr/phase-4/viz/check_layout.py:18-58 | no problem is reported exactly when no two siblings overlap and every child fits a parent that is drawn |
| LayoutCheck.OverlapByEdges | antr/phase-4/viz/check_layout.py:35-39 | two boxes overlap exactly when each reaches more than 1 past where the other begins, both ways |
| LayoutCheck.FitsByEdges | antr/phase-4/viz/check_layout.py:53-57 | a box fits exactly when no edge of it lies more than a half outside |
| DiagramLayout.RowCompatible | antr/phase-4/viz/render_drawio.py:110-139 | boxes placed at running offsets never overlap, whatever their widths |
| DiagramLayout.VNetsCompatible | antr/phase-4/viz/render_drawio.py:158-189 | VNets, subnets and NICs never overlap a sibling and no two share an id, however many there are |
| DiagramLayout.VNetsHoused | antr/phase-4/viz/render_drawio.py:142-151 | computed heights always contain the subnets and NICs inside |
| DiagramLayout.EveryDiagramIsLegible | antr/phase-4/viz/render_drawio.py:59-336 | for every fixture with names unique within their kind and subnet keys that tell its subnets apart (drawable), every level, overlay and set of stubs, ids are distinct and the layout is legible in the checker's sense |
| DiagramLayout.EveryBoxIsHoused | antr/phase-4/viz/render_drawio.py:142-189 | every nested box lies within a parent that is drawn |
| DiagramContents.WhatIsDrawn | antr/phase-4/viz/render_drawio.py:110-334 | exactly the resources that belong are drawn: nothing dropped, nothing invented |
| DiagramContents.EveryCellIsColoured | antr/phase-4/viz/render_drawio.py:98-105 | every scored cell has the overlay's severity, every VNet its rollup, everything else is grey |
| DiagramBuilder.RollupFilters | antr/phase-4/viz/render_drawio.py:76-105 | rolling up over the per-VNet index is rolling up over the NICs whose key names the VNet |
| DiagramBuilder.Canvas.PeerEdge | antr/phase-4/viz/render_drawio.py:205-220 | one peering: skipped, deduplicated, or drawn with the stubs it needs |
| DiagramBuilder.Build | antr/phase-4/viz/render_drawio.py:59-336 | the loops with their running offsets and counters draw exactly the specified cells and numbered lines |
| Hub.GatewaysJoinHub | antr/phase-4/viz/render_drawio.py:258-265 | each gateway and the firewall has exactly one line, to a VNet that no other exceeds in peerings and no earlier one equals; without VNets there is none |
| Hub.MorePeeredStandsLeft | antr/phase-4/viz/render_drawio.py:107 | of two drawn VNets the one with more peerings stands left, and on equal counts the earlier one |
| DiagramEdges.KeyIsUnordered | antr/phase-4/viz/render_drawio.py:211-214 | two sorted pairs agree exactly when they name the same two ends |
| DiagramEdges.PeeringsAreLines | antr/phase-4/viz/render_drawio.py:205-228 | two ends are joined by a peering line exactly when some peering names both, in either direction |
| DiagramEdges.PeeringsAreDrawnOnce | antr/phase-4/viz/render_drawio.py:205-228 | no pair is joined twice in either direction, and nothing to itself |
| FixtureLines.PeeringsJoin | antr/phase-4/viz/render_drawio.py:205-228 | two different names are joined by a peering line exactly when one of the VNets lists the other or a peering across subscriptions names both |
| FixtureLines.AppLinesJoin | antr/phase-4/viz/render_drawio.py:266-334 | the lines of application resources are exactly one from the internet to each ingress, if it is drawn, and one from each other resource to the VNet that its subnet key names |
| FixtureLines.ItemsAre | antr/phase-4/viz/render_drawio.py:276-300 | which resources are in the band, which of them are an ingress, and which have a subnet |
| DiagramEdges.StubsAreOutsiders | antr/phase-4/viz/render_drawio.py:191-203 | the stubs are exactly the peered names outside the fixture, once each |
| DiagramEdges.OverlapsAreLines | antr/phase-4/viz/render_drawio.py:230-243 | two VNets are joined by an overlap line exactly when both are drawn and some finding of the estate names the two, in whatever order the overlay's entries are visited |
| DiagramEdges.OverlapsAreDrawnOnce | antr/phase-4/viz/render_drawio.py:230-243 | and by one line only, in either direction |
| DiagramEdges.ExposureIffFound | antr/phase-4/viz/render_drawio.py:245-255 | a cell has a line from the internet exactly when the internet is drawn, the cell is, and a NIC it stands for has an exposing finding under its bare name |
| FixtureLines.ExposedIff | antr/phase-4/viz/render_drawio.py:248-250 | a cell is exposed exactly when one of its findings is reachable and has the word in its type |
| DiagramEdges.ExposureFollowsOverlay | antr/phase-4/viz/render_drawio.py:245-255 | for every overlay that findings can give, each drawn NIC has a line exactly when its own entry exposes it, if and only if the internet is drawn when a NIC is and no drawn NIC has an id apart from its name |
| DiagramEdges.ExposureCanBeMissed | antr/phase-4/viz/render_drawio.py:248-250 | a fixture with a drawn NIC that carries an exposing finding in its own overlay under its id and has no line |
| DiagramEdges.ExposureWithoutInternet | antr/phase-4/viz/render_drawio.py:245-246 | another, reached through a load balancer alone and known by its bare name, where the internet is not drawn |
| DiagramEdges.NoLineDangles | antr/phase-4/viz/render_drawio.py:371-374 | every end of every line is drawn, even in a badly named fixture |
| DiagramEdges.LineIdsAreFresh | antr/phase-4/viz/render_drawio.py:90-96 | line ids differ from one another and from every cell id, as written in the file |
| CellIds.TextIsInjective | antr/phase-4/viz/render_drawio.py:90-96 | different cells and lines are written differently, whatever names the fixture uses |
| Fixtures.NoSlashesKeepKeysApart | antr/phase-4/viz/render_drawio.py:170-176 | VNet names without a slash are enough for subnet keys to tell subnets apart |
| DiagramRender.Render | antr/phase-4/viz/render_drawio.py:363-374 | rendering yields the drawing exactly when cell ids are distinct, and fails on nothing else |
| DiagramRender.RenderableIffKeysApart | antr/phase-4/viz/render_drawio.py:170-178 | with unique names, that is exactly when the subnet keys shown tell subnets apart |
| DiagramRender.SlashCanCollide | antr/phase-4/viz/render_drawio.py:170-178 | a fixture with a slash in a VNet name that cannot be rendered |
| DiagramRender.RenderAndCheck | antr/phase-4/viz/check_layout.py:42-58 | every drawable fixture renders and the checker reports no problem |
| Overlay.ComputeOverlay | antr/phase-4/viz/overlay.py:133-145 | the overlay has an entry for exactly the cells some finding names, holding those findings in order and their worst severity |
| Overlay.FiledUnder | antr/phase-4/viz/overlay.py:101-145 | each finding is filed under exactly the cells that it is about |
| Overlay.NodeIdsAreAbout | antr/phase-4/viz/overlay.py:63-130 | which cell each kind of finding is about, and the two VNets of an overlap |
| Overlay.WorstIsMaximum | antr/phase-4/viz/overlay.py:141-144 | the severity has the greatest rank present and belongs to a finding if any ranks |
| Overlay.WorstBySeverity | antr/phase-4/viz/overlay.py:141-144 | critical beats high, high medium, medium low and low informational; anything else shows as clean |
| Overlay.WorstIgnoresOrder | antr/phase-4/viz/overlay.py:133-145 | the order of findings does not matter |
| Overlay.OverlaySeverity | antr/phase-4/viz/overlay.py:105-150 | the severity shown for a cell is the worst of exactly the findings that name it |
| Views.EveryViewIsDrawable | antr/phase-4/viz/views.py:82-131 | whatever a view keeps, what can be drawn whole can be drawn in the view |
| Views.ViewInventsNothing | antr/phase-4/viz/views.py:82-131 | apart from stubs a view shows only what the full detail diagram shows |
| Views.LeafShowsItsWorstFinding | antr/phase-4/viz/views.py:82-90 | a NIC, public address or scored application drawn anywhere shows the worst of the estate's findings about it |
| Views.ViewKeepsLeafColours | antr/phase-4/viz/views.py:82-131 | so its colour is the same in every view |
| Views.ViewNeverRaisesVNets | antr/phase-4/viz/render_drawio.py:98-105 | a VNet's rollup in a view never exceeds the full one |
| Views.RiskViewKeepsVNetColours | antr/phase-4/viz/views.py:152-165 | in the risk view it equals the full one |
| Views.RiskViewNics | antr/phase-4/viz/views.py:152-165 | the risk view shows exactly the NICs that carry a finding and sit in a subnet of a risky VNet |
| Views.RiskViewMissesNoNic | antr/phase-4/viz/views.py:152-165 | without slashes in VNet names these are exactly the drawn NICs that carry a finding |
| Views.SlashHidesRisk | antr/phase-4/viz/views.py:155-158 | a drawn NIC with a finding that the risk view drops |
| Views.RiskViewPips | antr/phase-4/viz/views.py:152-163 | exactly the unattached public addresses that carry a finding |
| Views.RiskViewApps | antr/phase-4/viz/views.py:152-163 | exactly the application resources that carry a finding |
| Views.RiskViewVNets | antr/phase-4/viz/views.py:152-158 | and exactly the VNets with a finding of their own or on one of their NICs |
| Views.RiskViewMissesNoVNet | antr/phase-4/viz/views.py:152-158 | no VNet with a ranked rollup is left out |
| Views.BoundaryViewNics | antr/phase-4/viz/views.py:168-180 | the boundary view shows exactly the NICs with a reachable finding that sit in a subnet of such a NIC's VNet |
| Views.BoundaryViewMissesNoNic | antr/phase-4/viz/views.py:168-180 | without slashes in VNet names these are exactly the drawn NICs with a reachable finding |
| ViewParts.BoundaryViewVNets | antr/phase-4/viz/views.py:168-180 | it keeps exactly the VNets of interfaces with a reachable finding |
| ViewParts.BoundaryViewKeepsAll | antr/phase-4/viz/views.py:168-180 | and every public address and application resource |
| ViewParts.CrossViewShows | antr/phase-4/viz/views.py:183-200 | the cross-subscription view keeps exactly the VNets that such a peering names, and no interface, address or application resource |
| ViewParts.WhatViewsKeep | antr/phase-4/viz/views.py:152-262 | which views keep the boundary and which the peerings across subscriptions |
| FindingViews.KHop | antr/phase-4/viz/views.py:244-252 | following every neighbour of the last frontier k times gives exactly the VNets within k peerings |
| FindingViews.PeerAdjacency | antr/phase-4/viz/views.py:51-66 | the adjacency table holds exactly the peered pairs, both ways |
| FindingViews.FocusKeepsNeighbourhood | antr/phase-4/viz/views.py:235-262 | a finding's view keeps exactly the VNets that a walk of at most k peerings joins to its centre |
| FindingViews.FocusViewNics | antr/phase-4/viz/views.py:235-262 | a NIC's view shows that NIC alone, exactly when it sits in a subnet of a VNet the view keeps |
| FindingViews.FocusShowsItsNic | antr/phase-4/viz/views.py:235-262 | which, with unique ids and non-empty VNet names without slashes, is whenever the whole diagram draws it |
| ViewParts.FocusViewShows | antr/phase-4/viz/views.py:254-261 | a finding's view keeps no public address, and of the application resources only the one it is about |
| ViewParts.CenterIsItsVNet | antr/phase-4/viz/views.py:215-242 | it is centred on the VNet before the first slash of the resource's subnet key; without one it has no centre |
| FindingViews.ChosenOncePerResource | antr/phase-4/viz/views.py:223-234 | every resource with a qualifying finding gets exactly one view |
| NodeViews.ComputedIsFiledByName | antr/phase-4/viz/overlay.py:105-145 | a computed overlay files each finding that can get a view under the node named after its resource |
| NodeViews.NodeGetsViewIff | antr/phase-4/viz/views.py:223-234 | a node gets a view of its own exactly when it has a qualifying finding and no other such node of its name comes first in the order of ids |
| NodeViews.SameNameSharesView | antr/phase-4/viz/views.py:232-234 | a gateway and a NIC of one name share the gateway's view |
| FindingViews.ViewsOfFindings | antr/phase-4/viz/views.py:211-265 | the loop builds exactly those views |
| FindingViews.GenerateViews | antr/phase-4/viz/views.py:276-290 | every view of a drawable estate renders and passes the layout checker |
| ViewParts.ViewsInOrder | antr/phase-4/viz/views.py:276-290 | the whole estate without and with detail, the risk and the boundary view, the cross-subscription view if there is anything to show, then the finding views |

## Left out

- File input and output, locks and contexts: `load` and `save` of the stores, fixture parsing, the demo loader; the modelled state is the one in memory, and a failed save after an update is not modelled.
- Databases, HTTP, MCP and FastAPI handlers, embedders, GitHub, Teams and Azure clients: `Search` takes what the embedder and the two text searches answer as inputs.
- The transcription itself is an arbitrary outcome; a client that disconnects during an upload is not modelled (only an ordinary failure of the upload is).
- Node and edge properties other than those the algorithms read, caveat texts, labels, XML escaping and colours as strings.
- Rounding: scores and tokens are exact reals, so two scores that differ only in rounding are never confused here.
- Texts are sequences of characters: parsing of port ranges takes ASCII digits, underscores between digits and blanks, but no digits of other scripts, and case folding is ASCII only.
- Fusion.FuseHybrid: takes a k of at least 0, because its only caller passes 60; below that a denominator can be zero or negative and the floating-point infinities that follow are not modelled.
- FixtureGraphModule.TwoImplementationsAgree: needs stored endpoints, unique edge ids and a depth in range, because without them the two stores do differ (`NodesAgree` is the exact rule for nodes); DependentsAgree needs the same but for the edge ids.
- RateLimiter.IntervalBound: needs a clock that does not run backwards and a burst of at least one, because with less the bound is false.
- SprintPlanner.LeftOutDoesNotFit: needs non-negative points below the item, because a later negative one can give capacity back (`NegativePointsMakeRoom`); `ChosenIffFits` is the rule for any points.
- The firewall-translation and load-balancer findings and all application-layer checks of the analysis engine; only the admin-rule, NSG, route and public-address gates are modelled, with evidence text and severity left out.
- Gate thresholds and report output of the evaluation; the answer-key files.
- The approval request of the sprint planner and its evidence references.
- The overlay of a diagram is a table and an order of its keys; theorems hold for every order.
- An explicit null where the fixture format omits a field (for instance a subnet key that is null) raises an exception in the original and is not modelled.
- The earlier copy of the diagram code in `azure-network-topology-reviewer`.
