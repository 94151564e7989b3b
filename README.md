# Smurfing Hunter: a verified model of the detection core

Smurfing Hunter looks for "smurfing" in a blockchain transaction feed, meaning money
laundering that splits funds across many wallets and recombines them. This project is a
Dafny model of the four parts of its core:

- **Graph builder** (`BlockchainGraph`). It reads transaction rows into a directed wallet
  graph. Each wallet node carries totals, a transaction count and its first and last
  timestamps. Each edge aggregates every transfer between one ordered pair of wallets.
  The builder can mark known illicit wallets and answers queries about neighbours, path
  amounts, timelines, wallet features and the subgraph around a wallet.
- **Pattern detector** (`PatternDetector`, current version). It finds four kinds of
  pattern and scores each one from 0 to 100:
  - fan-out/fan-in: one source, many relays, one destination, with a temporal check;
  - cyclic flows, checked for a chronological order of transfers;
  - layered splitting from a seed wallet;
  - peeling chains.
- **Legacy pattern detector**, the older root-level version. It has no temporal checks,
  no peeling chains and no peeling bonus in its score.
- **Suspicion scorer** (`SuspicionScorer`). It combines four 0–100 components into one
  suspicion score per wallet: centrality, proximity to illicit wallets, pattern
  involvement and structural anomaly. It also ranks wallets and assesses one wallet's
  risk.

How the model is built:

- **Values.** The graph is a value, `Graph.TxGraph`. It holds the node insertion order,
  a wallet map and an edge map.
- **Specification functions.** Every operation that the source writes as a loop is a
  `method`, and its `ensures` ties the result to a specification function.
- **Lemmas.** Lemmas about those functions state what the operations promise: soundness
  and completeness of each matcher, shortest paths, bounds, monotonicity and rankings.
- **Classes.** The objects whose fields the source updates are classes:
  `GraphBuilder.BlockchainGraph`, the two `PatternDetector` classes and
  `SuspicionScorer.Scorer`.
- **One definition, two versions.** The two detector versions share one definition of
  each matcher. A `Version` parameter (`Current` or `Legacy`) switches the temporal
  checks and the peeling bonus.
- **Library inputs.** These quantities come from numerical libraries and are inputs to
  the model:
  - the enumeration of simple cycles;
  - the median edge amount;
  - PageRank, betweenness and closeness;
  - `exp(-0.3 k)`;
  - `scipy.stats.zscore`.

  Each one is constrained only by the facts the proofs need, for example that the decay
  lies in (0, 1].

Source paths below are relative to the repository root. `core/` stands for
`src/smurfing_hunter/core/` in the prose; the table spells the paths out.

## Model

| member | source | states |
|---|---|---|
| Graph.AddWallet | src/smurfing_hunter/core/graph_builder.py:58-65 | adding a wallet node adds exactly that key to the wallet map and leaves the edges alone |
| Graph.AddTxValid | src/smurfing_hunter/core/graph_builder.py:50-84 | one transaction row keeps the graph well formed: each wallet listed once in node order, every edge between known wallets with at least one timestamp |
| Graph.FoldValid | src/smurfing_hunter/core/graph_builder.py:50-84 | any sequence of rows folded into a well-formed graph keeps it well formed |
| Graph.BuildValid | src/smurfing_hunter/core/graph_builder.py:46-84 | the graph built from any feed is well formed |
| Graph.NodesInEnumerates | src/smurfing_hunter/core/pattern_detector.py:398-399 | iterating the illicit wallets present in the graph visits each of them exactly once |
| Graph.SuccListEnumerates | src/smurfing_hunter/core/pattern_detector.py:59-63 | the successor list of a wallet has no repeats, holds exactly its successors, and its length is the out-degree |
| GraphBuild.AddTxWallet | src/smurfing_hunter/core/graph_builder.py:58-73 | after one row, a wallet exists iff it existed or the row touches it; the sender's total sent and the receiver's total received grow by the amount; each side's count grows by one; last seen becomes the later timestamp; first seen and the illicit mark are unchanged |
| GraphBuild.AddTxEdge | src/smurfing_hunter/core/graph_builder.py:76-84 | after one row, an edge exists iff it existed or the row is that pair; an existing edge gains the amount, one count and the timestamp at the end; a new edge starts with the row's amount, token, timestamp and a count of 1; other edges are unchanged |
| GraphBuild.BuildWallet | src/smurfing_hunter/core/graph_builder.py:50-73 | a wallet is in the built graph iff some row touches it; its totals are the sums of the amounts it sent and received, its count is the number of row sides it occupies, and it is not marked illicit |
| GraphBuild.BuildEdge | src/smurfing_hunter/core/graph_builder.py:76-84 | an edge u→v exists iff some row sends from u to v; its amount is the sum of those rows' amounts, its timestamps are theirs in feed order, and its count is the number of timestamps |
| GraphBuild.BuildEdgeFirstRow | src/smurfing_hunter/core/graph_builder.py:81-84 | the token type and timestamp of an edge are those of the first row for that pair |
| GraphBuild.BuildFirstSeen | src/smurfing_hunter/core/graph_builder.py:58-65 | a wallet's first-seen time is the timestamp of the first row that touches it |
| GraphBuild.BuildLastSeen | src/smurfing_hunter/core/graph_builder.py:70-71 | a wallet's last-seen time is the latest timestamp of the rows touching it and is attained by one of them |
| GraphBuilder.FirstReason | src/smurfing_hunter/core/graph_builder.py:103-105 | the reason is absent iff no row lists the wallet; otherwise it is the reason on the first row that lists it |
| GraphBuilder.MarkIllicitStep | src/smurfing_hunter/core/graph_builder.py:100-105 | marking one more listed wallet sets its illicit flag (and its first reason when the column exists) only if it is in the graph, and never adds wallets |
| GraphBuilder.BlockchainGraph.constructor | src/smurfing_hunter/core/graph_builder.py:18-22 | a new builder has an empty graph, no transactions and no illicit wallets |
| GraphBuilder.BlockchainGraph.LoadTransactions | src/smurfing_hunter/core/graph_builder.py:24-44 | fails iff one of the five required columns is missing, leaving the graph and transactions unchanged; otherwise stores the rows and folds them into the graph; the illicit set is untouched |
| GraphBuilder.BlockchainGraph.BuildGraph | src/smurfing_hunter/core/graph_builder.py:46-84 | the graph becomes the fold of the rows over the previous graph, and stays well formed |
| GraphBuilder.BlockchainGraph.AddRow | src/smurfing_hunter/core/graph_builder.py:50-84 | one loop iteration turns the graph into the graph with that row added |
| GraphBuilder.BlockchainGraph.LoadIllicitWallets | src/smurfing_hunter/core/graph_builder.py:86-107 | fails iff there is no `Wallet_ID` column, changing nothing; otherwise the illicit set is exactly the listed ids and the wallets are those ids marked; nodes, edges and transactions are unchanged |
| GraphQueries.Neighbors | src/smurfing_hunter/core/graph_builder.py:109-122 | a wallet is returned iff it is a predecessor (`in`), a successor (`out`) or either (any other direction) |
| GraphQueries.NeighborsOfFeed | src/smurfing_hunter/core/graph_builder.py:109-122 | in a built graph, v is a neighbour of w iff some row moved money between them in either direction |
| GraphQueries.GetPathAmountFlow | src/smurfing_hunter/core/graph_builder.py:124-132 | the flow is the sum of the edge amounts of the consecutive hops that are edges |
| GraphQueries.PathAmountJoin | src/smurfing_hunter/core/graph_builder.py:124-132 | the flow of two paths joined at a shared wallet is the sum of their flows |
| GraphQueries.PathAmountNonNegative | src/smurfing_hunter/core/graph_builder.py:124-132 | with non-negative edge amounts, every path flow is non-negative |
| GraphQueries.GetTransactionTimeline | src/smurfing_hunter/core/graph_builder.py:186-194 | the timeline lists the first timestamp of each hop that is an edge, in path order |
| GraphQueries.TimelineOfConnectedPath | src/smurfing_hunter/core/graph_builder.py:186-194 | along a path whose hops are all edges, the timeline has one entry per hop, each the first timestamp of that hop's edge |
| GraphQueries.WalletFeatures | src/smurfing_hunter/core/graph_builder.py:134-161 | no features iff the wallet is unknown; otherwise the degrees, totals, count and illicit flag are the wallet's; balance = received − sent; fan-out ratio × max(in, 1) = out and fan-in ratio × max(out, 1) = in |
| GraphQueries.RatiosReciprocal | src/smurfing_hunter/core/graph_builder.py:155-159 | both ratios are non-negative; they are reciprocal when both degrees are positive; with no in-edges the fan-out ratio is the out-degree |
| GraphQueries.FeaturesOfFeed | src/smurfing_hunter/core/graph_builder.py:134-161 | in a built graph, a touched wallet's features report its sent and received sums, its row count, and a balance of received minus sent |
| GraphQueries.NextLevel | src/smurfing_hunter/core/graph_builder.py:175-178 | the next BFS level is every successor or predecessor of a wallet in the current level |
| GraphQueries.SubgraphAroundWallet | src/smurfing_hunter/core/graph_builder.py:163-182 | an unknown wallet gives the empty graph; otherwise the subgraph induced by the wallets at most `hops` undirected steps away |
| GraphQueries.LevelIsWalks | src/smurfing_hunter/core/graph_builder.py:171-180 | v is in BFS level k iff an undirected walk of exactly k steps leads from the wallet to v |
| GraphQueries.BallIsShortWalks | src/smurfing_hunter/core/graph_builder.py:171-182 | v is kept in the subgraph iff an undirected walk of at most `hops` steps leads to it |
| GraphQueries.InducedProperties | src/smurfing_hunter/core/graph_builder.py:182 | the induced subgraph is well formed, keeps exactly the chosen wallets of the graph, and keeps exactly the edges between them with their data |
| Paths.ReachIsWalks | src/smurfing_hunter/core/pattern_detector.py:455 | a wallet is reached within k rounds iff a directed walk of at most k steps leads to it |
| Paths.DistIsLeast | src/smurfing_hunter/core/pattern_detector.py:455 | the distance is the first round that reaches the target; with no distance, no round ever reaches it |
| Paths.ShortestPathIsShortest | src/smurfing_hunter/core/pattern_detector.py:455 | a path exists iff a walk exists; the shortest path is a walk with one node more than the distance, and no walk is shorter |
| Paths.FindShortestPathToIllicit | src/smurfing_hunter/core/pattern_detector.py:444-462 | the loop over illicit wallets returns the nearest-target result |
| Paths.NearestStep | src/smurfing_hunter/core/pattern_detector.py:452-460 | one more target replaces the best path only when it is strictly shorter (ties keep the earlier target) |
| Paths.NearestIsNearest | src/smurfing_hunter/core/pattern_detector.py:444-462 | the distance is infinite iff no target is reachable, and then the path is empty; otherwise the distance is the number of nodes on a walk ending at a target, and no walk to a target is shorter |
| Paths.NearestMonotone | src/smurfing_hunter/core/pattern_detector.py:452-462 | more illicit wallets never make the nearest one farther |
| Patterns.Scored | src/smurfing_hunter/core/pattern_detector.py:108-109 | scoring keeps a pattern's wallets, type and amount, and the score is at most 100, and at least 0 for a non-negative median |
| Patterns.CountIllicit | src/smurfing_hunter/core/pattern_detector.py:418-424 | the count is the number of pattern wallets that are illicit |
| Patterns.CalculatePatternSuspicion | src/smurfing_hunter/core/pattern_detector.py:407-442 | the current score: intermediary, illicit-share and amount factors plus the peeling bonus, capped at 100 |
| Patterns.LegacyCalculatePatternSuspicion | pattern_detector.py:243-273 | the legacy score: the same three factors without the peeling bonus, capped at 100 |
| Patterns.ScorePattern | src/smurfing_hunter/core/pattern_detector.py:108-109 | the score of the detector version is attached to the pattern |
| Patterns.FactorBounds | src/smurfing_hunter/core/pattern_detector.py:413-440 | intermediaries give 0–30, the illicit share 0–40, the amount at most 30 (at least 0 for a non-negative median), and the peeling bonus is 0 or 15 |
| Patterns.ScoreBounds | src/smurfing_hunter/core/pattern_detector.py:407-442 | both scores are at most 100; for a non-negative median the legacy score lies between 0 and the current one |
| Patterns.LegacyAgreesOffPeeling | pattern_detector.py:243-273 | the two versions score every pattern that is not a peeling chain the same |
| Patterns.ScoreIllicitMonotone | src/smurfing_hunter/core/pattern_detector.py:417-427 | marking more wallets illicit never lowers either score |
| Patterns.ScoreSaturates | src/smurfing_hunter/core/pattern_detector.py:407-442 | ten or more intermediaries, all wallets illicit and an amount of at least ten medians give exactly 100 |
| Patterns.PatternStatistics | src/smurfing_hunter/core/pattern_detector.py:491-510 | no statistics iff no patterns; otherwise the total is the number of patterns and a type is a key iff some pattern has it |
| Patterns.CollectStatistics | src/smurfing_hunter/core/pattern_detector.py:491-510 | the loop computes the statistics of the pattern list |
| Patterns.TypeCountsStep | src/smurfing_hunter/core/pattern_detector.py:498-504 | one more pattern increments the count of its own type only |
| Patterns.CountOfTypeSum | src/smurfing_hunter/core/pattern_detector.py:498-504 | the four per-type counts add up to the number of patterns |
| Patterns.CountOfTypePositive | src/smurfing_hunter/core/pattern_detector.py:498-504 | a type's count is positive iff some pattern has that type |
| Patterns.MaxScoreBounds | src/smurfing_hunter/core/pattern_detector.py:506 | no pattern scores above the maximum |
| Patterns.MaxScoreAttained | src/smurfing_hunter/core/pattern_detector.py:506 | some pattern scores exactly the maximum |
| Patterns.SumAtMostMax | src/smurfing_hunter/core/pattern_detector.py:505-506 | the score sum is at most the count times the maximum |
| Patterns.StatisticsByType | src/smurfing_hunter/core/pattern_detector.py:498-504 | each reported type count is the positive number of patterns of that type, an unreported type has none, and the counts add up to the total |
| Patterns.StatisticsScores | src/smurfing_hunter/core/pattern_detector.py:505-506 | the maximum bounds and is attained by the scores, and the average is at most the maximum |
| FanOut.AddIntermediary | src/smurfing_hunter/core/pattern_detector.py:72-87 | handling one relay adds it to the candidate set of every destination it forwards to (later than it received, in the current version) |
| FanOut.DestinationCandidates | src/smurfing_hunter/core/pattern_detector.py:67-87 | the candidates map each destination reached through a successor of the source to the set of successors relaying to it |
| FanOut.CandidateIsFanIn | src/smurfing_hunter/core/pattern_detector.py:96-101 | a destination's candidate set is its fan-in, and every member of it has an edge into the destination, so the valid intermediaries are the whole set |
| FanOut.CandidatesListed | src/smurfing_hunter/core/pattern_detector.py:90 | a wallet is iterated as a destination iff it is in the graph and has a non-empty fan-in |
| FanOut.InflowOf | src/smurfing_hunter/core/pattern_detector.py:93-99 | the total is the sum of the edge amounts into the destination over the intermediaries in node order, and the valid set is the intermediaries with such an edge |
| FanOut.InflowSums | src/smurfing_hunter/core/pattern_detector.py:96-98 | when every intermediary sends to the destination, the total is the sum of their edge amounts |
| FanOut.PatternsOfSource | src/smurfing_hunter/core/pattern_detector.py:66-111 | the patterns of one source are the patterns for its destination candidates in node order |
| FanOut.PatternsForStep | src/smurfing_hunter/core/pattern_detector.py:90-111 | one more destination adds a pattern iff its fan-in reaches the minimum |
| FanOut.PatternsForMembers | src/smurfing_hunter/core/pattern_detector.py:90-111 | a pattern is reported for a source iff it is the pattern of a listed destination whose fan-in reaches the minimum |
| FanOut.FindFanOutFanIn | src/smurfing_hunter/core/pattern_detector.py:45-114 | the nested loops return the fan-out/fan-in patterns of the graph (the same member models `pattern_detector.py` lines 44-96 for the legacy version) |
| FanOut.PatternsFromSound | src/smurfing_hunter/core/pattern_detector.py:59-111 | every reported pattern is the pattern of a listed source and a destination forming a fan-out/fan-in |
| FanOut.PatternsFromComplete | src/smurfing_hunter/core/pattern_detector.py:59-111 | every fan-out/fan-in from a listed source is reported |
| FanOut.FanOutPatternsExactly | src/smurfing_hunter/core/pattern_detector.py:45-114 | a pattern is reported iff it is the pattern of some source and destination with out-degree ≥ min fan-out and fan-in ≥ min fan-in |
| FanOut.FanPatternShape | src/smurfing_hunter/core/pattern_detector.py:90-111 | the pattern has one source, one destination and fan-out/fan-in type; its intermediaries are exactly the relays (whose latest outgoing time is after the earliest incoming one, in the current version); its amount is their inflow to the destination |
| FanOut.TemporalFilterNarrows | src/smurfing_hunter/core/pattern_detector.py:79-87 | the current fan-in is a subset of the legacy one |
| FanOut.RelayHasLaterTransfer | src/smurfing_hunter/core/pattern_detector.py:78-87 | a current relay has some outgoing transfer strictly later than some incoming one |
| Cycles.NextAfter | src/smurfing_hunter/core/pattern_detector.py:160-164 | none iff no timestamp is after the floor; otherwise the smallest timestamp after it |
| Cycles.LeastLater | src/smurfing_hunter/core/pattern_detector.py:154-164 | the scan of the sorted timestamps returns the first one after the floor |
| Cycles.CheckTemporal | src/smurfing_hunter/core/pattern_detector.py:137-173 | the loop accepts a cycle iff it passes the greedy chronological check |
| Cycles.ChronoSound | src/smurfing_hunter/core/pattern_detector.py:137-173 | a cycle that passes the check has one transfer time per hop, each on that hop's edge and strictly increasing |
| Cycles.ChronoComplete | src/smurfing_hunter/core/pattern_detector.py:137-173 | any strictly increasing choice of one transfer time per hop makes the check pass |
| Cycles.TemporallyValidIffSchedule | src/smurfing_hunter/core/pattern_detector.py:137-173 | a cycle passes iff a strictly increasing schedule of transfers around it exists |
| Cycles.Examined | src/smurfing_hunter/core/pattern_detector.py:126-178 | the number of enumerated cycles looked at lies between the start and the number available |
| Cycles.ScanCycles | src/smurfing_hunter/core/pattern_detector.py:126-178 | the budgeted scan keeps the cycles of length between the bounds that pass the version's check, up to its stopping point (the same loop as `pattern_detector.py` lines 108-117) |
| Cycles.KeptAmongSound | src/smurfing_hunter/core/pattern_detector.py:130-173 | every kept cycle was enumerated and meets the length bounds and the version's check |
| Cycles.KeptAmongPrefix | src/smurfing_hunter/core/pattern_detector.py:128-173 | one more enumerated cycle is appended iff it is kept |
| Cycles.ExaminedBounds | src/smurfing_hunter/core/pattern_detector.py:175-178 | the scan stops early only after 5000 cycles or 100 kept cycles, and never exceeds either |
| Cycles.CyclesKeptBudget | src/smurfing_hunter/core/pattern_detector.py:126-178 | the result is the kept cycles of an enumerated prefix, at most 100 of them, with at most 5000 cycles looked at |
| Cycles.CyclesKeptSound | src/smurfing_hunter/core/pattern_detector.py:126-178 | every returned cycle was enumerated and is kept |
| Cycles.ExaminedAll | src/smurfing_hunter/core/pattern_detector.py:175-178 | with fewer than 5000 cycles and fewer than 100 kept, every cycle is looked at |
| Cycles.CyclesKeptWithinBudget | src/smurfing_hunter/core/pattern_detector.py:175-178 | below both budgets, the result is every kept cycle |
| Cycles.CycleTotal | src/smurfing_hunter/core/pattern_detector.py:182-185 | the loop sums the edge amounts around the cycle, closing hop included |
| Cycles.CycleAmountIsFlow | src/smurfing_hunter/core/pattern_detector.py:182-185 | the cycle amount is the path flow of the cycle closed back to its first wallet |
| Cycles.CycleAmountIsClosedPath | src/smurfing_hunter/core/pattern_detector.py:182-185 | every partial sum of the hop amounts is the flow of the corresponding partial path |
| Cycles.PatternOfCycle | src/smurfing_hunter/core/pattern_detector.py:180-196 | builds the cyclic pattern of one cycle |
| Cycles.CycleRoles | src/smurfing_hunter/core/pattern_detector.py:187-192 | for a cycle of three or more distinct wallets, the pattern's wallets are the cycle's, the first and last are not intermediaries, and there are exactly length − 2 intermediaries |
| Cycles.CyclicPatternsOf | src/smurfing_hunter/core/pattern_detector.py:180-196 | every pattern is that of one of the cycles |
| Cycles.PatternsOfCycles | src/smurfing_hunter/core/pattern_detector.py:180-196 | the loop builds one pattern per kept cycle, in order |
| Cycles.CyclicFoundSound | src/smurfing_hunter/core/pattern_detector.py:116-202 | every cyclic pattern has cyclic type and comes from an enumerated cycle that is kept |
| Cycles.FindCyclic | src/smurfing_hunter/core/pattern_detector.py:116-202 | over the library's simple cycles of the graph, the method returns the patterns of the kept cycles (the same member models `pattern_detector.py` lines 98-141) |
| Cycles.CyclicFoundShape | src/smurfing_hunter/core/pattern_detector.py:126-196 | over the library's simple cycles with a minimum length of three or more, each cyclic pattern covers exactly the wallets of one enumerated cycle within the length bounds, has length − 2 intermediaries and neither the first nor the last wallet among them, carries the flow around the closed cycle, and in the current version follows a strictly increasing schedule of that cycle's transfers |
| Layering.ExpandLayer | src/smurfing_hunter/core/pattern_detector.py:228-248 | the next layer is every successor of a wallet in the current layer with at least `min_split` successors |
| Layering.GatherLayers | src/smurfing_hunter/core/pattern_detector.py:216-253 | the BFS collects the union of layers 1..`max_layers` |
| Layering.LayerEmptyStays | src/smurfing_hunter/core/pattern_detector.py:250-251 | once a layer is empty, every later one is empty |
| Layering.GatheredStable | src/smurfing_hunter/core/pattern_detector.py:250-251 | once a layer is empty, more rounds add nothing, so breaking early changes nothing |
| Layering.LayerIsSplitWalks | src/smurfing_hunter/core/pattern_detector.py:227-253 | v is in layer r iff an r-step walk leads from the seed to v with every step leaving a wallet that splits to at least `min_split` successors |
| Layering.GatheredIsRounds | src/smurfing_hunter/core/pattern_detector.py:227-253 | a wallet is gathered iff it lies in some layer 1..`max_layers` |
| Layering.CountsAdd | src/smurfing_hunter/core/pattern_detector.py:257-260 | tallying one more intermediary adds one to each outside destination it sends to |
| Layering.TallyFrom | src/smurfing_hunter/core/pattern_detector.py:258-260 | the inner loop adds one for each successor outside the intermediaries and the seed |
| Layering.TargetsListed | src/smurfing_hunter/core/pattern_detector.py:258-259 | the successors iterated for the tally are exactly the outside successors |
| Layering.TallyConvergence | src/smurfing_hunter/core/pattern_detector.py:256-260 | each outside destination is counted once per intermediary that sends to it |
| Layering.ConvergenceOfCounts | src/smurfing_hunter/core/pattern_detector.py:256-263 | the destinations with a count of at least `min_split` are those with at least `min_split` intermediary predecessors |
| Layering.LayeredTotal | src/smurfing_hunter/core/pattern_detector.py:274-278 | the total is the sum, over the convergence wallets, of their inflow from the intermediaries |
| Layering.InflowFrom | src/smurfing_hunter/core/pattern_detector.py:276-278 | the inner loop sums the edge amounts from the intermediaries into one destination |
| Layering.FindLayered | src/smurfing_hunter/core/pattern_detector.py:204-285 | the method returns the layered patterns of the seed (the same member models `pattern_detector.py` lines 143-209) |
| Layering.LayeredPatternShape | src/smurfing_hunter/core/pattern_detector.py:265-282 | a non-empty result is one pattern of the seed, of layered type, whose intermediaries are the gathered layers and whose destinations are non-empty, outside the intermediaries and the seed, and each fed by at least `min_split` intermediaries |
| Layering.NoLayersNoPattern | src/smurfing_hunter/core/pattern_detector.py:227-265 | with no layers to explore, nothing is reported |
| Layering.LayeredFromStep | src/smurfing_hunter/core/pattern_detector.py:398-401 | one more seed appends its layered patterns |
| Layering.LayeredFromSeeds | src/smurfing_hunter/core/pattern_detector.py:396-403 | at most one layered pattern per seed, each with that seed as its only source |
| Peeling.FirstMaxIndex | src/smurfing_hunter/core/pattern_detector.py:330-334 | the index of the first largest amount, as a stable descending sort puts first |
| Peeling.Next | src/smurfing_hunter/core/pattern_detector.py:312-339 | a continuation, when there is one, is a successor of the current wallet |
| Peeling.NextIsMainSuccessor | src/smurfing_hunter/core/pattern_detector.py:312-339 | there is a continuation iff some successor takes at least (1 − threshold) of the total sent, and the chosen one does |
| Peeling.MainSuccessor | src/smurfing_hunter/core/pattern_detector.py:312-339 | the loop's amount sort and threshold test choose the continuation |
| Peeling.Extend | src/smurfing_hunter/core/pattern_detector.py:311-349 | following a chain only appends wallets of the graph to it |
| Peeling.ExtendStep | src/smurfing_hunter/core/pattern_detector.py:341-349 | a chain grows by its continuation iff it has fewer than 21 wallets and the continuation is non-empty and new to the chain; otherwise it stops |
| Peeling.Chain | src/smurfing_hunter/core/pattern_detector.py:307-349 | a chain starts at its seed and stays in the graph |
| Peeling.FollowChain | src/smurfing_hunter/core/pattern_detector.py:307-349 | the loop builds the chain of the seed and adds every wallet after the seed to the visited set |
| Peeling.ExtendShape | src/smurfing_hunter/core/pattern_detector.py:311-349 | following keeps a chain distinct and within 21 wallets; each step goes to the continuation, and it ends where no new continuation exists or the cap is hit |
| Peeling.ChainShape | src/smurfing_hunter/core/pattern_detector.py:307-349 | a chain has 1 to 21 distinct wallets starting at the seed, each step is a peeling step, and it ends where following stops |
| Peeling.PeelingFromStep | src/smurfing_hunter/core/pattern_detector.py:303-364 | a visited candidate is skipped; otherwise its chain is reported when long enough and its later wallets become visited |
| Peeling.FoundOf | src/smurfing_hunter/core/pattern_detector.py:351-364 | a chain of three or more wallets yields its pattern, a shorter one nothing |
| Peeling.FindPeeling | src/smurfing_hunter/core/pattern_detector.py:287-367 | the method returns the peeling patterns of the graph |
| Peeling.PeelingFromSound | src/smurfing_hunter/core/pattern_detector.py:299-364 | every pattern is the chain pattern of an unvisited candidate whose chain has at least three wallets |
| Peeling.ChainPatternShape | src/smurfing_hunter/core/pattern_detector.py:351-364 | a chain's pattern is a peeling chain from its first to its last wallet, with 1 to 19 intermediaries, disjoint roles, and the seed's total sent as its amount |
| Peeling.PeelingPatternShape | src/smurfing_hunter/core/pattern_detector.py:299-364 | every peeling pattern has one source with out-degree 1–5, one destination, 1 to 19 intermediaries, disjoint roles, and the source's total sent as its amount |
| Peeling.FoundCovers | src/smurfing_hunter/core/pattern_detector.py:342-358 | a chain's pattern uses as intermediaries and destination only wallets added to the visited set |
| Peeling.PeelingFromAvoids | src/smurfing_hunter/core/pattern_detector.py:301-305 | no reported pattern starts at an already visited wallet |
| Peeling.PeelingFromFresh | src/smurfing_hunter/core/pattern_detector.py:301-343 | no chain starts at a wallet that an earlier chain passed through |
| Peeling.PeelingSeedsFresh | src/smurfing_hunter/core/pattern_detector.py:299-366 | over the whole run, no pattern's source is an intermediary or destination of an earlier pattern |
| PatternDetection.FromIllicitLayered | src/smurfing_hunter/core/pattern_detector.py:396-403 | the full run reports at most one layered pattern per illicit wallet in the graph, each starting at such a wallet |
| PatternDetection.PatternDetector.constructor | src/smurfing_hunter/core/pattern_detector.py:40-43 | a new detector holds the graph and has no patterns |
| PatternDetection.PatternDetector.DetectFanOutFanIn | src/smurfing_hunter/core/pattern_detector.py:45-114 | returns the temporal fan-out/fan-in patterns and appends them to the detected patterns |
| PatternDetection.PatternDetector.DetectCyclic | src/smurfing_hunter/core/pattern_detector.py:116-202 | over the graph's simple cycles, which the detector's invariant ties to its graph, returns the patterns of the cycles within the length bounds and budgets that have a strictly increasing schedule of transfers, and appends them |
| PatternDetection.PatternDetector.DetectLayered | src/smurfing_hunter/core/pattern_detector.py:204-285 | returns the layered patterns of the seed and appends them |
| PatternDetection.PatternDetector.DetectPeeling | src/smurfing_hunter/core/pattern_detector.py:287-367 | returns the peeling patterns and appends them |
| PatternDetection.PatternDetector.DetectLayeredFrom | src/smurfing_hunter/core/pattern_detector.py:396-403 | runs the layered matcher from each seed in turn; the result and the appended patterns are their concatenation |
| PatternDetection.PatternDetector.DetectAllPatternsFromIllicit | src/smurfing_hunter/core/pattern_detector.py:369-405 | the four lists of the full run, appended in the order fan-out, cyclic, peeling, layered |
| PatternDetection.PatternDetector.FindShortestPathToIllicit | src/smurfing_hunter/core/pattern_detector.py:444-462 | for a wallet of the graph, the nearest illicit wallet's path and distance; for an unknown wallet, an error iff some illicit wallet is in the graph, else an empty path at infinite distance |
| PatternDetection.PatternDetector.GetPatternStatistics | src/smurfing_hunter/core/pattern_detector.py:491-510 | the statistics of the detected patterns |
| LegacyDetection.FromIllicitKinds | pattern_detector.py:211-241 | the older full run reports no peeling chains, each list holds its own pattern type, and every layered pattern starts at an illicit wallet of the graph |
| LegacyDetection.PatternDetector.constructor | pattern_detector.py:39-42 | a new detector holds the graph and has no patterns |
| LegacyDetection.PatternDetector.DetectFanOutFanIn | pattern_detector.py:44-96 | returns the fan-out/fan-in patterns without the temporal check and appends them |
| LegacyDetection.PatternDetector.DetectCyclic | pattern_detector.py:98-141 | over the graph's simple cycles, which the detector's invariant ties to its graph, returns the cyclic patterns within the length bounds and the budget, without the temporal check, and appends them |
| LegacyDetection.PatternDetector.DetectLayered | pattern_detector.py:143-209 | returns the layered patterns of the seed and appends them |
| LegacyDetection.PatternDetector.DetectLayeredFrom | pattern_detector.py:234-237 | runs the layered matcher from each seed in turn and appends the results |
| LegacyDetection.PatternDetector.DetectAllPatternsFromIllicit | pattern_detector.py:211-241 | the three lists of the full run, appended in the order fan-out, cyclic, layered |
| LegacyDetection.PatternDetector.FindShortestPathToIllicit | pattern_detector.py:275-293 | as in the current detector |
| LegacyDetection.PatternDetector.GetPatternStatistics | pattern_detector.py:322-341 | the statistics of the detected patterns |
| Scoring.Least | src/smurfing_hunter/core/suspicion_scorer.py:286 | the minimum is an entry and no entry is below it |
| Scoring.Greatest | src/smurfing_hunter/core/suspicion_scorer.py:287 | the maximum is an entry and no entry is above it |
| Scoring.NormalizeSpread | src/smurfing_hunter/core/suspicion_scorer.py:286-292 | for a non-constant list, each value maps to its position between the minimum and the maximum |
| Scoring.NormalizeConstant | src/smurfing_hunter/core/suspicion_scorer.py:289-290 | every normalised value is 0.5 iff the list is constant |
| Scoring.NormalizeRange | src/smurfing_hunter/core/suspicion_scorer.py:279-292 | normalised values lie in [0, 1] and keep the order of the inputs |
| Scoring.NormalizeExtremes | src/smurfing_hunter/core/suspicion_scorer.py:292 | for a non-constant list, a value normalises to 0 iff it is the minimum and to 1 iff it is the maximum |
| Scoring.RiskBands | src/smurfing_hunter/core/suspicion_scorer.py:294-307 | the risk level's rank is the number of thresholds 20, 40, 60, 80 the score reaches |
| Scoring.RiskMonotone | src/smurfing_hunter/core/suspicion_scorer.py:294-307 | a higher score never gets a lower risk level |
| Scoring.Tabulate | src/smurfing_hunter/core/suspicion_scorer.py:90-92 | the score map has exactly the listed wallets, each with its own value |
| Scoring.CentralityRange | src/smurfing_hunter/core/suspicion_scorer.py:58-94 | every node gets a centrality score, and it lies in [0, 100] |
| Scoring.CentralityDominance | src/smurfing_hunter/core/suspicion_scorer.py:86-92 | a node at least as central as another by all three measures scores at least as high |
| Scoring.CentralityUniform | src/smurfing_hunter/core/suspicion_scorer.py:86-92 | when all three measures are constant, every node scores 50 |
| Scoring.ProximityRange | src/smurfing_hunter/core/suspicion_scorer.py:103-127 | the proximity score lies in [0, 100] and is 100 for an illicit wallet |
| Scoring.ProximityZero | src/smurfing_hunter/core/suspicion_scorer.py:109-127 | a licit wallet scores at least min(10 × illicit neighbours, 100), and scores 0 iff it has no illicit neighbour and no illicit wallet is reachable |
| Scoring.ProximityMonotone | src/smurfing_hunter/core/suspicion_scorer.py:103-127 | marking more wallets illicit never lowers the proximity score |
| Scoring.InvolvementSign | src/smurfing_hunter/core/suspicion_scorer.py:138-151 | raw involvement is non-negative, and positive iff the wallet belongs to a pattern with a positive score |
| Scoring.InvolvementPeak | src/smurfing_hunter/core/suspicion_scorer.py:154-157 | the peak raw involvement bounds every wallet's and is attained by one |
| Scoring.InvolvementSpec | src/smurfing_hunter/core/suspicion_scorer.py:131-159 | every wallet gets a score in [0, 100], ordered as raw involvement; the most involved wallet scores 100 when involvement is positive; all score 0 when nobody is involved |
| Scoring.FeatureTable | src/smurfing_hunter/core/suspicion_scorer.py:169-182 | one five-feature row per wallet with features, listed with those wallets in node order |
| Scoring.FeatureTableNodes | src/smurfing_hunter/core/suspicion_scorer.py:172-182 | in a well-formed graph every node has features, so the wallet list is the node list |
| Scoring.SpreadIsVariation | src/smurfing_hunter/core/suspicion_scorer.py:193 | a positive standard deviation means the column is not constant |
| Scoring.DeviationSpec | src/smurfing_hunter/core/suspicion_scorer.py:191-197 | deviations are non-negative, and all zero for a constant column |
| Scoring.PeaksNonNegative | src/smurfing_hunter/core/suspicion_scorer.py:202 | each wallet's largest deviation is non-negative |
| Scoring.ScaleByMaxSpec | src/smurfing_hunter/core/suspicion_scorer.py:205-208 | rescaled values lie in [0, 100], keep their order, and reach 100 when any is positive |
| Scoring.AnomalyValuesSpec | src/smurfing_hunter/core/suspicion_scorer.py:189-208 | anomaly values lie in [0, 100], and one is 100 when any is positive |
| Scoring.AnomalyValuesFlat | src/smurfing_hunter/core/suspicion_scorer.py:191-208 | when every feature is constant, every anomaly value is 0 |
| Scoring.AnomalyAt | src/smurfing_hunter/core/suspicion_scorer.py:210-215 | every wallet of the graph gets the anomaly value of its own row |
| Scoring.AnomalyRange | src/smurfing_hunter/core/suspicion_scorer.py:161-217 | every wallet gets an anomaly score, and it lies in [0, 100] |
| Scoring.AnomalyTop | src/smurfing_hunter/core/suspicion_scorer.py:205-210 | if any wallet has a positive anomaly score, some wallet scores 100 |
| Scoring.AnomalyFlat | src/smurfing_hunter/core/suspicion_scorer.py:184-217 | when every feature is constant across wallets, every anomaly score is 0 |
| Scoring.FillCovered | src/smurfing_hunter/core/suspicion_scorer.py:212-215 | filling is a no-op when every wallet already has a score |
| Scoring.CompositeBetween | src/smurfing_hunter/core/suspicion_scorer.py:38-51 | the 0.35/0.35/0.20/0.10 blend lies between the bounds of its components, and equals them when they agree |
| Scoring.ComponentsRange | src/smurfing_hunter/core/suspicion_scorer.py:31-35 | all four component scores of a wallet lie in [0, 100] |
| Scoring.CompositeScoresRange | src/smurfing_hunter/core/suspicion_scorer.py:45-53 | with components in [0, 100], every wallet gets a composite in [0, 100] |
| Scoring.AllScoresRange | src/smurfing_hunter/core/suspicion_scorer.py:24-56 | every wallet of the graph gets a suspicion score, and it lies in [0, 100] |
| Scoring.Insert | src/smurfing_hunter/core/suspicion_scorer.py:226 | inserting adds exactly one entry |
| Scoring.SortByScore | src/smurfing_hunter/core/suspicion_scorer.py:226 | sorting permutes the entries |
| Scoring.SortByScoreSpec | src/smurfing_hunter/core/suspicion_scorer.py:226 | the sorted entries are in non-increasing score order, and distinct wallets stay distinct |
| Scoring.SortedItems | src/smurfing_hunter/core/suspicion_scorer.py:226 | sorting the score map lists every wallet exactly once with its own score, in descending order |
| Scoring.RankingPrefix | src/smurfing_hunter/core/suspicion_scorer.py:226-227 | the first n entries, with Python slice semantics for negative n, are descending and distinct, carry true scores, and no omitted wallet outscores an included one |
| Scoring.TopSuspicious | src/smurfing_hunter/core/suspicion_scorer.py:219-227 | the top-n list is descending and distinct, has min(n, wallet count) entries (slice semantics for negative n), and no wallet left out scores above one listed |
| Scoring.InvolvedPatterns | src/smurfing_hunter/core/suspicion_scorer.py:249-252 | exactly the patterns containing the wallet, in order |
| Scoring.AssessmentComponents | src/smurfing_hunter/core/suspicion_scorer.py:239-275 | the assessment reports the wallet, its overall score, that score's risk level, four components in [0, 100] and its features, whose illicit flag matches |
| Scoring.NearestIllicit | src/smurfing_hunter/core/suspicion_scorer.py:255 | the reported distance is finite iff some illicit wallet is reachable; then the path is a shortest walk to an illicit wallet, with the distance as its node count |
| Scoring.AssessmentIllicitConnection | src/smurfing_hunter/core/suspicion_scorer.py:254-272 | distance and path are present together iff an illicit wallet is reachable; the path ends at an illicit wallet with no shorter alternative; the distance is 1 iff the wallet is itself illicit |
| Scoring.AssessmentPatterns | src/smurfing_hunter/core/suspicion_scorer.py:248-274 | the pattern count is that of the patterns containing the wallet, 0 iff none does, and the listed types are exactly their types |
| SuspicionScorer.Scorer.constructor | src/smurfing_hunter/core/suspicion_scorer.py:18-22 | a new scorer shares the detector's graph and illicit set and has no scores |
| SuspicionScorer.Scorer.CalculateCentralityScores | src/smurfing_hunter/core/suspicion_scorer.py:58-94 | the centrality scores of the graph |
| SuspicionScorer.Scorer.CalculateIllicitProximityScores | src/smurfing_hunter/core/suspicion_scorer.py:96-129 | the proximity score of every wallet |
| SuspicionScorer.Scorer.ConnectionScore | src/smurfing_hunter/core/suspicion_scorer.py:109-127 | the proximity score of one licit wallet |
| SuspicionScorer.Scorer.Accrue | src/smurfing_hunter/core/suspicion_scorer.py:143-151 | one pattern adds its score to each source and destination and 0.7 of it to each intermediary, touching no other wallet |
| SuspicionScorer.Scorer.CalculatePatternInvolvementScores | src/smurfing_hunter/core/suspicion_scorer.py:131-159 | the involvement scores for the detector's patterns |
| SuspicionScorer.Scorer.GatherFeatures | src/smurfing_hunter/core/suspicion_scorer.py:169-182 | the feature table of the graph's nodes |
| SuspicionScorer.Scorer.FeatureDeviations | src/smurfing_hunter/core/suspicion_scorer.py:189-197 | the per-feature deviations of the table |
| SuspicionScorer.Scorer.FillMissing | src/smurfing_hunter/core/suspicion_scorer.py:212-215 | every node without a score gets 0 and the others keep theirs |
| SuspicionScorer.Scorer.CalculateStructuralAnomalyScores | src/smurfing_hunter/core/suspicion_scorer.py:161-217 | the anomaly scores of the graph |
| SuspicionScorer.Scorer.CalculateAllScores | src/smurfing_hunter/core/suspicion_scorer.py:24-56 | the stored and returned scores are the composite scores of the graph |
| SuspicionScorer.Scorer.StoreComposites | src/smurfing_hunter/core/suspicion_scorer.py:45-53 | the stored scores become the composite of the four components for every wallet |
| SuspicionScorer.Scorer.GetTopSuspiciousWallets | src/smurfing_hunter/core/suspicion_scorer.py:219-227 | scores are computed first only when none are stored; the result is the first n of the descending ranking, with distinct wallets and their stored scores |
| SuspicionScorer.Scorer.GetWalletRiskAssessment | src/smurfing_hunter/core/suspicion_scorer.py:229-277 | an unknown wallet gives "not found" and changes nothing; otherwise scores are computed when none are stored, and the result is the wallet's assessment with its stored overall score |

## Left out

- CSV reading and date parsing are not modelled. Rows arrive as `Tx` values and column
  sets, and timestamps are integers. The column checks are modelled.
- Console output (`print`) is not modelled.
- The order of `nx.simple_cycles` is not modelled. The enumeration is an input sequence
  of cycles. What the library promises of each cycle is a precondition
  (`Cycles.LibraryCycles`): no wallet twice, and every hop, the closing one included, an
  edge of the graph. So the cycle amount never meets a missing edge.
  That one enumeration yields each cycle once is not stated. Its `NetworkXNoCycle` handler is not needed, because an empty enumeration
  already yields nothing.
- PageRank, betweenness and closeness are inputs, one value per node in node order
  (`Scoring.Measures`). So is the fallback to zeros when betweenness or closeness raise.
- `np.exp(-0.3 k)` is an input function. The lemmas assume only that it lies in (0, 1]
  and never increases.
- `scipy.stats.zscore` is an input function. It is assumed only to give one score per
  entry.
- `np.std(c) > 0` is modelled as "the column is not constant". That is exact in real
  arithmetic but not in floating point.
- `np.median` of the edge amounts is an input. The score functions use 1 when the graph
  has no edges.
- All arithmetic is exact (`real`). Floating-point rounding, NaN and infinity are not
  modelled.
- Python set and dict iteration order is modelled as graph-node insertion order. This
  applies to illicit wallets, candidate destinations and intermediaries. Successors are
  also listed in node order, whereas networkx lists them in edge-insertion order. This
  only matters when two successors tie for the largest peeling amount.
- `nx.shortest_path` among several shortest paths is not modelled. The model's
  breadth-first reconstruction picks one of them, and the length and walk properties
  hold for any choice.
- `get_neighbors` on an unknown wallet raises in networkx. Here the wallet being in the
  graph is a precondition of `GraphQueries.Neighbors`.
- `max_hops` of `detect_fanout_fanin_patterns` is unused in the source and is absent.
- The unused `wallet_times` of the layered matcher and its `datetime.min` are absent.
- `analyze_wallet_neighborhood` (both detector versions) is not modelled. Density and
  clustering are networkx computations. `get_subgraph_around_wallet`, which it calls, is
  modelled.
- `generate_risk_report` of the scorer is not modelled. It only formats text.
- Aliasing is not modelled. Detectors and the scorer hold a value snapshot of the graph
  and illicit set (`const` fields), while the source shares the mutable graph object.
  Changes made to the builder after a detector is created are therefore not seen.
- Paths.FindShortestPathToIllicit: ties between illicit wallets at the same distance go
  to the first in node order, not to Python's set order.
- Cycles.FindCyclic: the `StopIteration` handler is absent, because the enumeration is a
  finite sequence.
- Places where the repository's design description and the code differ. The model
  follows the code:
  - **Peeling, visited wallets.** A wallet already in a chain only stops a new chain from
    starting there. A later chain may still pass through it.
  - **Peeling, chain length.** A chain stops after reaching 21 wallets.
  - **Layered matcher.** It applies no temporal filter.
  - **Stored scores.** `calculate_all_scores` overwrites entries without clearing the
    stored scores first. Since the graph does not change, the keys are the same.
  - **Proximity comments.** The comments give distance 1 as 90 and distance 2 as 70. The
    code measures distance as the number of nodes on the path and scores
    `100·exp(-0.3·(d − 1))`, and the model follows the code.
