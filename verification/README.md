# Retrieval-Restored Continuation, verified

This project models the core of Retrieval-Restored Continuation (RRC) in Dafny and proves what
that core is built on. RRC rebuilds a model's context on every turn: it keeps a small window of
local messages, walks recorded provenance and scored dependency edges to find the earlier messages
the window rests on, closes tool calls with their results, and sheds whole groups until the wire
fits the token budget. Two pieces of the service share those invariants and are modelled with it:
the turn event machine that writes tool calls to the store, and the partitioned nearest-neighbour
index that proposes candidates.

`dafny verify dfyconfig.toml` checks everything.

## How it is laid out

- `Ids`, `Sorting`, `Messages`, `Keys`: id order, stable sorting, messages and blocks, and the
  NUL-separated text keys.
- `Dag`, `Provenance`, `ProvenanceReach`, `ProvenanceEdges`, `ProvenanceMass`, `ProvenanceKahn`,
  `ProvenanceCycles`, `ProvenanceWalk`, `ProvenanceOrder`, `ProvenanceAnchors`, `ProvenanceSums`: the
  edge store and the provenance mass walk. Phase 1 is a capped best-first search with lazy deletion; phase 2 finalizes masses in Kahn
  order and then, in id order, whatever cycles kept back. The reference semantics enumerates every
  trail into the anchors and adds up the products; `ProvenanceEdges` and `ProvenanceSums` say the
  results again of the recorded edges and their fields.
- `Detect`, `Gating`, `Selection`, `Reduction`: the rank statistics, the admission gate, the
  best-first selection and its reduction. The reference semantics is the set of chains from the
  prompt and the product each is worth.
- `Protocol`, `Closure`, `Components`, `Delivery`, `Wire`: the protocol index, tool-call closure,
  merged groups and the wire they are delivered on.
- `Gather`, `Shed`, `LocalContext`, `Assembly`: the two shed loops and the whole assembly.
- `Turn`, `TurnClosure`, `TurnStory`, `TurnRunner`: the turn event machine as step functions with
  their invariants, the closure of what it stores, what it stores told of the stream alone, and the
  imperative runner that refines the steps.
- `Hnsw`, `HnswGraph`, `Quant`, `Predicate`, `AnnIndex`: the layered graph, its search and
  insertion, quantization, the filter algebra and the partitioned index.
- `Split`, `Fingerprint`, `ScoreCache`, `Scoring`, `Mmr`: chunk splitting, the text a fingerprint
  hashes read back line by line, scoring through the cache it keys, and novelty reranking.

Conventions. Scores and weights are reals. Evidence is carried as a null probability p instead of
-log2(p) bits, so bits that add are probabilities that multiply, and the confidence of evidence is
1 - p. Heaps are sequences from which an extreme element is removed. The scorer, the oracle, token
counts, similarity, the fingerprint digest and log2 are function parameters. Where a write may fail
or a turn may be cancelled, the answer is a parameter, so a theorem quantifies over every outcome.

Where the code and its comments differ, the code is followed: the comment on `ApplyMMR`
(rrc/engine.go:248-250) says that the first pick has the highest original score, while the code
(rrc/engine.go:344-362) picks the first message by novel value against the query.

## Model

| member | source | states |
|---|---|---|
| `Dag.Dag.AddEdge` | rrc/dag.go:24-29 | both adjacency maps stay the two views of one edge log, each in recording order |
| `Dag.Dag.Prerequisites` | rrc/dag.go:32-34 | in a valid graph, exactly the recorded edges into the message, in order |
| `Dag.Dag.Dependents` | rrc/dag.go:37-39 | in a valid graph, exactly the recorded edges out of the message, in order |
| `Dag.DualAdjacency` | rrc/dag.go:24-39 | an edge is a prerequisite of its target exactly when it is a dependent of its source, and exactly when it was recorded |
| `Provenance.ContributorsOf` | rrc/provenance.go:231-244 | the loop lists exactly the in-scope provenance edges of a message as contributions, in order |
| `ProvenanceEdges.ContributionsAreEdges` | rrc/provenance.go:231-244 | a contribution occurs in an adjacency list exactly as often as a provenance edge from that message with that score, in any thread or with both ends in the cone |
| `ProvenanceReach.PopFirst` | rrc/provenance.go:189-203 | the removed entry precedes every other in bound order with ids breaking ties, and nothing else leaves the heap |
| `ProvenanceReach.PushAll` | rrc/provenance.go:256-264 | recorded bounds are raised to exactly the best offers, settled messages excepted, and the heap keeps an entry at every unsettled message's current bound |
| `ProvenanceReach.Crossing` | rrc/provenance.go:214-224 | any trail from outside the settled set passes a frontier message whose recorded bound it cannot beat |
| `ProvenanceReach.Reach` | rrc/provenance.go:205-285 | each kept message carries the maximum clamped product over all trails into the anchors, in non-increasing order; no trail of a dropped message beats a kept one; the cap is reported exactly when more messages are reachable than it allows; without truncation the kept set is the whole reachable set; every choice was forced |
| `ProvenanceReach.Overflow` | rrc/provenance.go:276-279 | hitting the cap means a further reachable message exists |
| `ProvenanceEdges.BestFirstIsStrongest` | rrc/provenance.go:205-285 | in terms of the recorded edges: kept messages are those from which some path of in-scope provenance edges leads into the window, all of them without truncation, each carrying the largest product of clamped scores along such a path |
| `ProvenanceMass.TrailsComplete` | rrc/provenance.go:287-296 | the reference enumeration lists exactly the trails through kept messages that stop at their first anchor |
| `ProvenanceMass.TrailsDistinct` | rrc/provenance.go:287-296 | the enumeration lists no trail twice, parallel edges being told apart |
| `ProvenanceMass.BalancedIsExact` | rrc/provenance.go:287-296 | on acyclic provenance the local equations force each mass to be the sum over all its trails of the product of the weights |
| `Ids.SortAscends` | rrc/provenance.go:307-309 | sorting ids yields the same ids in ascending order |
| `Ids.LessIsLexicographic` | rrc/provenance.go:189-194 | ascending means by the first differing character, or as a proper prefix |
| `ProvenanceKahn.Record` | rrc/provenance.go:301-327 | after recording, every message's outgoing list and pending count agree with the edges into kept messages and anchors |
| `ProvenanceKahn.Release` | rrc/provenance.go:343-354 | closing a finalized message's edges keeps every open count exact and frees exactly the messages whose last edge closed |
| `ProvenanceKahn.Finalize` | rrc/provenance.go:331-355 | a message's mass becomes the sum of what its edges carry, and the counters stay exact |
| `ProvenanceKahn.Drain` | rrc/provenance.go:356-369 | every mass the worklist assigns satisfies its equation on final values only; whatever it leaves over has an edge into another leftover; the loop terminates on any graph, cyclic or not |
| `ProvenanceKahn.FinishLeftovers` | rrc/provenance.go:370-374 | every kept message is finalized exactly once, masses already final are untouched, and each leftover gets, in id order, the sum of its edges into messages final before it |
| `ProvenanceKahn.NothingLeft` | rrc/provenance.go:362-374 | on acyclic provenance the drained worklist leaves nothing to the leftover loop |
| `ProvenanceKahn.AcyclicIsGrounded` | rrc/provenance.go:287-296 | on acyclic provenance phase 2 leaves every kept message with the mass its local equation demands |
| `ProvenanceCycles.DrainedExactly` | rrc/provenance.go:356-374 | on any graph the worklist finalizes exactly the kept messages from which no kept cycle can be reached |
| `ProvenanceCycles.AcyclicReachesNone` | rrc/provenance.go:294-296 | acyclic provenance has no cycle to reach, so there nothing is left out of the exact masses |
| `ProvenanceCycles.DrainedIsExact` | rrc/provenance.go:287-296 | with distinct anchors a message the worklist finalizes carries the sum over all its trails of the product of the weights, cycles elsewhere or not |
| `ProvenanceCycles.CycleIsInexact` | rrc/provenance.go:287-296 | where every kept message leads to an anchor, one that reaches a cycle has trails without end, so no value is its path sum |
| `ProvenanceWalk.MassWalk` | rrc/provenance.go:205-377 | the whole walk on any graph: best-first bounds; a mass for exactly the kept messages, each determined by the drained worklist and the leftovers in id order; for every kept message that reaches no cycle, exact path-sum mass when anchors are distinct, and mass at least the bound when weights are non-negative; said of the recorded edges, without truncation exactly the messages some path of in-scope provenance edges leads from into the window have a mass; no anchor among the masses; a thread for exactly the contributors of anchors and kept messages, given by one of their edges, and so for every message with a mass |
| `ProvenanceWalk.ExactOffCycles` | rrc/provenance.go:287-296 | in a walk with distinct anchors the mass of a kept message is its path sum exactly when the message reaches no cycle; one that reaches a cycle has no path sum at all |
| `ProvenanceWalk.MassAtLeastBound` | rrc/provenance.go:219-220 | with non-negative weights a kept message's mass is at least its best single trail |
| `ProvenanceWalk.MassOfEdges` | rrc/provenance.go:152-161 | the same promise over an arbitrary edge list |
| `ProvenanceOrder.ReachIsOrderFree` | rrc/provenance.go:219-224 | two walks over the same edges in any two recording orders keep the same messages in the same order with the same bounds |
| `ProvenanceOrder.WalkIsOrderFree` | rrc/provenance.go:291-294 | on any graph, cyclic or not, masses, kept messages, bounds and the truncation report do not depend on the order in which edges were recorded |
| `ProvenanceOrder.ReorderedStream` | rrc/provenance.go:152-161 | recording a permuted edge list yields the same contributions at every message |
| `ProvenanceOrder.PermutedEdges` | rrc/provenance.go:152-161 | so two graphs recorded from permuted edge lists give the same masses |
| `ProvenanceOrder.GenerationOrderIsAcyclic` | rrc/provenance.go:294-296 | edges that run from older to newer messages make the provenance acyclic |
| `ProvenanceAnchors.RepeatedAnchorsDecide` | rrc/provenance.go:308-341 | two walks whose anchor lists hold the same anchors, however often, keep the same messages on any graph, and give the same masses exactly when every kept message has the same direct weight into both lists, counted as often as listed |
| `ProvenanceAnchors.RepeatedAnchorsExact` | rrc/provenance.go:287-341 | with an anchor repeated, the masses of the messages that reach no cycle are all exact exactly when each of those messages has the same direct weight into the list as into its distinct anchors |
| `ProvenanceAnchors.MoreAnchorsMoreMass` | rrc/provenance.go:308-341 | with non-negative weights listing anchors more often never lowers a mass |
| `ProvenanceAnchors.RepeatedAnchorPropagates` | rrc/provenance.go:308-341 | a failing input: with v feeding u and u feeding the anchor, any walk that lists the anchor once gives v mass 1 and any walk that lists it twice gives v mass 2, although v has no direct weight into it |
| `ProvenanceSums.MassIsEdgeSum` | rrc/provenance.go:308-341 | with distinct anchors the mass of a kept message that reaches no cycle is the sum over the recorded in-scope provenance edges out of it of score times 1 into an anchor, times the target mass into a kept message, and nothing elsewhere |
| `ProvenanceSums.StraightMass` | rrc/provenance.go:308-341 | a message whose in-scope provenance edges all lead straight into distinct anchors has the sum of their scores as its mass |
| `Detect.NullP` | rrc/detect.go:45-53 | the loop returns the rank probability (k+1)/(R+1) of the references at or above the score |
| `Detect.BeatsAllExactly` | rrc/detect.go:45-75 | the beat-all bar is cleared exactly by scores above every reference, which then carry confidence R/(R+1) |
| `Detect.AtOrAboveCounts` | rrc/detect.go:45-53 | the rank counts the references at or above the score |
| `Gating.AdmittedClearsStance` | rrc/prerequisite_selection.go:290-321 | a candidate is admitted exactly when one channel detects it, and at any non-negative price its confidence clears the stance and is at least that of each detection |
| `Gating.BarInBits` | rrc/prerequisite_selection.go:290-306 | a channel detects exactly when its evidence in bits pays for the stance and the bits its tokens cost |
| `Gating.GateIsJoint` | rrc/prerequisite_selection.go:303-315 | confidence is one less the null probability of what was detected, and joint evidence multiplies null probabilities |
| `Gating.SemanticIsRank` | rrc/prerequisite_selection.go:297-300 | the semantic channel carries 1/(R+1) for a similarity above every reference and nothing otherwise |
| `Gating.UnreachedIsSemantic` | rrc/prerequisite_selection.go:294-313 | a message the walk did not reach is judged by its similarity alone |
| `Gating.ReachedIsJoint` | rrc/prerequisite_selection.go:294-313 | a reached one is judged by the rank of its mass as well, at the stance's bar times its charge |
| `Gating.RankMasses` | rrc/prerequisite_selection.go:274-289 | ranking the walked masses is a bijection onto 0 to n-1, heaviest first with ids breaking ties, and turns rank i into the null probability (i+1)/(n+1) |
| `Gating.RanksOrder` | rrc/prerequisite_selection.go:274-289 | a null probability is smaller exactly for a heavier message, or an equally heavy one of smaller id, and lies strictly inside (0, 1) |
| `Gating.GateAll` | rrc/prerequisite_selection.go:264-321 | the whole gated event: exactly the candidates that the rank of their similarity or the rank of their walked mass detects are admitted, at the joint confidence, and all clear the stance |
| `Gating.HeavierIsAdmitted` | rrc/prerequisite_selection.go:274-321 | at equal cost a message heavier than one its mass admits is admitted too |
| `Gating.BeatingAllAtSlack` | rrc/prerequisite_selection.go:262-313 | at slack, beating the whole sample is admitted exactly when the sample is large enough for the stance |
| `Gating.AdmittedIsSelected` | rrc/selection.go:104-125 | every admitted candidate is selected, at no less than its confidence |
| `Gating.RelationalIsBinary` | rrc/selection.go:63-73 | under a measured floor a relational score is R/(R+1) or 0, and non-zero exactly when it beats every reference |
| `Gating.ChainScoreDecided` | rrc/selection.go:162-166 | under a measured floor a chain of h hops is worth its entry verdict times (R/(R+1)) to the h-1 if every later hop beats the floor, and nothing otherwise |
| `Gating.SelectedScoreByDepth` | rrc/selection.go:144-186 | a selected entry at depth h scores its entry verdict times (R/(R+1)) to the h-1 exactly when that verdict is zero or every later hop beats the floor; a positive stance leaves no other case |
| `Gating.ZeroStanceSelectsNothingWorth` | rrc/selection.go:144-186 | a failing input at LossRatio 0: a hop below the floor is followed, and its message is selected at score 0 where the formula gives 4/5 |
| `Gating.FloorDamps` | rrc/selection.go:63-73 | under a measured floor no hop strengthens a chain, whatever units the scorer uses |
| `Gating.Select` | rrc/engine.go:200-223 | refuses a thread scope without a thread, and no other scope; otherwise the picks are forced whatever the scores, optimal under a measured floor or with readings of at most 1, made of scored edges inside the scope and overlooking none of them, and reduction changes nothing but the chains |
| `Selection.PopMax` | rrc/selection.go:268-290 | the removed entry scores at least every other and nothing else leaves the queue |
| `Selection.PicksFall` | rrc/selection.go:128-149 | when no accepted hop strengthens a chain, picks come in non-increasing order of score |
| `Selection.AcceptIsExpectedValue` | rrc/acceptance.go:3-28 | acceptance at the loss ratio of a gain and a harm is the expected value covering the price of the tokens |
| `Selection.PickIsForced` | rrc/selection.go:128-149 | popping an unvisited maximum at or above the stance extends the picks by one that is truthful, above the stance and the best on offer |
| `Selection.ChainIsPicked` | rrc/selection.go:85-186 | when no accepted hop strengthens a chain, every chain that clears the stance ends at a pick worth at least as much |
| `Selection.ForcedIsBest` | rrc/selection.go:85-186 | forced picks are then exactly the messages some chain connects at or above the stance, each with its best chain, in non-increasing order, and everything given up is hopeless |
| `Selection.RouteIsChain` | rrc/selection.go:98-166 | among probabilities accepting edge by edge loses nothing: a route that clears the stance is accepted at every hop |
| `Selection.AboveOneFails` | rrc/selection.go:63-73 | for any stance and any reading above 1 that it accepts there is a three-edge graph on which the picks miss the best chain |
| `Selection.ExtractSubgraph` | rrc/selection.go:85-186 | for any scores each pick is the best on offer when made and carries its chain as witness with length, score and raw evidence, and every message on offer is picked or given up at its best offer below the stance; every edge of a chain is a recorded scored edge in scope, nothing crosses threads unless all threads are in scope, and every such edge that clears the stance is followed; when no accepted hop after the first exceeds 1, selected are exactly the messages some in-scope chain connects to the prompt at or above the stance, each at its best chain, scores do not increase, and below-floor messages are hopeless and witnessed |
| `Selection.ForcedIsInScope` | rrc/selection.go:256-262 | in the fields of the edges: no provenance edge and none outside the thread on a selected chain under any scope but all threads, and none inside it overlooked |
| `Selection.ChainIsProduct` | rrc/selection.go:162-166 | a chain is worth the verdict of its first edge times the readings of the edges beyond |
| `Selection.EvidenceIsProduct` | rrc/selection.go:174-178 | raw evidence is the product of the observations along the chain, which without a measured floor are read as they are |
| `Reduction.Mark` | rrc/selection.go:213-228 | the recursive marking returns exactly what is reachable over the links |
| `Reduction.ReducesToLast` | rrc/selection.go:230-250 | along a chain whose messages are each linked to the chain so far, exactly the last edge survives |
| `Reduction.TransitiveReduction` | rrc/selection.go:190-253 | applied to a traversal's output it keeps ids, scores, depths and weights, and leaves each entry the one edge that ends in it |
| `Protocol.NewIndex` | rrc/protocol.go:29-54 | every call and result of the corpus is filed under its thread and call id, and a key is ambiguous exactly when two different messages claim it |
| `Keys.ProtocolKeyIsInjective` | rrc/protocol.go:126-128 | thread ids without NUL make text keys equal exactly when thread and call id are |
| `Keys.NulThreadCollides` | rrc/protocol.go:126-128 | every thread id with NUL shares its text keys with another thread |
| `Keys.ClosureTextIsInjective` | rrc/assembly.go:557-563 | without NUL in ids, closures share a text key exactly when they list the same messages |
| `Keys.NulIdCollides` | rrc/assembly.go:557-563 | every closure with NUL in some id shares its text key with another list of ids |
| `Closure.CloseGroup` | rrc/protocol.go:60-124 | success returns the root with messages it needs, one per id, thread by thread in order of position, every counterpart present at least by its id; that is exactly what the root needs, whole and closed, exactly when no two needed messages share an id; failure names a needed block whose counterpart is missing or ambiguous |
| `Closure.SharedIdIsLeftOut` | rrc/protocol.go:112-116 | a failing input: over the index of a corpus, a result that reuses the id of its call is left out of the group |
| `Closure.FailureIsForced` | rrc/protocol.go:74-105 | when something needed is broken, no closed set holds the root at all |
| `Closure.ClosureIsLeast` | rrc/protocol.go:60-124 | a closure lies inside every closed set that holds its root |
| `Components.LinkedIsSymmetric` | rrc/protocol.go:71-105 | over an index of the corpus, being an exact counterpart goes both ways |
| `Components.EqualOrDisjoint` | rrc/protocol.go:60-124 | two successful closures of indexed roots are the same sequence or share no message |
| `Components.ClosureIsProtocolClosed` | rrc/protocol.go:60-124 | every call in a closure has its result there and every result its call |
| `Delivery.MergeDeliveryGroups` | rrc/assembly.go:534-555 | for any groups the keyed in-place loop computes the declarative merge by key, no key twice, root ids sorted; it is the merge by closure exactly when keys name closures, which one message per id ensures |
| `Delivery.MergeIsExact` | rrc/assembly.go:534-555 | merging keeps each distinct closure exactly once and invents none |
| `Delivery.MergeCollects` | rrc/assembly.go:541-547 | a merged group holds every root of its closure, the best score, and the name of the first root that earned it |
| `Delivery.MergeWithout` | rrc/assembly.go:534-555 | dropping one closure before merging equals dropping its merged group after |
| `Wire.GroupsToWire` | rrc/assembly.go:411-440 | for any groups the wire holds the first message of each id not yet delivered; threads ascend and are contiguous, positions ascend inside a thread and ids at equal positions; it holds every undelivered message exactly when no two of them share an id |
| `Wire.SortedIsInOrder` | rrc/assembly.go:423-434 | on such a wire a result stands behind its call wherever positions say so |
| `Wire.WireTokens` | rrc/assembly.go:442-454 | the loop adds the fixed tokens and every message's cost |
| `Wire.WireCostIsAdditive` | rrc/assembly.go:442-454 | over disjoint groups the wire costs what the groups cost one by one |
| `Gather.GatherRound` | rrc/assembly.go:203-224 | one round holds exactly the closures of the selected messages neither dropped nor delivered whose messages are not delivered already, each with its roots and its best score, in order of the position of the naming root; it fails exactly when some live one cannot be closed, and names the message not fetched or the broken block one of them needs |
| `Gather.ShedRemovesGroup` | rrc/assembly.go:250-252 | dropping a group's roots removes exactly that group from the next round |
| `Gather.RoundIsApart` | rrc/assembly.go:203-224 | the groups of a round share no message |
| `Shed.LowestDensityGroup` | rrc/assembly.go:522-532 | picks the first group of least finite density, and none exactly when every density is infinite |
| `Shed.PriceIsMaximum` | rrc/assembly.go:245-249 | the realized price is zero or the largest shed density, whichever is more, and is attained |
| `Shed.DenserByScore` | rrc/assembly.go:194-200 | at equal cost the group of higher score is strictly denser |
| `Shed.DenserByCost` | rrc/assembly.go:194-200 | at equal score above the stance the costlier group is less dense |
| `Shed.DensityAtStance` | rrc/assembly.go:193-200 | a score at the stance has density zero, one above it a positive and one below it a negative density |
| `Shed.ShedToFit` | rrc/assembly.go:201-253 | a fit stays within the budget; delivered and shed groups partition the first round; every shed density is at most every delivered one, so no delivered group of the same cost scores less than a shed one and none of the same score costs more; only groups below score 1 are shed; the price is the maximum, positive exactly when a group above the stance was shed; putting the last shed group back would overrun; the shed fails exactly when a pick cannot be closed, which it names, or when the groups of certain score alone overrun the budget, and then reports what they need |
| `Shed.UncertainNeverOverruns` | rrc/assembly.go:238-244 | once local context fits and every score is below 1, the shed cannot fail on the budget |
| `LocalContext.PinnedLocalIDs` | rrc/assembly.go:461-481 | pinned are exactly the anchor and the latest semantic user and assistant messages |
| `LocalContext.OldestUnpinned` | rrc/assembly.go:500-507 | returns the first message that is not pinned, and none exactly when all are |
| `LocalContext.RemoveMessage` | rrc/assembly.go:509-517 | removes exactly the messages of that id and keeps the order |
| `LocalContext.RemovalAdvances` | rrc/assembly.go:68-75 | each removal moves the cut strictly forward: what remains is always the pinned prefix and a suffix of the window |
| `LocalContext.CloseRoots` | rrc/assembly.go:395-409 | the merged closures cover every root and nothing but closures of roots; failure names a broken block some root needs |
| `LocalContext.FitLocal` | rrc/assembly.go:53-76 | the fitted window is the original without its oldest unpinned messages, delivered whole and within budget, and the last message to leave left a window that did not fit; failing on the budget means only pinned messages were left and they demand that many tokens |
| `Assembly.LastSemantic` | rrc/assembly.go:487-498 | returns the last message of the turn in flight that says or thinks something, or nothing exactly when there is none |
| `Assembly.EffectiveIsShare` | rrc/assembly.go:35-38 | a headroom in (0, 1] shrinks the budget to that share of it, rounded toward zero, and any other leaves it alone |
| `Assembly.AddHistory` | rrc/assembly.go:141-256 | the delivered wire is closed, carries no id twice, puts history before local context, fits, and holds exactly what the shed loop promises for the selection against this window; a refusal names the pick that cannot be closed or the tokens the certain groups need, and occurs exactly then |
| `Assembly.Assemble` | rrc/assembly.go:20-286 | every successful wire is protocol-closed, carries no id twice, puts selected history before local context and each thread by thread in order of position, so that results stand behind their calls, always includes the anchor and the latest semantic user and assistant messages, and stays within the effective budget; the window gave up no more than the budget forced and the history no more than the shed loop; the two refusals occur exactly for an empty window and an anchor that is not the focus, the window fails only on a broken block it needs or on pinned messages that alone overrun, and the history exactly on a pick that cannot be closed or on certain groups that alone overrun |
| `Turn.TakePartKeeps` | service/agent/runner.go:702-813 | handling one part, whatever it holds and whichever writes fail, keeps calls and results paired, each once, and exactly the stored calls answered |
| `Turn.TakeEventsKeeps` | service/agent/runner.go:670-815 | after any prefix of any event stream, refused or not, stored calls are exactly the stored results, in order and without repeats |
| `Turn.FlushKeeps` | service/agent/runner.go:817-860 | the turn-end flush keeps the pairing at every step, with error placeholders exactly where no real result was stored |
| `Turn.FlushPairsEverything` | service/agent/runner.go:817-860 | when no flush write fails every accepted call ends stored with one result |
| `Turn.FinishKeeps` | service/agent/runner.go:865-889 | the closing message adds neither calls nor results |
| `Turn.CleanTurnPairsEverything` | service/agent/runner.go:620-900 | a turn that is not refused and whose flush writes succeed stores exactly the accepted calls, each with one result, an error exactly when no real result was stored |
| `TurnClosure.TakePartStamps` | service/agent/runner.go:361-366 | every step keeps stored and buffered messages at positions of their own |
| `TurnClosure.StampedIsUnique` | service/agent/runner.go:361-366 | the rows of a turn have one message per id and per position, which delivery relies on |
| `TurnClosure.TurnRowsClose` | rrc/protocol.go:60-112 | over paired rows of one thread nothing a row needs is broken, so closure cannot fail |
| `TurnClosure.EveryRunCloses` | service/agent/runner.go:638-815 | any event stream stopped anywhere leaves rows whose closure cannot fail |
| `TurnClosure.WholeTurnCloses` | service/agent/runner.go:620-900 | so does a whole turn, whatever the stream and whichever writes fail; its ids and positions are unique, every result has a later position than its call, and its error placeholders are honest |
| `TurnRunner.Runner.FlushThinking` | service/agent/runner.go:652-668 | accumulated thinking becomes one message, stored or lost, and the buffer empties |
| `TurnRunner.Runner.IndexPair` | service/agent/runner.go:333-351 | both rows are written or neither |
| `TurnRunner.Runner.AcceptCall` | service/agent/runner.go:703-743 | a new call is buffered behind the thinking that led to it |
| `TurnRunner.Runner.AcceptResponse` | service/agent/runner.go:745-792 | a response is stored exactly when it is neither cancelled nor a repeat, its call is buffered and the write succeeds; stored are then the buffered call and one result with its output that is no error, and otherwise nothing |
| `TurnRunner.Runner.AcceptPart` | service/agent/runner.go:702-813 | one part of an event updates the buffers and the store as the step function says |
| `TurnRunner.Runner.AcceptParts` | service/agent/runner.go:702-814 | the parts of an event are taken in order up to the first call without an id, and the pairing survives |
| `TurnRunner.Runner.Drain` | service/agent/runner.go:670-815 | the event loop refines the step functions and keeps the pairing after every event; it stops early exactly on a call without an id |
| `TurnRunner.Runner.FlushPending` | service/agent/runner.go:828-863 | the flush closes every buffered call it can, and reports failure exactly when some call stays buffered |
| `TurnStory.StreamFollows` | service/agent/runner.go:670-815 | a fresh turn is refused exactly when some part calls a tool without an id; otherwise, said of the parts alone, it has met, answered and buffered exactly the calls the stream made, each with the name and arguments of its first part, and its text is what the stream said |
| `TurnStory.TurnIsTold` | service/agent/runner.go:670-863 | the calls and results a fresh turn stores are exactly the exchanges of the stream, each answered call with the output of its first uncancelled answer whose write succeeded, followed by an error result for each other call whose closing write succeeds, which quotes the last error of the stream that is not a cancellation |
| `TurnStory.ThinkingIsTold` | service/agent/runner.go:652-668 | when no thinking flush fails, everything thought before a call is stored before it, and a turn that stores its closing message has stored every thought in order |
| `TurnRunner.Runner.ProcessEvents` | service/agent/runner.go:620-900 | the whole turn refines the specification from any paired state; it reports the empty id, the failed flush, the reply, the failed store, the stop, the agent error or the missing response exactly when that one applies; a fresh turn stores and reports what its stream says, and its reply carries, in order, all text that is neither thought nor attached to a call nor passed over |
| `Hnsw.SearchLayer` | service/annindex/hnsw.go:179-215 | the result is distinct, ascending and the nearest of everything evaluated; every neighbour of a returned node was evaluated; everything evaluated lies in every closed set around the entry; the counter is the number of nodes evaluated |
| `Hnsw.HammingCounts` | service/annindex/quant.go:47-53 | the distance starts at nothing and grows by one with each position that differs |
| `AnnIndex.DistanceCountsSigns` | service/annindex/quant.go:28-53 | two vectors are as far apart as components differ in sign |
| `Hnsw.ResultCount` | service/annindex/hnsw.go:200-214 | there are as many results as the beam holds or as were evaluated, whichever is less |
| `Hnsw.UnreturnedIsNoNearer` | service/annindex/hnsw.go:188-208 | an unreturned neighbour of a returned node exists only beside full results, all at least as near |
| `Hnsw.WholeComponent` | service/annindex/hnsw.go:179-215 | when the entry's component fits the beam, the result is exactly that component |
| `Hnsw.GreedyClosest` | service/annindex/hnsw.go:156-173 | the descent terminates at a node no neighbour of which is nearer, no farther than where it began |
| `Hnsw.SelectNeighbors` | service/annindex/hnsw.go:222-260 | from any candidates, repeated or not: a prefix in which none is nearer to an earlier choice than to the base and which leaves out only what it blocks, then the nearest of the rest in order; from distinct candidates the result is distinct, as many as asked for or as there are, the nearest of all first |
| `HnswGraph.LinkBack` | service/annindex/hnsw.go:112-117 | adding a back link keeps the graph well formed: the list grows by the new node, and only on overflow is it re-chosen among its members and the new node, to exactly the cap |
| `HnswGraph.LinkLayer` | service/annindex/hnsw.go:100-121 | the new node gets the neighbours chosen from a beam search that cannot find the node itself, at least one; the nearest hit seeds the next layer; other layers are left alone |
| `HnswGraph.UnlinkedIsNotFound` | service/annindex/hnsw.go:100-111 | a node nothing links to on a layer is not evaluated by a search there |
| `HnswGraph.Descend` | service/annindex/hnsw.go:92-96 | the descent through upper layers is index-safe and ends at a local minimum of the last layer walked |
| `HnswGraph.Graph.Insert` | service/annindex/hnsw.go:76-128 | every insert of a code as wide as the others keeps neighbour ids in range, distinct, never self and owning their layer, degrees within m or 2m, the entry as tall as the tallest, and every link mutual unless its target is full; the new node is linked on every layer it shares; codes and heights of other nodes never change |
| `HnswGraph.Graph.Search` | service/annindex/hnsw.go:134-150 | the hits are the first k of a base-layer beam search of width at least k, and none for an empty graph; it panics exactly for a negative k on a graph that is not empty |
| `Quant.QuantizeInt8` | service/annindex/quant.go:62-84 | the scale is a 127th of the largest magnitude, every code lies in [-127, 127] and reconstructs its component within half the scale |
| `Quant.ComponentIsCodedWell` | service/annindex/quant.go:73-82 | the clamps never act |
| `Quant.AsymmetricInt8Score` | service/annindex/quant.go:90-96 | the loop returns the dot product of query and code, scaled |
| `Quant.ScoreIsClose` | service/annindex/quant.go:86-96 | the score is within half the scale times the query's total magnitude of the true dot product |
| `Predicate.Compile` | rrc/predicate.go:156-215 | the compiled filter decides every candidate as evaluation does, for every nesting |
| `Predicate.FilterMeans` | rrc/predicate.go:107-150 | each leaf filter, said of the candidate: unset and all pass, unknown refuses, a thread, a scope, exclusions, metadata with `thread_id` read as the thread and a missing key as blank |
| `Predicate.ConnectivesMean` | rrc/predicate.go:107-150 | negation, conjunction and disjunction are those of logic; the empty conjunction passes everything, the empty disjunction nothing |
| `Predicate.PinIsSound` | rrc/predicate.go:217-250 | a predicate pinned to a thread matches nothing outside it |
| `AnnIndex.Index.Add` | service/annindex/index.go:83-115 | a present key or a wrong dimension changes nothing, the graphs included; otherwise the store gains the quantized vector while the global graph and the thread partition gain its sign code, in lockstep; it panics exactly when the new vector is not empty and the stored ones are |
| `AnnIndex.EmptyVectorFirst` | service/annindex/index.go:83-107 | a failing input: an index whose first vector is empty panics on the next one that is not |
| `AnnIndex.Index.Search` | service/annindex/index.go:125-149 | exactly the hits of a beam search over the graph of the searched population, whose codes are the sign codes of the stored vectors; at most n, no key twice, all of the searched thread, rightly scored, best first; it panics exactly on a wrong dimension, on stored empty vectors measured against another width, or on a negative n over a graph that is not empty |
| `AnnIndex.PartitionSuffices` | rrc/predicate.go:217-223 | a filter that passes only one thread selects the same from that thread's vectors as from all |
| `AnnIndex.RoutingIsExact` | rrc/predicate.go:217-229 | filtering the pinned thread's vectors equals filtering every vector |
| `AnnIndex.RoutedGraphSuffices` | service/annindex/index.go:125-136 | in a valid index a pinned query loses nothing by using its thread's graph, or no graph, instead of the global one |
| `Split.BreaksAreSpelt` | rrc/chunk/split.go:75-106 | each tier of breaks is the ending it spells: blank line, line, the six sentence endings, one blank or tab; no others |
| `Split.LastBreakIsLast` | rrc/chunk/split.go:86-105 | the tier search returns the end of the last break of that tier in the window, or nothing exactly when there is none |
| `Split.StrongestIsBoundary` | rrc/chunk/split.go:78-106 | the boundary ends the last break of the strongest tier present, or is the window's end when none is |
| `Split.BoundaryAdvances` | rrc/chunk/split.go:78-106 | sliding the window forward never moves the boundary back, although the winning tier may change |
| `Split.TrimKeeps` | rrc/chunk/split.go:47-56 | trimming drops nothing but leading and trailing spaces |
| `Split.Split` | rrc/chunk/split.go:10-71 | terminates with at most one chunk per character, each non-empty, trimmed and within the limit; indices count up, starts strictly advance, ends never go back; every character but white space is in some chunk; a chunk short of the end stops at the last break of the strongest tier in the second half of its window, and the next one starts the configured overlap before that end, past the start, unless the piece there is blank |
| `ScoreCache.SerializeLocalContext` | rrc/local_context.go:152-199 | chunks are numbered across the whole context and carry, in order, the pieces of every message of the turn that says something; every message is a member; there is a query exactly when some message of the turn says something |
| `ScoreCache.WriteKeepsConsistent` | rrc/score_cache.go:32-43 | writing a true score keeps the cache true of every context the engine meets, provided those that share a fingerprint score alike |
| `ScoreCache.SafeExactly` | rrc/score_cache.go:32-43 | true writes keep every consistent cache consistent exactly when the contexts met that share a fingerprint score alike, chunk by chunk |
| `ScoreCache.SharpContextsAgree` | rrc/local_context.go:182-190 | sharp contexts score alike as long as the digest does not collide on their texts |
| `ScoreCache.OneChunkFoolsTwo` | rrc/local_context.go:183-190 | a failing input for any digest: the true score of a chunk that holds the next header is read as a false score of the two chunks it looks like, whenever the scorer tells their texts apart |
| `Fingerprint.TextNamesContext` | rrc/local_context.go:183-190 | sharp contexts, in which no id holds a later line that starts a message or the first chunk and no chunk a later line that is the next header with something to follow, have equal hashed texts exactly when they are equal |
| `Fingerprint.DullCollides` | rrc/local_context.go:183-190 | every context that is not sharp has the hashed text of another one, which is sharp |
| `Fingerprint.ReadBack` | rrc/local_context.go:183-190 | every hashed text reads back as exactly one sharp context with the same text, and a context is sharp exactly when it is the one read back |
| `ScoreCache.MergeIsBest` | rrc/prerequisite_selection.go:138-144 | max-merging leaves each message the maximum of its earlier score and all its observations |
| `ScoreCache.MergeIgnoresOrder` | rrc/prerequisite_selection.go:138-144 | the merged maxima do not depend on the order of the observations |
| `Scoring.ScoreAll` | rrc/prerequisite_selection.go:94-136 | over contexts that score alike where they share a fingerprint, cached and fresh scores together are the true ones, and the cache stays consistent and keeps what it had |
| `Scoring.ScoreRetrieved` | rrc/prerequisite_selection.go:77-145 | best scores are a function of chunks and candidates alone: the same from any consistent cache |
| `Scoring.ScoreReached` | rrc/prerequisite_selection.go:382-420 | the same for messages reached by provenance, scored pair by pair |
| `Scoring.ReachedInAnyOrder` | rrc/prerequisite_selection.go:388-390 | the order of map iteration changes no best score |
| `Scoring.ReferenceFloor` | rrc/prerequisite_selection.go:429-478 | each reference's floor is its score over all chunks, whatever the cache held |
| `Scoring.FloorIsMaximum` | rrc/prerequisite_selection.go:440-476 | that floor is the maximum over the chunks and is attained |
| `Mmr.NovelFalls` | rrc/engine.go:302-328 | keeping one more message never makes another more novel |
| `Mmr.NovelIsShare` | rrc/engine.go:302-328 | redundancy is the largest similarity to a query vector or a kept vector, between 0 and 1 and attained, none for a message without a vector; the novel value is the original score less that share |
| `Mmr.MostNovel` | rrc/engine.go:364-373 | the scan returns the first message of greatest novel value |
| `Mmr.GreedyIsOrdered` | rrc/engine.go:364-378 | greedily picked messages have non-increasing rewritten scores |
| `Mmr.ApplyMMR` | rrc/engine.go:275-380 | the result is a permutation of the selection; without vectors or with at most one message nothing changes; otherwise each pick has the greatest novel value of all that remain, ties going to the higher original score and then to input order, carries it, and lies between 0 and its original score, exactly when there are query vectors or the message of highest original score carries that score itself, which distinct ids ensure |
| `Mmr.RepeatedIdKeepsItsScore` | rrc/engine.go:330-362 | a failing input: one id selected at 5 and then at 1, without query vectors, leads with a score that is not its original one |

## Left out

- Provider adapters, the HTTP client, sandboxing, attachments, settings, GraphQL, the web client and the Python evaluation: plumbing around the core.
- Forking and merging engines, loading edges, edge filters and admission callbacks: easy members beside the walk.
- The window builders `BuildActiveDiscourse` and `BuildLocalContext`, and the projection of a message to query text, which is a function parameter of `ScoreCache.SerializeLocalContext`.
- The price stored between turns and its readers; `Gating` takes the price's effect as the factor 2 to the minus price times tokens.
- The batch standard-deviation refusal, the flat-reference refusal and the ungated cold start of prerequisite selection: early exits before the gate.
- The nil scorer, which replaces scores by retrieval scores, and scorers whose answer for a pair depends on the batch or is shorter than the batch.
- Best tokens per candidate: under equal scores they depend on map iteration order.
- The excluded-message report of a selection (rrc/engine.go:224-244) beyond the below-floor map.
- Thinking-signature bytes: a part is only known to carry a signature or not.
- Timestamps, logging, telemetry, callbacks, the score persister and locking. Position minting is one atomic step.
- Floating-point rounding, 32-bit score storage, int32 ids and Unicode white space beyond the six ASCII characters.
- Database internals: a pair write is atomic, and the store returns whole turns; the protocol scope is given as the corpus it indexes.
- Heap layout and unstable sort order: a sequence with an extreme removed stands for a heap, and a stable sort for `sort.Slice`.
- The layer drawn for a new graph node is a parameter, and so are recall and running time claims.
- ProvenanceWalk.MassWalk: exact mass is for messages that reach no cycle, the others having no path sum; ProvenanceAnchors decides when repeated anchors keep it. Threads are noted after the walk and not in between, so where edges disagree about a thread the model does not say which of them wins.
- Selection.ExtractSubgraph: optimality needs a non-negative stance and readings of at most 1, which a measured floor ensures; AboveOneFails shows what larger raw readings do.
- Closure.CloseGroup: a nil root is not modelled.
- Delivery.MergeDeliveryGroups: closures are keyed by their list of thread and message ids; Keys relates that to the text key and says when the two differ.
- Shed.ShedToFit: the per-root memo of group costs is not modelled; the cost of a group is recomputed. The system message counts as fixed tokens and the per-message delimiter as part of a message's cost.
- Assembly.Assemble: the selection made between the two shed loops is a parameter, so are the messages and protocol scope fetched for it. Message ids are unique, and positions are unique inside a thread.
- Wire.GroupsToWire: the conversion of a message to provider format is not modelled; the wire is the sequence of messages.
- TurnRunner.Runner.ProcessEvents: tool arguments and outputs arrive as text, not as the values they are marshalled from.
- HnswGraph.Graph.Insert: the code must be as wide as the stored ones, since the distance loop runs out of range otherwise; AnnIndex.Index decides when that happens.
- AnnIndex.Index.Add: hash seeds of partitions are not modelled. After a panic the index is no longer promised to be valid.
- ScoreCache.WriteKeepsConsistent: the digest is a parameter, so that it does not collide on the texts met is a hypothesis of SharpContextsAgree.
- Scoring.ScoreRetrieved: retrieval itself is a parameter, one list of candidates per chunk.
- Mmr.ApplyMMR: original scores are non-negative. Cosine similarity is any function.
