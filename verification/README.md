# Verified model of the ONEX repository gates

The scripts under `scripts/` of this repository decide what may be merged: they order the mixin
migration, select test inputs by coverage, compare recorded with fresh outputs, hold a ratchet on
handler shapes, watch the CI run, and scan documents and sources for forbidden constructs. This
project models those decisions in Dafny and proves what they promise.

| module | models |
|---|---|
| `Digraph`, `CycleDetection`, `TopologicalSort`, `MixinGraph` | the mixin dependency graph: constraint edges, three-colour cycle search, Kahn's sort, the migration report |
| `Covering`, `AdequacyReceipt` | greedy coverage selection and the receipt it feeds |
| `JsonTree`, `JsonHeap`, `ComputeGolden` | dotted-path masking, in place and as a function, tree differences, the two output comparisons |
| `Ratchet`, `RatchetHistory`, `RepoPaths`, `RatchetScope`, `RatchetRuns` | the canonical handler-shape ratchet, whole histories, the change-scoped run, histories of mixed runs |
| `EquivalenceProducer`, `FlipBundle`, `FlipEvidence` | re-deriving equivalence artifacts, the joint gate over one flip, and its verdict told by files, git and handler runs alone |
| `CanonicalJson`, `Hypotheses` | the text of `json.dumps` with sorted keys, and an accepted flip that meets all hypotheses |
| `CiSummary` | the CI summary poller |
| `FencedBlocks`, `ShellLines`, `ShellDispatch` | fenced blocks, logical shell lines, and the dispatch rules over them |
| `TransportImports` | the visitor that looks for banned transport imports |
| `TestSelection`, `HookBits` | escalation and split sizing; hook bit masks |
| `Ordering`, `Text`, `Binary` | Python's order on strings, `sorted`, `strip`, numbers in decimal, powers of two and 64-bit floats |

Code that updates variables or objects is modelled by methods with loops and by classes; each is
proved against a specification that does not mention its counters, flags or buffers, and the laws
are lemmas about that specification. The outside world enters as parameters: measured arcs and
coverage percentages, parsed JSON, hashes, git answers, handler runs, the classifier of a node, the
rows of a workflow run, `shlex.split`, the pattern recognisers of a shell line, and the import
closure. Hypotheses on them are named predicates: `RoundTrips` and `ComparesValues` say that the
canonical JSON printers are injective, `Local` says that a node's classification depends on its own
files and on escalating files. `CanonicalJson` proves the printers injective down to the assumption
that `repr` gives every finite float a text of its own, and `Hypotheses` gives a bundle that the gate
accepts and that meets everything assumed of it. Floats in JSON are 64-bit floats with NaN, infinities
and negative zero.

`dafny verify dfyconfig.toml` checks the whole project.

## Where code and documentation differ

The model follows the code. Each difference below is a lemma.

- `select_covering` promises a minimal subset. It is not minimal (`NotMinimal`); what holds is the
  harmonic bound (`GreedyBound`), and minimality when every candidate that exercises an arc has one of
  its own (`MinimalWithOwnArcs`).
- `detect_cycles` promises a list of cycles. With a self-loop away from the root of the search, or an
  empty name on a cycle, a report need not be a cycle (`SelfLoopReport`, `EmptyNameCutsReport`). That
  the list is empty exactly for acyclic graphs needs no such condition.
- `compare_output` and `outputs_equivalent` differ on `True`, `1`, `1.0`, `0.0` and `-0.0`, which Python
  calls equal and JSON prints differently, and on NaN, which equals nothing and prints like itself
  (`Disagreement`, `NaNDisagrees`, with the exact conditions `AgreementExact` and `AgreementPairExact`).
- `diff_paths` promises dotted paths; a key with a dot in it prints like two nested keys
  (`DottedKeyCollides`).
- The scoped ratchet attributes a file below nested nodes to the outer node only (`NestedNodeMissed`,
  with the exact condition `AttributedIffPlaced`).
- A node deleted together with its baseline entry may return as canonical without proof
  (`ReturnsWithoutProof`, with the exact condition `ReturnedUnprovenIff`).
- The summary gate takes the last of several rows of one name and attempt, so a required validator
  that was skipped can be outvoted (`DuplicateRowRevives`). A row that completed badly outside the
  allowlist cannot: the failure is final exactly when there is one (`FailureFinalIff`). In the same way
  an in-progress row of a completed gate makes a success pending again (`SuccessReopensIff`,
  `SuccessLostOnlyToSecondRow`); with one row per name neither happens (`PollingSafe`).
- `extract_code_blocks` closes a block at a line with the identical fence even when an info word
  follows it (`InfoWordCloses`), unlike section 4.5 of CommonMark.
- The generated bash test works in 64 bits, the mask in unbounded integers (`BashAgreesIff`).

## Model

| member | source | states |
|---|---|---|
| `MixinGraph.BuildAdjacencyList` | scripts/mixin_dependency_graph.py:45-80 | fails exactly when some constraint is undeclared, and then names the first one in reading order; otherwise the dictionary encodes exactly the declared constraints, with duplicates |
| `MixinGraph.AddConstraints` | scripts/mixin_dependency_graph.py:64-74 | the loop over one mixin's constraints stops at the first undeclared one, or appends the mixin once per listed constraint |
| `MixinGraph.AddIsolated` | scripts/mixin_dependency_graph.py:76-80 | every declared name becomes a key and no successor list changes, for any iteration order of the set |
| `MixinGraph.DependentsElements` | scripts/mixin_dependency_graph.py:59-74 | the dependents of a name are exactly the mixins that list it |
| `MixinGraph.EncodedEdges` | scripts/mixin_dependency_graph.py:48-52 | edges of the built graph are exactly the must-precede pairs, and its nodes are the declared mixins |
| `MixinGraph.MigrationReport` | scripts/mixin_dependency_graph.py:237-280 | told by the constraints alone: an undeclared constraint ends the run and the first one is named; the cycles reported close every constraint cycle and each report is traced to the search; an order is reported only without cycles and then holds every mixin once, after all of its constraints |
| `MixinGraph.CompleteOrderRespects` | scripts/mixin_dependency_graph.py:240-270 | the cycle search and the sort, two independent algorithms, agree: on an acyclic graph the sort is complete and respects all constraints |
| `MixinGraph.CyclesAreContradictions` | scripts/mixin_dependency_graph.py:83-113 | the closed walks of the built graph are exactly the cycles of constraints, so the search finds a cycle if and only if the constraints contradict each other |
| `CycleDetection.DetectCycles` | scripts/mixin_dependency_graph.py:83-113 | the result is that of a reference search on paths and empty if and only if the graph has no directed cycle; every closed walk has an edge that closes a report, and an edge closes no report or one for each time it is listed; every report comes from a path of the search of some key; with no empty name on a cycle, all reports are simple cycles if and only if there is no self-loop |
| `CycleDetection.CycleDetector.Dfs` | scripts/mixin_dependency_graph.py:90-107 | a visit keeps the invariant that the grey nodes are exactly the parent chain of the current node, loses nothing recorded, finishes its node, and terminates by the set of unvisited nodes |
| `CycleDetection.CycleDetector.FollowAll` | scripts/mixin_dependency_graph.py:92-106 | after the loop over the successors each of them is finished or its edge closes a report, and state and reports are those of the reference search |
| `CycleDetection.CycleDetector.FollowNext` | scripts/mixin_dependency_graph.py:92-106 | one iteration of that loop extends the reference trace by exactly one edge |
| `CycleDetection.CycleDetector.Follow` | scripts/mixin_dependency_graph.py:93-106 | one edge: its target is finished afterwards or the edge closes a report, and state and reports change as the reference search on paths says |
| `CycleDetection.CycleDetector.Reconstruct` | scripts/mixin_dependency_graph.py:96-103 | the walk back through the parents yields the part of the search path after the nearest earlier target or empty name |
| `CycleDetection.CycleDetector.Discover` | scripts/mixin_dependency_graph.py:93-94 | a target without a colour becomes white, which changes nothing else the search knows |
| `CycleDetection.CycleDetector.Report` | scripts/mixin_dependency_graph.py:95-104 | a grey target is recorded as one more report, whose path starts at the key being searched |
| `CycleDetection.CycleDetector.Search` | scripts/mixin_dependency_graph.py:110-111 | the search of one key finishes it and loses nothing that was finished before |
| `CycleDetection.PathOfSearch` | scripts/mixin_dependency_graph.py:109-111 | no earlier key leads to any node of the current search path |
| `CycleDetection.CycleDetector.Enter` | scripts/mixin_dependency_graph.py:91 | turning a white node grey extends the path and takes exactly that node out of the unvisited ones |
| `CycleDetection.CycleDetector.Leave` | scripts/mixin_dependency_graph.py:107 | turning the last node of the path black keeps the invariant and records it as finished |
| `CycleDetection.CycleDetector.Run` | scripts/mixin_dependency_graph.py:109-113 | every key of the graph is finished |
| `CycleDetection.CycleDetector.RunKey` | scripts/mixin_dependency_graph.py:109-111 | one key: the keys up to it are done, and the reports are those of the reference search over them |
| `CycleDetection.WalkIsReported` | scripts/mixin_dependency_graph.py:92-104 | every closed walk has an edge that closes a report: the one from its node that finished first |
| `CycleDetection.ReportedOncePerListing` | scripts/mixin_dependency_graph.py:92-104 | an edge closes no report, or exactly as many as the times its target is listed |
| `CycleDetection.SearchReportIsReport` | scripts/mixin_dependency_graph.py:95-104 | what the reference search reports is a stretch of a path from some key, closed by an edge back to its start or to a key already met |
| `CycleDetection.ReportIsSimpleCycle` | scripts/mixin_dependency_graph.py:95-104 | without self-loops and empty names on cycles, a report is a simple directed cycle: consecutive elements are edges, the last has an edge to the first, nothing repeats |
| `CycleDetection.ReportsSimpleIffNoSelfLoop` | scripts/mixin_dependency_graph.py:95-104 | the exact condition: all reports are simple cycles if and only if no node has an edge to itself |
| `CycleDetection.SelfLoopReport` | scripts/mixin_dependency_graph.py:97-103 | on a concrete graph with a self-loop away from the root, whatever the search returns is not empty and each of its reports is a list that is no cycle |
| `CycleDetection.EmptyNameCutsReport` | scripts/mixin_dependency_graph.py:99 | on a concrete graph with an empty, hence falsy, name on a cycle, whatever the search returns is not empty and each of its reports is cut short to a list that is no cycle |
| `TopologicalSort.TopologicalOrder` | scripts/mixin_dependency_graph.py:116-140 | the queue loop with in-degree counts returns the Kahn order of the graph, also with repeated edges; nodes that become ready together leave in ascending order of code points; exactly the nodes behind a cycle are left out |
| `TopologicalSort.CountInDegrees` | scripts/mixin_dependency_graph.py:118-124 | the counters hold the number of incoming edges with multiplicity, and all nodes are collected |
| `TopologicalSort.Release` | scripts/mixin_dependency_graph.py:135-138 | after a node is output, the counters count the edges from the remaining nodes, and the new queue entries are, in sorted order, the neighbours waiting for nobody else |
| `TopologicalSort.KahnOmits` | scripts/mixin_dependency_graph.py:116-140 | the nodes left out are exactly those reachable from some cycle |
| `TopologicalSort.KahnCompleteIffAcyclic` | scripts/mixin_dependency_graph.py:116-140 | every node is output if and only if the graph has no directed cycle |
| `TopologicalSort.KahnOrderUnique` | scripts/mixin_dependency_graph.py:126-140 | the order depends only on the edge relation: neither on insertion order nor on repeated or reordered successors |
| `TopologicalSort.KahnTiesAscend` | scripts/mixin_dependency_graph.py:127-138 | of two nodes that become ready at the same step the one with the smaller name, compared character by character, comes first |
| `Ordering.LessIff` | scripts/mixin_dependency_graph.py:127-135 | a string is below another exactly when it is a proper prefix of it or has the smaller character where they first differ |
| `TopologicalSort.KahnStep` | scripts/mixin_dependency_graph.py:132-138 | one round of the queue loop keeps: no node twice, queue and output are exactly the ready nodes, predecessors first, leaving order by readiness and then name |
| `Covering.SelectCovering` | scripts/ci/adequacy_receipt.py:178-209 | picks are greedy until no candidate adds an arc, and the covered set is the union over the whole pool |
| `Covering.FindBest` | scripts/ci/adequacy_receipt.py:198-204 | the inner scan finds the least remaining index of largest positive gain, or none gains |
| `Covering.CoversEverything` | scripts/ci/adequacy_receipt.py:189-209 | a greedy selection covers what the whole pool covers |
| `Covering.PicksDistinct` | scripts/ci/adequacy_receipt.py:196-208 | no candidate is picked twice |
| `Covering.GainsNonIncreasing` | scripts/ci/adequacy_receipt.py:196-208 | gains are positive and never increase along the picks |
| `Covering.GreedyUnique` | scripts/ci/adequacy_receipt.py:184-188 | the selection is deterministic: two greedy selections from one pool are equal |
| `Covering.PickLowersPotential` | scripts/ci/adequacy_receipt.py:195-209 | each pick lowers the harmonic potential of any cover of the pool by at least one |
| `Covering.GreedyBound` | scripts/ci/adequacy_receipt.py:195-209 | the picks number at most the sum of the harmonic numbers of the set sizes of any cover, an optimal one included |
| `Covering.GreedyHarmonicBound` | scripts/ci/adequacy_receipt.py:195-209 | if k candidates cover everything and none of them has more than d arcs, there are at most k H(d) picks |
| `Covering.GreedyTotalBound` | scripts/ci/adequacy_receipt.py:195-209 | if k candidates cover the same n arcs as the pool, there are at most k H(n) picks |
| `Covering.MinimalWhenPicksOwn` | scripts/ci/adequacy_receipt.py:178-188 | when every pick has an arc no other candidate exercises, no cover is smaller than the selection |
| `Covering.MinimalWithOwnArcs` | scripts/ci/adequacy_receipt.py:178-188 | so it is when every candidate that exercises an arc has one of its own, shared entry arcs allowed |
| `Covering.MinimalWhenDisjoint` | scripts/ci/adequacy_receipt.py:178-188 | when no arc belongs to two candidates, no cover is smaller than the selection |
| `Covering.NotMinimal` | scripts/ci/adequacy_receipt.py:184 | the docstring's word minimal is false in general: a pool where three candidates are picked and two suffice |
| `AdequacyReceipt.BuildReceipt` | scripts/ci/adequacy_receipt.py:237-284 | a receipt is refused if and only if the target or the measured percentage is out of range or the target is met although no candidate exercises an arc; otherwise its fields are those of the selection and the arguments, and a missed target is waived with a zero count and the given reason or, if that is missing or empty, the text with both percentages |
| `AdequacyReceipt.RecordsBuilt` | scripts/ci/adequacy_receipt.py:276-284 | a receipt that records a greedy selection passes the receipt's own invariants in every case but an out-of-range number or a met target without picks |
| `AdequacyReceipt.ConstructIff` | scripts/ci/adequacy_receipt.py:87-127 | a receipt is constructed exactly when its counts fit its hashes, its verdict on the target is the derived one, and it has a waiver exactly when the target is missed |
| `AdequacyReceipt.RefusedIff` | scripts/ci/adequacy_receipt.py:87-127 | a refusal names the first violation, field bounds before cross-field checks |
| `AdequacyReceipt.NoPicksIffNoArcs` | scripts/ci/adequacy_receipt.py:196-206 | nothing is selected exactly when no candidate exercises an arc |
| `JsonTree.RemovePathExact` | scripts/ci/compute_golden.py:48-62 | removing a path removes exactly the locations whose dict keys, list indices dropped, start with it, and changes nothing seen elsewhere, list lengths included |
| `JsonTree.RemovePathsExact` | scripts/ci/compute_golden.py:35-45 | the same for a whole mask |
| `JsonTree.OrderIrrelevant` | scripts/ci/compute_golden.py:35-45 | masking depends only on the set of mask paths |
| `JsonTree.MaskAbsorbs` | scripts/ci/compute_golden.py:35-45 | masking under a larger mask can start from what a smaller one left |
| `JsonTree.MaskIdempotent` | scripts/ci/compute_golden.py:35-45 | masking twice is masking once |
| `JsonTree.Extensional` | scripts/ci/compute_golden.py:35-62 | two values that look the same at every location are equal, so the masking laws determine the result |
| `JsonTree.SplitDotsIff` | scripts/ci/compute_golden.py:44 | the segments of a mask path are the dot-free parts that joined with dots give the path back |
| `Text.SplitThenJoin` | scripts/ci/compute_golden.py:44 | a string is recovered from its parts |
| `Text.JoinThenSplit` | scripts/ci/compute_golden.py:44 | parts without the separator are recovered from the joined string |
| `JsonHeap.Node.RemovePath` | scripts/ci/compute_golden.py:48-62 | the in-place removal on shared-nothing nodes changes the value they stand for exactly as the functional removal does |
| `JsonHeap.Node.RemoveInItems` | scripts/ci/compute_golden.py:51-54 | the same in every item of a list |
| `JsonHeap.Node.RemoveInField` | scripts/ci/compute_golden.py:59-62 | the same below one key, all other keys untouched |
| `JsonHeap.RemoveBelow` | scripts/ci/compute_golden.py:59-62 | one entry of a dictionary changes in place while all others keep their value and their nodes |
| `JsonHeap.RemoveInItem` | scripts/ci/compute_golden.py:51-54 | one item of a list changes in place while all others keep their value and their nodes |
| `JsonHeap.Dump` | scripts/ci/compute_golden.py:42 | reading a live payload yields the value it stands for |
| `JsonHeap.DeepCopy` | scripts/ci/compute_golden.py:42 | the copy of a live payload stands for the same value and shares no node with anything that existed |
| `JsonHeap.ApplyMask` | scripts/ci/compute_golden.py:35-45 | no node of the live payload changes, and the copy, which shares none of them, shows nothing at masked locations and everything elsewhere |
| `ComputeGolden.DiffPaths` | scripts/ci/compute_golden.py:65-84 | the printed lines are those of the differences, in order of sorted keys and of indices, each with its dotted and bracketed path |
| `ComputeGolden.DiffDicts` | scripts/ci/compute_golden.py:68-76 | the branch for two dicts prints what lies under the keys of either, in sorted order |
| `ComputeGolden.DiffLists` | scripts/ci/compute_golden.py:77-81 | the branch for two lists prints a changed length, then what lies under the indices both have |
| `ComputeGolden.DottedKeyCollides` | scripts/ci/compute_golden.py:70 | the printed path does not determine the place: a key with a dot in it prints like two nested keys |
| `ComputeGolden.NoDiffsIffPyEqual` | scripts/ci/compute_golden.py:65-84 | no difference is reported exactly when the trees are equal in Python's sense, in which NaN does not equal itself |
| `ComputeGolden.DiffsExact` | scripts/ci/compute_golden.py:65-84 | a difference is reported exactly when it is one: a key on one side, a changed length, or unequal values that are not two dicts or two lists, at a location both trees have |
| `ComputeGolden.CompareOutput` | scripts/ci/compute_golden.py:104-112 | the lines are those of the differences left by the recorded mask, and there are none exactly when the outputs agree, in Python's sense, at every location outside it; a golden without a mask masks nothing |
| `ComputeGolden.RecordAndCompare` | scripts/ci/compute_golden.py:87-112 | recording an output with a mask and comparing a later one finds nothing exactly when the two agree at every location outside that mask, or everywhere if no mask was given |
| `ComputeGolden.MaskedEqualIff` | scripts/ci/compute_golden.py:104-112 | equality after masking is agreement at every location the mask does not hide |
| `ComputeGolden.PyEqualIff` | scripts/ci/compute_golden.py:65-84 | equality in Python's sense is agreement at every location: same kind of container, same keys or length, equal leaves |
| `ComputeGolden.EquivalentIff` | scripts/ci/compute_golden.py:115-121 | two outputs are equivalent exactly when they show the same at every location outside the mask |
| `ComputeGolden.DiffAtIndex` | scripts/ci/compute_golden.py:79-81 | one round of the loop over two lists prints the differences below one index |
| `ComputeGolden.EnlargingMaskMerges` | scripts/ci/compute_golden.py:115-121 | outputs equivalent under a mask stay equivalent under a larger one |
| `ComputeGolden.EnlargingMaskKeepsEmpty` | scripts/ci/compute_golden.py:104-112 | a comparison that finds nothing under a mask finds nothing under a larger one, whatever the printer |
| `ComputeGolden.PyEqualRemoved` | scripts/ci/compute_golden.py:48-62 | removing a path keeps two trees equal in Python's sense |
| `ComputeGolden.AgreementExact` | scripts/ci/compute_golden.py:104-121 | the two comparisons agree on every fresh output if and only if the masked golden has no boolean, no integer that some 64-bit float equals, no whole-number float, no negative zero and no NaN |
| `ComputeGolden.AgreementPairExact` | scripts/ci/compute_golden.py:104-121 | for one pair they agree unless the masked outputs are equal to Python without being the same value, or are the same value with a NaN in it |
| `ComputeGolden.NaNDisagrees` | scripts/ci/compute_golden.py:82 | a golden with a NaN is found to differ from itself and prints like itself |
| `ComputeGolden.BigIntegerAgrees` | scripts/ci/compute_golden.py:104-121 | a golden 2^53 + 1, which no float equals, separates the comparisons from no output |
| `ComputeGolden.AgreementSameTypes` | scripts/ci/compute_golden.py:104-121 | without NaN they agree whenever number leaves present on both sides have the same type and the same sign of zero |
| `ComputeGolden.Disagreement` | scripts/ci/compute_golden.py:82 | a golden 1 against a fresh true: no difference found, yet not equivalent |
| `ComputeGolden.TwinStaysMasked` | scripts/ci/compute_golden.py:35-45 | rewriting the leaves of a masked value leaves nothing for the mask to remove |
| `Ratchet.Evaluate` | scripts/ci/canonical_handler_shape.py:1008-1072 | the loops and set differences compute the verdict: new debt, claimed flips split by their proof, known debt, baseline growth, each in sorted order |
| `Ratchet.Adjudicate` | scripts/ci/canonical_handler_shape.py:1035-1066 | one adjudication loop sorts each id with a finding by whether its proof verifies |
| `Ratchet.ClaimsJudged` | scripts/ci/canonical_handler_shape.py:1035-1066 | the two loops together judge exactly the claimed flips |
| `Ratchet.PassesIff` | scripts/ci/canonical_handler_shape.py:1002-1005 | the gate passes if and only if all debt is in the baseline, every claimed flip is proven, and the baseline has not grown |
| `Ratchet.ByIdIff` | scripts/ci/canonical_handler_shape.py:1029-1033 | a node is looked up as its last finding, and not found exactly when it has none |
| `RatchetHistory.BaselineShrinks` | scripts/ci/canonical_handler_shape.py:1039-1066 | along a history of accepted full-scan steps the baseline never grows |
| `RatchetHistory.DebtInsideEarlierBaselines` | scripts/ci/canonical_handler_shape.py:1027-1031 | the non-canonical nodes stay inside every earlier baseline, the initial one included |
| `RatchetHistory.NoRegression` | scripts/ci/canonical_handler_shape.py:1027-1031 | a node that has left the baseline is never non-canonical again |
| `RatchetHistory.FlipNeedsProof` | scripts/ci/canonical_handler_shape.py:1035-1065 | a baselined node that is canonical after an accepted step had its flip verified at that step |
| `RatchetHistory.DropVerifiedIffPresent` | scripts/ci/canonical_handler_shape.py:1044-1065 | the step that drops a baseline entry verified the flip if and only if the node is present there |
| `RatchetHistory.FlippedOrDroppedAbsent` | scripts/ci/canonical_handler_shape.py:1008-1072 | a baselined node that is canonical later was flipped with proof on the way, or its entry was dropped while it was absent |
| `RatchetHistory.CanonicalOnlyByProof` | scripts/ci/canonical_handler_shape.py:1008-1072 | a baselined node, present at the step that dropped its entry if one did, is canonical later only after a step that verified its flip |
| `RatchetHistory.TurnsCanonicalByProof` | scripts/ci/canonical_handler_shape.py:1008-1072 | a node present throughout turns from non-canonical to canonical only at a step that verified its flip |
| `RatchetHistory.ReturnedUnprovenIff` | scripts/ci/canonical_handler_shape.py:1047-1056 | the exact condition: a baselined node is canonical later with no proven flip if and only if its entry was dropped at a step where it was absent and no step before that one found it canonical, which the snapshots alone show |
| `RatchetHistory.ProvenFlip` | scripts/ci/canonical_handler_shape.py:1047-1065 | an accepted history with an honest flip, so the statements about flips are not empty |
| `RatchetHistory.ReturnsWithoutProof` | scripts/ci/canonical_handler_shape.py:1050-1056 | a three-step history in which that happens |
| `RatchetHistory.BaseClosesTheHole` | scripts/ci/canonical_handler_shape.py:1014-1024 | exactly what the git base adds to the verdict: growth, and unproven removals of canonical nodes |
| `RepoPaths.TouchedNodeIds` | scripts/ci/canonical_handler_shape.py:1194-1206 | the loop collects the ids of the node packages that own a changed path |
| `RepoPaths.TouchedIff` | scripts/ci/canonical_handler_shape.py:1194-1206 | a path is attributed to an id exactly when it lies below a directory named node_ right after its first nodes directory, and the id is that directory dotted |
| `RepoPaths.OwnedIsTouched` | scripts/ci/canonical_handler_shape.py:1197-1205 | any file of a node placed directly under a nodes directory is attributed to that node |
| `RepoPaths.AttributedIffPlaced` | scripts/ci/canonical_handler_shape.py:1194-1206 | the files of a directory are all attributed to it if and only if it is a node directory placed directly in the first nodes directory of its path |
| `RepoPaths.NestedNodeMissed` | scripts/ci/canonical_handler_shape.py:1200-1205 | a node nested below another one is attributed to the outer one |
| `RatchetScope.EscalationReason` | scripts/ci/canonical_handler_shape.py:1209-1227 | a reason is returned exactly when some changed file is a gate file, a receipt, a source of a resolution module or a source of a shared module, and it is what the first such file forces |
| `RatchetScope.EscalationIff` | scripts/ci/canonical_handler_shape.py:1209-1227 | a file escalates for a reason exactly when its path is of the form that forces it: the two gate files and the receipts first, then the resolution modules by prefix, then the shared modules by first component |
| `RatchetScope.TriggersIff` | scripts/ci/canonical_handler_shape.py:1209-1227 | a file of none of these forms forces nothing |
| `RatchetScope.NodeDirsIff` | scripts/ci/canonical_handler_shape.py:466-468 | a full scan looks at exactly the directories with a contract below the package and below a nodes directory |
| `RatchetScope.ScannedIff` | scripts/ci/canonical_handler_shape.py:1374-1405 | a run looks at every node directory when it is asked to, when the baseline was edited, when there is no diff or when a changed file forces it, and otherwise at exactly the directories that have a contract and hold a change |
| `RatchetScope.BrokenIff` | scripts/ci/canonical_handler_shape.py:1008-1072 | the verdict fails exactly when a scanned node is new debt or an unproven flip, or the baseline has grown, told by the classifications alone |
| `RatchetScope.ClassifyAll` | scripts/ci/canonical_handler_shape.py:466-468 | a full scan has one classification per node directory in the glob, sorted by node id, and nothing else |
| `RatchetScope.ClassifyNodeIds` | scripts/ci/canonical_handler_shape.py:1230-1237 | a scoped scan has one classification per touched id whose directory has a contract, in sorted order of the ids |
| `RatchetScope.UntouchedSame` | scripts/ci/canonical_handler_shape.py:1194-1237 | a node none of whose files changed existed before and has the same classification and proof |
| `RatchetScope.SameOffenders` | scripts/ci/canonical_handler_shape.py:1387-1420 | node by node, the scoped scan finds the offenders of the full scan |
| `RatchetScope.IncrementalEqualsFull` | scripts/ci/canonical_handler_shape.py:1387-1420 | when the base passed a full scan, the baseline is unchanged and nothing escalates, the scoped scan fails if and only if the full scan fails, with the same offending sets |
| `RatchetRuns.EveryCommitPassesFull` | scripts/ci/canonical_handler_shape.py:1387-1420 | over a whole run of commits, each let through by a full run of the gate or a change-scoped one with a complete change list and contracts in place, every commit also passes a full scan against the previous baseline |
| `RatchetRuns.RunIsHistory` | scripts/ci/canonical_handler_shape.py:1387-1420 | such a run is a history of full scans, so all laws of histories hold of the gate as it runs |
| `RatchetRuns.GateHoldsTheLine` | scripts/ci/canonical_handler_shape.py:1387-1420 | whatever was scanned at each commit, the baseline never grows and a node outside it is canonical from then on |
| `RatchetRuns.GateDemandsProof` | scripts/ci/canonical_handler_shape.py:1387-1420 | whatever was scanned at each commit, a node that stays becomes canonical only at a commit on which its flip receipt verifies |
| `RatchetRuns.RunOn` | scripts/ci/canonical_handler_shape.py:1373-1420 | exit code 0 of the gate's run is the acceptance that the runs are made of |
| `RatchetScope.RunGate` | scripts/ci/canonical_handler_shape.py:1374-1420 | the exit code is the verdict's on exactly the directories to be looked at: 1 when one of them is new debt or an unproven flip or the baseline has grown, 0 otherwise |
| `EquivalenceProducer.HashInputs` | scripts/ci/equivalence_producer.py:313-328 | the first loop succeeds exactly when every declared input is a readable JSON file, and hashes the real bytes in order |
| `EquivalenceProducer.Replay` | scripts/ci/equivalence_producer.py:361-389 | the replay loop passes exactly when every input matches, collects the diverging inputs in order, and gives up at the first input that cannot be replayed |
| `EquivalenceProducer.Produce` | scripts/ci/equivalence_producer.py:266-404 | the artifact exists exactly for an admissible, fully replayable declaration, and both verdict fields are derived by the rerun |
| `EquivalenceProducer.ReadDeclarationIff` | scripts/ci/equivalence_producer.py:244-263 | a declaration is read exactly when the artifact declares it: the required keys and no others, each field under its own key, of its own kind |
| `EquivalenceProducer.ReplayInputIff` | scripts/ci/equivalence_producer.py:361-379 | a replay yields two outputs exactly when the file is read, parsed and validated, the HEAD handler returns the first and the legacy handler, at the declared commit, the second |
| `EquivalenceProducer.MatchesIff` | scripts/ci/equivalence_producer.py:361-389 | an input matches exactly when both handlers return and their outputs show the same at every location outside the mask |
| `EquivalenceProducer.ReplayableIff` | scripts/ci/equivalence_producer.py:266-360 | the committed artifact can be replayed exactly when it names node and schema, declares a legacy commit that precedes the base, all symbols resolve, and every input is readable and runs on both sides |
| `EquivalenceProducer.ProducedIff` | scripts/ci/equivalence_producer.py:266-404 | the rerun yields an artifact exactly when the committed one is replayable, with the hashes of the real files and pass or fail as the two handlers behave |
| `EquivalenceProducer.ByteCompare` | scripts/ci/equivalence_producer.py:407-448 | the comparison holds exactly when the committed bytes are what the rerun encodes to |
| `EquivalenceProducer.ReproducedIsDerived` | scripts/ci/equivalence_producer.py:407-448 | in a reproduced artifact the hashes and the status are the derived ones |
| `EquivalenceProducer.DerivedIsReproduced` | scripts/ci/equivalence_producer.py:407-448 | conversely, an artifact that holds what the rerun derives is reproduced |
| `EquivalenceProducer.PassIsTrue` | scripts/ci/equivalence_producer.py:313-430 | a reproduced artifact that says pass is true: its hashes are those of the real input files, and on every declared input the validated request, run by the HEAD handler and by the legacy handler at its commit, gives outputs that show the same outside the mask |
| `FlipBundle.RatchetModule.RunAssertions` | scripts/ci/verify_flip_bundle.py:560-685 | the six assertions run in order, the first failure wins, and the recorded outcomes are those before it |
| `FlipBundle.RatchetModule.VerifyFlipBundle` | scripts/ci/verify_flip_bundle.py:523-557 | the module's globals are as before whether the call returns or raises, and the outcome is that of the requested scope, whose five parts are stated one by one |
| `FlipBundle.RatchetModule.ApplyScope` | scripts/ci/verify_flip_bundle.py:159-179 | the five globals become what the caller gives and otherwise what is in effect, save that another package than omnibase_core gets a baseline and receipts of its own |
| `FlipBundle.AcceptedIff` | scripts/ci/verify_flip_bundle.py:560-685 | a bundle is accepted exactly when the baseline loads and no assertion fails |
| `FlipBundle.DerivedHashes` | scripts/ci/canonical_handler_shape.py:951-982 | the hash list the gate compares is the set of hashes of the declared inputs' real bytes |
| `FlipBundle.FlipSound` | scripts/ci/verify_flip_bundle.py:560-685 | end to end: an accepted, not grandfathered replay flip has a HEAD and a legacy handler that behave the same on every declared input, exactly the inputs the receipt certifies, a legacy side that precedes the base, and a receipt meeting its invariants |
| `FlipEvidence.OutcomeIsVerdict` | scripts/ci/verify_flip_bundle.py:560-685 | the outcome of the gate is the verdict on seven statements about the files: mapping contract, typed receipt, certifying receipt with a proof over the same hashes, canonical bindings, shrunk baselines, module hashed after formatting, replay proof that reruns; the first that fails is named with those before it recorded as holding |
| `FlipEvidence.AcceptedFlipIsSound` | scripts/ci/verify_flip_bundle.py:560-685 | an accepted flip with a replay proof that is not exempt: the receipt certifies exactly the hashes of the declared input files, and the two handlers behave the same on all of them |
| `FlipEvidence.GateIff` | scripts/ci/canonical_handler_shape.py:951-982 | the receipt gate holds exactly when a certifying receipt and a replay or hand-flip proof list the same hashes |
| `FlipEvidence.AdequacyIff` | scripts/ci/canonical_handler_shape.py:748-793 | a receipt certifies exactly when it names node and schema, its percentage reaches its target or it is waived with a reason, and the recorded hash is that of the live module |
| `FlipEvidence.RerunsIff` | scripts/ci/verify_flip_bundle.py:483-521 | the last assertion holds exactly when there is no replay proof, or it is exempt, or it is byte for byte what the rerun yields |
| `Binary.BelowIff` | scripts/ci/canonical_handler_shape.py:772-783 | one float is below another exactly when a real number separates them; NaN is below nothing |
| `CanonicalJson.TextInjective` | scripts/ci/compute_golden.py:30-32 | the text that `json.dumps` with sorted keys prints for a value, at any depth and with or without indentation and ASCII escapes, determines the value and where its text ends |
| `CanonicalJson.PrintersInjective` | scripts/ci/equivalence_producer.py:89-98 | the one-line, the ASCII and the indented printer each tell all values apart, given that `repr` tells floats apart |
| `CanonicalJson.QuotedInjective` | scripts/ci/compute_golden.py:32 | a printed string, with short and Unicode escapes and surrogate pairs, determines the string and where it ends |
| `CanonicalJson.QuotedSpells` | scripts/ci/compute_golden.py:32 | a printed string is a JSON string, escapes read as section 7 of RFC 8259 says, that stands for the original |
| `Text.IntTextShows` | scripts/ci/compute_golden.py:32 | an integer is printed in decimal without leading zeros, with a sign when negative |
| `CanonicalJson.EscapeShows` | scripts/ci/compute_golden.py:32 | an escape stands for its character, is as short as JSON has one, and plain characters, ASCII only when asked for, have none |
| `CanonicalJson.WordShows` | scripts/ci/compute_golden.py:32 | what is printed for null, booleans, integers, negative zero, infinities and NaN |
| `CanonicalJson.WordInjective` | scripts/ci/compute_golden.py:32 | null, booleans, integers, floats, infinities and NaN all print differently |
| `Hypotheses.CanonicalInjective` | scripts/ci/compute_golden.py:30-32 | the hypothesis of the comparison theorems holds of `_canonical` |
| `Hypotheses.SomeReprIsRepr` | scripts/ci/compute_golden.py:32 | the assumption on the texts of floats can be met |
| `Hypotheses.FlipSoundApplies` | scripts/ci/verify_flip_bundle.py:560-685 | for every scope, base and node that is not grandfathered there is an accepted replay flip in a world that meets all hypotheses of the soundness theorem |
| `CiSummary.JobStates` | scripts/ci/ci_summary_gate.py:147-199 | the authoritative rows: named, of the given attempt, or of the latest attempt per name |
| `CiSummary.KeepLatest` | scripts/ci/ci_summary_gate.py:185-199 | the two passes keep the rows of the largest attempt per name |
| `CiSummary.ObservedIsLatest` | scripts/ci/ci_summary_gate.py:170-199 | without a given attempt a row counts exactly when no row of its name has a later attempt; negative attempts never count |
| `CiSummary.ObservedMember` | scripts/ci/ci_summary_gate.py:147-199 | a row is authoritative exactly when it is that of a named job of the given attempt or, when none is given, of the latest attempt of its name |
| `CiSummary.LatestMember` | scripts/ci/ci_summary_gate.py:202-217 | the row that stands for a name is that of its last job that counts |
| `CiSummary.DedupLatest` | scripts/ci/ci_summary_gate.py:202-217 | the dictionary holds the last authoritative row of each name |
| `CiSummary.OtherAttemptsIgnored` | scripts/ci/ci_summary_gate.py:170-184 | a row of another attempt changes nothing, wherever it stands |
| `CiSummary.Evaluate` | scripts/ci/ci_summary_gate.py:220-304 | told by the jobs alone: failure when a job that counts completed badly outside the allowlist or a required validator completed without strict success, pending when a required name waits, success otherwise; and the lists reported, each with exactly its members in order |
| `CiSummary.VerdictIff` | scripts/ci/ci_summary_gate.py:220-304 | the verdict on the authoritative rows is the one told by the jobs |
| `CiSummary.PollingSafe` | scripts/ci/ci_summary_gate.py:220-304 | along the polls of one attempt failure is absorbing and success never returns to pending |
| `CiSummary.SuccessLostOnlyToLateRow` | scripts/ci/ci_summary_gate.py:240-304 | success becomes failure later exactly when a row that was not there or not completed completes badly |
| `CiSummary.SuccessMeans` | scripts/ci/ci_summary_gate.py:220-304 | success holds exactly when all swept rows are good, all gates completed and all required validators strictly succeeded |
| `CiSummary.SuccessGatesGood` | scripts/ci/ci_summary_gate.py:240-304 | success certifies each gate outside the allowlist as completed with a good conclusion |
| `CiSummary.DefaultSuccess` | scripts/ci/ci_summary_gate.py:220-304 | with the configured names success certifies all gates |
| `CiSummary.FailureFinalIff` | scripts/ci/ci_summary_gate.py:231-283 | with any number of rows per name, a failure is final whatever rows come later if and only if some row is swept: completed badly outside the allowlist |
| `CiSummary.SuccessReopensIff` | scripts/ci/ci_summary_gate.py:257-304 | with any number of rows per name, a success can turn pending if and only if some gate or validator is required at all |
| `CiSummary.RestartReopens` | scripts/ci/ci_summary_gate.py:202-217 | an in-progress row of a required name makes a success pending |
| `CiSummary.SuccessLostOnlyToSecondRow` | scripts/ci/ci_summary_gate.py:202-304 | a success that turned pending has a required name with a completed row from before and an unfinished one |
| `CiSummary.DuplicateRowRevives` | scripts/ci/ci_summary_gate.py:202-217 | two rows of one name: a skipped validator is outvoted by a later success |
| `FencedBlocks.ScanBody` | scripts/validate_deterministic_skill_routing.py:167-174 | the inner loop collects the lines up to the first closing line with the identical fence, or to the end |
| `FencedBlocks.Scan` | scripts/validate_deterministic_skill_routing.py:156-184 | the two index loops find the segmentation into blocks, whatever the fence pattern |
| `FencedBlocks.ExtractCodeBlocks` | scripts/validate_deterministic_skill_routing.py:150-184 | the blocks are exactly those of the document's segmentation, and each is told by its lines: the opening line's number and lower-cased word, and the body lines joined with line breaks |
| `FencedBlocks.SegmentationUnique` | scripts/validate_deterministic_skill_routing.py:156-184 | a document has one segmentation |
| `FencedBlocks.ExtentsDisjoint` | scripts/validate_deterministic_skill_routing.py:182-183 | blocks occupy disjoint, increasing line ranges |
| `FencedBlocks.EveryFenceInABlock` | scripts/validate_deterministic_skill_routing.py:156-183 | no fence line lies outside the blocks |
| `FencedBlocks.FenceParsesBack` | scripts/validate_deterministic_skill_routing.py:147 | a printed fence line is read back as its run and its word |
| `FencedBlocks.MatchFenceIff` | scripts/validate_deterministic_skill_routing.py:147 | the pattern matches exactly the lines of three or more backticks and tildes, spaces, an info word and spaces, and reads off run and word |
| `FencedBlocks.JoinLinesIs` | scripts/validate_deterministic_skill_routing.py:176-181 | the body text is the lines with a line break between two of them |
| `FencedBlocks.PieceExtends` | scripts/validate_deterministic_skill_routing.py:150-184 | appending a printed piece extends a segmentation by exactly that piece's block |
| `FencedBlocks.ParseInvertsPrint` | scripts/validate_deterministic_skill_routing.py:150-184 | any segmentation of a printed document has the blocks that were written, at the lines they were written on |
| `FencedBlocks.ExtractPrinted` | scripts/validate_deterministic_skill_routing.py:150-184 | parsing inverts printing; with lower-case languages the blocks come back exactly as their author wrote them |
| `FencedBlocks.InfoWordCloses` | scripts/validate_deterministic_skill_routing.py:169-171 | a line with the identical fence closes the block even when an info word follows |
| `ShellLines.GatherLines` | scripts/validate_deterministic_skill_routing.py:436-462 | the loop with its continuation buffer keeps: the runs before the buffer are reported, the buffer holds the segments of the open run |
| `ShellLines.Gather` | scripts/validate_deterministic_skill_routing.py:436-482 | the result is the list of logical lines of a partition into maximal runs |
| `ShellLines.TokenizeShell` | scripts/validate_deterministic_skill_routing.py:426-482 | exactly the logical lines that are neither empty nor comments are reported, told by the physical lines: text, words and the number of the first line; numbers strictly increase |
| `Text.IsSpaceIff` | scripts/validate_deterministic_skill_routing.py:436-462 | what `strip` takes off: the 29 white-space code points |
| `ShellLines.TextIff` | scripts/validate_deterministic_skill_routing.py:440-462 | the text of a logical line is its physical lines, continuation marks and outer spaces removed, joined by single spaces |
| `ShellLines.ContinuedIff` | scripts/validate_deterministic_skill_routing.py:440-445 | a line continues exactly when its last character that is no space is a backslash |
| `ShellLines.RunIff` | scripts/validate_deterministic_skill_routing.py:436-462 | the runs are the maximal stretches in which every line but the last continues |
| `ShellLines.RunsDisjoint` | scripts/validate_deterministic_skill_routing.py:440-445 | two maximal runs that share a physical line are the same run |
| `ShellLines.RunOf` | scripts/validate_deterministic_skill_routing.py:440-445 | every physical line lies in a run |
| `ShellLines.RunExtends` | scripts/validate_deterministic_skill_routing.py:446-468 | the next run's line, when kept, extends the result |
| `ShellLines.TokenizationUnique` | scripts/validate_deterministic_skill_routing.py:426-482 | the declarative partition determines the result |
| `ShellLines.ShellJoinsLone` | scripts/validate_deterministic_skill_routing.py:452-454 | joining a lone line is stripping it, as the code's two branches assume |
| `ShellDispatch.CheckLine` | scripts/validate_deterministic_skill_routing.py:629-677 | one line: the flags after it, whether it dispatches, and what it reports under the flags before it |
| `ShellDispatch.CheckLines` | scripts/validate_deterministic_skill_routing.py:608-679 | the dispatch count is the number of dispatch lines, and the report is the declarative one |
| `ShellDispatch.InFailureStep` | scripts/validate_deterministic_skill_routing.py:648-664 | how one line changes the failure region |
| `ShellDispatch.RegionForm` | scripts/validate_deterministic_skill_routing.py:648-664 | the flag is up exactly when the outermost open region contains a failure test preceded by a dispatch |
| `ShellDispatch.RegionStart` | scripts/validate_deterministic_skill_routing.py:648-664 | the outermost open region always has a start |
| `ShellDispatch.ProseReportedIff` | scripts/validate_deterministic_skill_routing.py:666-677 | a fallback is reported for a line number exactly when one of its lines is one |
| `ShellDispatch.CheckShellBlock` | scripts/validate_deterministic_skill_routing.py:608-679 | the check of the tokenized block |
| `TransportImports.TransportImportChecker.Visit` | scripts/validate_no_transport_imports.py:117-262 | visiting a subtree appends its imports, restores the flag, and leaves flag, alias sets and violations as the lexical definition says |
| `TransportImports.TransportImportChecker.VisitIf` | scripts/validate_no_transport_imports.py:247-262 | the body is visited under its own guard, the else branch is not, and the flag is put back |
| `TransportImports.TransportImportChecker.VisitImport` | scripts/validate_no_transport_imports.py:193-215 | aliases of the typing module are learned, banned modules are reported unless guarded |
| `TransportImports.TransportImportChecker.VisitImportFrom` | scripts/validate_no_transport_imports.py:217-245 | aliases of the constant are learned, a banned module is reported unless guarded; relative imports without a module do nothing |
| `TransportImports.TransportImportChecker.VisitAll` | scripts/validate_no_transport_imports.py:254-259 | the statements of a list are visited in order |
| `TransportImports.CheckFile` | scripts/validate_no_transport_imports.py:117-262 | the violations of a file are, in order, those of the lexical definition: the banned root modules named by imports that no enclosing body guards |
| `TransportImports.ReportedIff` | scripts/validate_no_transport_imports.py:199-213 | a banned import is reported exactly when no enclosing if body is a guard under the aliases imported before that if |
| `TransportImports.BannedInIff` | scripts/validate_no_transport_imports.py:199-245 | an import names a violation exactly when the part of some imported name before its first dot is on the banned list |
| `TransportImports.GuardedStable` | scripts/validate_no_transport_imports.py:156-191 | imports seen later never change whether an enclosing body guards |
| `TransportImports.GuardingSilences` | scripts/validate_no_transport_imports.py:247-262 | moving a stretch of a file under the guard removes exactly the reports of that stretch and changes no other |
| `TestSelection.ComputeSelection` | scripts/ci/detect_test_paths.py:104-209 | the full suite, tests/ in 40 numbered splits, runs exactly when the flag, the branch, the event, a changed file, a shared module or the number of modules escalates, with the reason of the first stage that does; otherwise documents alone select nothing, and else the closure runs in as few splits as are enough, at most 40 |
| `TestSelection.EscalationMonotone` | scripts/ci/detect_test_paths.py:129-180 | adding, reordering or repeating changed files never narrows a full suite |
| `TestSelection.DocsExemptionShrinks` | scripts/ci/detect_test_paths.py:182-196 | files removed from an exempt change leave it exempt |
| `TestSelection.ForcesIff` | scripts/ci/detect_test_paths.py:141-157 | a file forces the whole suite exactly when it is the project file, not known to be harmless, or an infrastructure path or below one, slashes at its end not counting |
| `TestSelection.ModulesIff` | scripts/ci/detect_test_paths.py:159-171 | the modules of a change are the names that stand right below src/omnibase_core/ in some changed path |
| `TestSelection.DocIff` | scripts/ci/detect_test_paths.py:41-47 | a document is a path that ends in .md or lies below docs/ |
| `TestSelection.SplitCountIff` | scripts/ci/detect_test_paths.py:222-267 | the split count is the least number that is enough for the paths and, from 80 files on, for 40 files a split, capped at 40 |
| `TestSelection.SplitBounds` | scripts/ci/detect_test_paths.py:222-238 | between 1 and 40 splits |
| `TestSelection.SplitMonotone` | scripts/ci/detect_test_paths.py:222-267 | more paths or more test files never mean fewer splits |
| `TestSelection.SplitDensity` | scripts/ci/detect_test_paths.py:222-267 | from 80 files on, at most 40 files per split exactly up to 1600 files; below that at most 79 |
| `HookBits.AssertDeclarationOrder` | scripts/gen_hook_bits.py:34-41 | the check passes exactly when member i has value 1 << i |
| `HookBits.MaskBound` | scripts/gen_hook_bits.py:101-106 | the mask of n members is below 2^n |
| `HookBits.MaskBits` | scripts/gen_hook_bits.py:101-106 | bit i of the mask is set exactly when member i exists and is not disabled |
| `HookBits.BitSplits` | scripts/gen_hook_bits.py:101-106 | bit i of a number is its digit at 2^i: the rest is a multiple of the next power and a number below this one |
| `HookBits.EnabledIff` | scripts/gen_hook_bits.py:101-106 | the AND with a member's bit is nonzero exactly when the member is not disabled |
| `HookBits.MaskDetermines` | scripts/gen_hook_bits.py:101-106 | equal masks come from the same disabled members |
| `HookBits.BashAgreesIff` | scripts/gen_hook_bits.py:184-188 | the 64-bit bash test agrees for a member exactly when its index is below 64 or it is disabled |
| `HookBits.LowIsRemainder` | scripts/gen_hook_bits.py:184-188 | keeping the low k bits is the remainder modulo 2^k |

## Left out

- CycleDetection.DetectCycles: that reports are simple cycles is characterised for graphs with no empty name on a cycle; with such names it depends on the order in which the search meets the edges, and the falsifying example is given. Python's recursion limit is not modelled.
- Covering.MinimalWithOwnArcs: gives one direction only, because whether a greedy cover is minimal has no condition simpler than solving set cover; `NotMinimal` shows that some condition is needed.
- ShellLines.TokenizeShell: the words of a line are an arbitrary function of its text that may fail, so the quoting rules of `shlex` are not modelled; `splitlines` is taken as given.
- ShellDispatch.CheckLines: which lines are dispatches, wrapped dispatches, failure tests or prose are arbitrary functions of the line; only the state machine over them is modelled.
- FencedBlocks.ExtractCodeBlocks: works on the list of lines, so `splitlines` is taken as given.
- FlipBundle.FlipSound: covers flips proved by replay; the hand-flip path, a comparison of normalised syntax trees, is an arbitrary result.
- RatchetScope.ClassifyAll: the order among findings with one node id is not modelled; only directories with a dot in their name can share one.
- AdequacyReceipt.BuildReceipt: percentages are real numbers, and how they are printed is a parameter.
- ComputeGolden.DiffPaths: how a value is shown in a line is a parameter.
- CanonicalJson.PrintersInjective: the digits of floats are assumed, not computed, and the UTF-8 encoding is left out; in `Hypotheses` some injective encoding stands for it.
- HookBits.BashAgreesIff: bash arithmetic is taken to wrap silently modulo 2^64, also when it reads a constant.
- TransportImports.CheckFile: a statement is reduced to imports, `if` and nested statements in visiting order; the source line quoted in a violation is left out.
- File, git, YAML, SHA-256, subprocess and import machinery, argument parsing and report formatting: represented by parameters.
- `classify_node` and the resolution of handlers from syntax trees: an arbitrary function of the files.
- `compute_closure_selection` and the coverage engine: arbitrary functions.
- `scrub`, `record_golden`'s type names, DOT and text rendering, the Python block analyser, the document-wide dispatch count, path exclusions: pattern lists or formatting with only easy claims.
- `--update` and `--json` of the ratchet, and writing the baseline: file output.
- Product readiness tables, merge-queue and other audits under `scripts/`: reading their branches settles them.
