# A verified model of the 5G fault-analysis tools

This project models the deterministic cores of three programs and proves what they promise:

* `5gcap`, an offline capture analyser: SCTP reassembly, the building of UE flows with their NAS and NGAP
  procedures, the pairing of PFCP requests and responses, the correlation of planes by key equality, and KPIs;
* `triage`, a tree search for the root cause of a failure, and the packing of specification text into chunks;
* `dispatch`, an incident pipeline: linking evidence, matching runbooks, the episode store, and closing an incident.

Code that changes state is modelled by methods over classes, maps and loops, each proved against a specification
function or predicate; the promises are lemmas about those. One module per file; the modules of one component
follow each other:

| component | modules |
|---|---|
| search (`triage/triage/search.py`) | `Grounding`, `SearchNode`, `SearchInvariant`, `SearchOrder` (the walks), `SearchTree`, `Triage` |
| flows and procedures (`5gcap/fivegcap/flow.py`) | `FlowModel` (one flow, step by step), `FlowBuilder` (the dictionaries), `FlowPairing` (the declared pairings), `FlowRefinement`, `FlowTheorems`, `FlowFields` |
| PFCP pairing (`5gcap/fivegcap/pfcp.py`) | `Pfcp`, `PfcpPairing`, `PfcpTheorems`, `PfcpFields`, `PfcpPass` (the loop), `PfcpLocality` |
| reassembly (`5gcap/fivegcap/capture.py`) | `Reassembly`, `ReassemblyTheorems` |
| correlation (`5gcap/fivegcap/correlate.py`) | `Correlate`, `CorrelateTheorems` |
| KPIs (`5gcap/fivegcap/kpi.py`) | `Kpi`, `CrossPlane`, `CrossPlaneTheorems`, `LegFields`, `CrossPlanePartial`, `CrossPlaneCapture` (flows, joins and means together) |
| corpus (`triage/scripts/build_corpus.py`) | `Packing`, `Slicing`, `ClauseTree`, `Chunking` (the chunks of one clause), `ClauseChunks` |
| incident pipeline (`dispatch/dispatch`) | `EvidenceLinks`, `Runbooks`, `Store`, `LineCodec` (a codec as the store laws ask for), `Close` |
| shared | `Prelude`, `Sorting` (stable sorting and its laws), `Text` (split, join, string order) |

`dafny verify dfyconfig.toml` checks everything.

## Conventions

* A definition that code and contracts both use is tied to the fields of its inputs by a theorem that does not use it
  (`FlowFields`, `PfcpFields`, `LegFields`, and the lemmas named `...ByFields`); the main methods' contracts carry these.
* Times, rewards and durations are `real`; `explore` stands for the square root of the logarithm of the parent's visits over
  the child's, and is only applied to counts of at least one.
* Calls to language models (`expand`, `evaluate`) are functions of the number of the call, so that equal prompts may get
  different answers; `execute` is a function of the action alone. A failing call is a value of its own.
* The NAS decoder is an arbitrary function of the bytes and the ciphering algorithm known so far.
* Python's `sort` is modelled as stable insertion sort; `Sorting` proves that stability and order determine the result.
* The episode codec is any pair of functions with `parse(print(e)) = e` and printed lines that are neither empty nor broken
  by newlines (`Store.Faithful`); `LineCodec.SomeCodecIsFaithful` shows that there is one. Timestamps of episodes are
  microseconds, within the range of `datetime`. File writes are atomic. Dates and clocks are parameters.
* Where the code and its documentation disagree the model follows the code:
  * the correlation promises that a refused message never joins; a refused SBI *response* does join, through its stream.
    `CorrelateTheorems.RefusedResponseJoins` shows one, and `CorrelateTheorems.RefusedJoinOnlyAsResponses` says exactly when;
  * `cross_plane_kpis` promises complete flows only; the code counts partial flows too. `CrossPlanePartial.PartialFlowCounts`
    shows one, and `CrossPlanePartial.CompleteFlowsOnly` says exactly when a KPI has the samples of the complete flows only;
  * slicing an oversized unit promises slices of the unit; an empty word that comes where a slice begins is dropped with its
    space. `Slicing.LeadingSpaceIsLost` shows it, and `Slicing.SlicesRejoin` says exactly when the unit comes back;
  * `pack` promises bodies of at most `max_chars`; it bounds the sum of the piece lengths, without the separators.
    `Slicing.SeparatorsOverflow` shows a body over the bound, `Slicing.Pack` says exactly when all bodies keep to it, and
    `Slicing.BodiesOvershoot` by how much they can miss it;
  * `close` promises to be retryable; retried with another verdict it can leave a draft staged by the first attempt.
    `Close.StaleDraftStays` shows one, and `Close.CrashRetryDrafts` says exactly when the drafts end as without that attempt;
  * `run` with no rollout allowed fails on an unbound counter (`SearchTree.Tree.Run`).

## Model

| member | source | states |
|---|---|---|
| `Grounding.GroundedEvidence` | triage/triage/search.py:109-122 | the loop keeps exactly the cited items that match a decoded message: same name, less than half a millisecond apart, same cause if one is cited; said of the inventory's entries themselves |
| `Grounding.EpisodesAreGrounded` | triage/triage/search.py:125-141 | an action yields an episode if and only if it is a finalize of a valid episode that cites some decoded message |
| `SearchNode.Node.Backprop` | triage/triage/search.py:309-313 | one reward adds one visit and moves the mean of the node and of every ancestor, each once, and of nothing else |
| `SearchNode.RunningMean` | triage/triage/search.py:309-313 | the incremental update is the true mean of the subtree's samples with one more; nodes off the path keep count and mean |
| `SearchNode.CountIsCardinality` | triage/triage/search.py:309-313 | with each node sampled once, a node's sample count is the number of sampled nodes in its subtree |
| `SearchNode.ParentVisited` | triage/triage/search.py:316-322 | a parent is visited at least as often as its child, so the logarithm in UCB is taken of a count of at least one |
| `SearchTree.Tree.Record` | triage/triage/search.py:309-313 | backpropagation keeps every node's statistics equal to count and mean of its subtree's samples |
| `SearchTree.Tree.ObserveAndEvaluate` | triage/triage/search.py:349-370 | the child gets `execute`'s observation and episode, the reward and status of its evaluation (an episode completes, a failed call fails), one sample is logged, and the whole tree invariant is kept |
| `SearchTree.Tree.JudgedMeans` | triage/triage/search.py:356-369 | a node is complete exactly if it has an episode; otherwise a failing call or the answer failed fails it, and the reward is the answer's |
| `SearchInvariant.TrajectoryIsPath` | triage/triage/search.py:303-307 | a trajectory has one step for each node on the way from the root, in order |
| `Triage.TextIsSteps` | triage/triage/search.py:283-287 | the text given to the models is all of the steps, in order |
| `SearchTree.Tree.AddChildren` | triage/triage/search.py:377-390 | the new children are the non-empty proposals without repetition, in order, unevaluated, and the tree grows by just them |
| `SearchTree.Tree.EvaluateChildren` | triage/triage/search.py:394-397 | the children are evaluated in order: all of them, or with exit-on-complete up to the first with an episode; each one's reward and status are those of its own call on its trajectory, and one sample is logged for each |
| `SearchTree.Tree.BestChild` | triage/triage/search.py:398 | the selected child is the first with the greatest UCB value: the first unvisited one if there is any, otherwise one whose mean with its exploration added no other exceeds, failed children counting as 0 |
| `SearchTree.Tree.LowerIsNotChosen` | triage/triage/search.py:316-322 | of two equally often visited children that did not fail, the one with the lower value is never chosen |
| `SearchTree.Tree.RolloutEnd` | triage/triage/search.py:373-397 | at its leaf a rollout fails a failed, too deep or fruitless node, or attaches and judges the kept proposals |
| `SearchTree.Tree.Rollout` | triage/triage/search.py:372-399 | a rollout ends by depth, at the leaf that following best UCB children selects; there it marks failure, or gives the leaf the kept proposals as children and judges them by consecutive calls; every other node keeps children and status, all nodes stay within depth max_depth + 1, failed nodes stay failed and childless, and with exit-on-complete at most one episode is left |
| `SearchTree.Tree.Completed` | triage/triage/search.py:401-405 | the collected nodes are exactly those of the subtree with an episode, in preorder |
| `SearchTree.Tree.SeenNodes` | triage/triage/search.py:410-416 | the stack walk comes to every evaluated node below the root once, last children first |
| `SearchTree.Tree.BestPartial` | triage/triage/search.py:407-417 | the stack walk finds a highest-reward evaluated node, the first such that it comes to, and none exactly when none was evaluated |
| `SearchTree.Tree.FindFinalize` | triage/triage/search.py:441-445 | the first non-empty action that starts with finalize once stripped, or none |
| `SearchTree.FinalizeIsSaid` | triage/triage/search.py:442 | an action is a finalize if and only if the word follows at most blanks |
| `SearchTree.AsciiSpaces` | triage/triage/search.py:442 | of the ASCII characters, 9 to 13 and 28 to 32 are stripped |
| `SearchTree.Tree.ForceFinalize` | triage/triage/search.py:419-450 | one finalize child under the first best partial node exactly when the proposal holds one; it is judged by its own evaluation call and counts only if its execution grounded an episode |
| `SearchTree.Tree.Conclude` | triage/triage/search.py:465-468 | a finalize is forced only when the rollouts completed nothing; the result is all completed nodes, in preorder if the rollouts completed them |
| `SearchTree.Tree.RunRollouts` | triage/triage/search.py:459-464 | at most max_rollouts rollouts, fewer only because exit-on-complete found an episode; failed nodes stay failed; at most b new nodes per rollout when proposals have at most b actions |
| `SearchTree.Tree.Pick` | triage/triage/search.py:469-473 | the result is that of the first completed node of maximal reward, with its trajectory, or is empty |
| `SearchTree.Tree.Run` | triage/triage/search.py:452-473 | an episode is returned if and only if some node holds one; its reward is maximal over the completed nodes; with exit-on-complete at most one node holds an episode; depth at most max_depth + 2; at most 2 + rollouts * b nodes; the statistics invariant holds at the end |
| `SearchTree.Tree.AnswersAreSupported` | triage/triage/search.py:303-307 | the returned trajectory is the path to a node whose observations are `execute`'s answers and whose last action is the one that produced the episode |
| `Triage.HypothesisIsGrounded` | triage/triage/search.py:125-141 | with the decode's own tools, a returned hypothesis cites a decoded message and ends in the finalize action that carried it |
| `Triage.VisitsCountEvaluated` | triage/triage/search.py:309-313 | in every valid tree a node's visits are the number of evaluated nodes of its subtree and its value the mean of their rewards |
| `Triage.RunLats` | triage/triage/search.py:605-641 | the search on one incident returns a grounded hypothesis or an empty result, and fails only without rollouts |
| `FlowBuilder.Builder.FlowFor` | 5gcap/fivegcap/flow.py:76-92 | the message's flow is the one of its association and RAN id, opened with those, the next id and the partial mark if new; order and index stay those of first appearance |
| `FlowBuilder.Builder.Receive` | 5gcap/fivegcap/flow.py:117-120 | AMF id, cipher state, decode and message list of the flow advance as one step of the flow alone |
| `FlowBuilder.Builder.Release` | 5gcap/fivegcap/flow.py:121-130 | a context release drops the flow's queued NGAP starts and no other flow's |
| `FlowBuilder.Builder.NasStep` | 5gcap/fivegcap/flow.py:135-150 | a NAS start replaces the open one of its kind, an end closes it; other flows' entries are untouched |
| `FlowBuilder.Builder.CompleteNgap` | 5gcap/fivegcap/flow.py:97-110 | an end closes the earliest queued start unless the flow already has a procedure of that kind, which empties the queue instead |
| `FlowBuilder.Builder.NgapStep` | 5gcap/fivegcap/flow.py:151-162 | NGAP starts queue and ends complete, by kind, for this flow only |
| `FlowBuilder.Builder.Process` | 5gcap/fivegcap/flow.py:112-162 | after every message the four dictionaries together show exactly the flows of the messages so far |
| `FlowBuilder.BuildFlows` | 5gcap/fivegcap/flow.py:65-163 | the builder ends with the flows that each key's own messages give, in order of first appearance and carrying their key, and the unassociated messages in order; every flow's fields and procedures are what its messages tell |
| `FlowPairing.OpenIsLatest` | 5gcap/fivegcap/flow.py:135-150 | the open NAS start is the latest start with no start or end of its kind since |
| `FlowPairing.LiveStartsAreLive` | 5gcap/fivegcap/flow.py:121-130 | the queued NGAP starts are exactly those since the last context release, in order |
| `FlowPairing.ClosingsArePairs` | 5gcap/fivegcap/flow.py:97-162 | the procedures closed in one pass are exactly the declared NAS and NGAP pairings, each once and in closing order |
| `FlowRefinement.StepRefines` | 5gcap/fivegcap/flow.py:112-162 | one message keeps a flow's dictionaries and procedures equal to the declared pairings of its messages |
| `FlowRefinement.FlowRefines` | 5gcap/fivegcap/flow.py:65-163 | for every message list, a flow's procedures and pending starts follow the declared pairings |
| `FlowTheorems.PairingDiscipline` | 5gcap/fivegcap/flow.py:97-162 | a flow's procedures are its declared pairings, every one once and nothing else, in closing order, all with an outcome |
| `FlowTheorems.OneClosingPerMessage` | 5gcap/fivegcap/flow.py:97-162 | no message closes two procedures of one kind and no start opens two NAS procedures |
| `FlowTheorems.NgapComesFirst` | 5gcap/fivegcap/flow.py:97-110 | an NGAP procedure is the first of its kind in its flow |
| `FlowTheorems.FlowIsolation` | 5gcap/fivegcap/flow.py:65-163 | the flow of a key is what that key's messages alone give, whatever is interleaved |
| `FlowTheorems.MessagesInOrder` | 5gcap/fivegcap/flow.py:116-120 | a flow holds the messages of its key, all and in order |
| `FlowTheorems.EveryMessageLandsOnce` | 5gcap/fivegcap/flow.py:112-116 | every message lands in exactly one flow or in the unassociated list |
| `FlowFields.FlowFieldsAre` | 5gcap/fivegcap/flow.py:55-62 | every NAS message is decoded from its bytes with the first algorithm that the flow's messages before it carry; the flow keeps that algorithm, its first AMF id, and whether it began with an InitialUEMessage |
| `FlowFields.RolesByName` | 5gcap/fivegcap/flow.py:13-30 | which message names start, end and drop procedures |
| `FlowFields.ProceduresRun` | 5gcap/fivegcap/flow.py:132-161 | every procedure runs between the times of two messages whose names say so, and its outcome is the second one's |
| `FlowFields.FlowsByFields` | 5gcap/fivegcap/flow.py:76-94 | two messages with an id share a flow if and only if their ports are the same two and their RAN ids are equal |
| `FlowFields.UnassociatedByFields` | 5gcap/fivegcap/flow.py:113-115 | a message is in no flow if and only if it has neither id |
| `Kpi.Compute` | 5gcap/fivegcap/kpi.py:19-55 | latencies are those of the complete flows' procedures by kind, successes and failures those of all flows, they add up to the number of procedures, and the success rate is the accepted share of these |
| `Kpi.FlowsAreTerminal` | 5gcap/fivegcap/kpi.py:43 | every procedure of every capture's flows has an end, so the subtraction is total |
| `Kpi.OutcomesAddUp` | 5gcap/fivegcap/kpi.py:48-54 | procedures that ended are successes or failures, none both, none neither |
| `Kpi.DurationsPartition` | 5gcap/fivegcap/kpi.py:42-47 | each procedure gives one latency to one of the two lists |
| `Kpi.DurationsLast` | 5gcap/fivegcap/kpi.py:37-47 | the latencies are the milliseconds from start to end of the procedures of the kind, each once and in order |
| `Kpi.MeanIsMean` | 5gcap/fivegcap/kpi.py:58-59 | a mean times the number of samples is their sum, and it lies between the least and the greatest |
| `Kpi.SumJoin` | 5gcap/fivegcap/kpi.py:58-59 | the sum of samples is additive |
| `Kpi.Analyze` | 5gcap/fivegcap/kpi.py:37-55 | from messages to KPIs, every procedure found is counted once and every latency is that of a complete flow's procedure |
| `PfcpPairing.PassIsDeclared` | 5gcap/fivegcap/pfcp.py:238-268 | the pending map and the closed pairs agree with the declarative pairing by path and sequence number |
| `PfcpPairing.Absorber` | 5gcap/fivegcap/pfcp.py:243-246 | every request is a first send or a retransmission absorbed by an earlier one unanswered until then |
| `PfcpPass.Take` | 5gcap/fivegcap/pfcp.py:240-268 | one message opens, ignores or closes exactly as the declared pass does, in the insertion-ordered dictionary |
| `PfcpPass.PairProcedures` | 5gcap/fivegcap/pfcp.py:232-282 | the loop, the timeouts and the sort give the paired procedures and the unpaired requests, and these account for the capture by its messages' own fields |
| `PfcpFields.PairedIsRecorded` | 5gcap/fivegcap/pfcp.py:241-282 | a procedure is the record of a request sent anew and of the first response back from its destination with its sequence number, kind by type and outcome by cause; a timeout has no such response |
| `PfcpFields.EveryRequestIsCovered` | 5gcap/fivegcap/pfcp.py:243-246 | every decoded request has a procedure, or repeats one not answered yet |
| `PfcpFields.UnpairedByFields` | 5gcap/fivegcap/pfcp.py:269-282 | the unpaired messages are the requests of the timeouts, in order |
| `PfcpTheorems.Conservation` | 5gcap/fivegcap/pfcp.py:238-282 | the procedures are exactly the declared ones, sorted by start, one per first send, no two with the same request or the same response |
| `PfcpTheorems.Timeouts` | 5gcap/fivegcap/pfcp.py:269-280 | the timeouts are exactly the first sends that no later response on their path answers |
| `PfcpTheorems.DurationsForward` | 5gcap/fivegcap/pfcp.py:255-267 | when capture times do not decrease no duration is negative |
| `PfcpLocality.PassOnPath` | 5gcap/fivegcap/pfcp.py:240-268 | on one path the pass does what it does on that path's messages alone |
| `PfcpLocality.PairingLocality` | 5gcap/fivegcap/pfcp.py:232-282 | the procedures of one path are, in order and up to index renumbering, those from pairing its messages alone |
| `Reassembly.TakeChunk` | 5gcap/fivegcap/capture.py:44-64 | a fresh chunk is remembered and buffered on its stream, an ending one delivers and clears the buffer, a repeated TSN does nothing |
| `Reassembly.ReadCapture` | 5gcap/fivegcap/capture.py:26-66 | the packet and layer loops read the capture's NGAP data chunks in order |
| `ReassemblyTheorems.OnlyFreshMatters` | 5gcap/fivegcap/capture.py:47-49 | dropping every retransmission changes nothing |
| `ReassemblyTheorems.LaterDuplicate` | 5gcap/fivegcap/capture.py:47-49 | a later duplicate of a seen TSN can be inserted anywhere |
| `ReassemblyTheorems.StreamsAreSeparate` | 5gcap/fivegcap/capture.py:50-64 | each stream delivers exactly what its fresh fragments spell and holds back the unfinished rest |
| `ReassemblyTheorems.CutOfWire` | 5gcap/fivegcap/capture.py:50-64 | cutting the wire form of messages gives the messages back |
| `ReassemblyTheorems.WireOfCut` | 5gcap/fivegcap/capture.py:50-64 | every stream is the wire form of what is read from it and of the open rest |
| `ReassemblyTheorems.RoundTrip` | 5gcap/fivegcap/capture.py:26-66 | messages cut into fragments come back complete and in order per stream, under any interleaving and retransmission |
| `ReassemblyTheorems.FreshIsSent` | 5gcap/fivegcap/capture.py:47-49 | with distinct TSNs per association, what is fresh of a capture with later duplicates is what was sent |
| `ReassemblyTheorems.FreshIffDistinct` | 5gcap/fivegcap/capture.py:47-49 | a capture is fresh throughout if and only if no TSN repeats on its association |
| `ReassemblyTheorems.SentComesBack` | 5gcap/fivegcap/capture.py:26-66 | the sender form: fragments with distinct TSNs, captured with any later duplicates and interleaving, give the messages back in order on every stream |
| `ReassemblyTheorems.StampedByEnding` | 5gcap/fivegcap/capture.py:53-63 | one message per ending fresh fragment, in their order, with their time and addresses |
| `ReassemblyTheorems.ReadByFields` | 5gcap/fivegcap/capture.py:44-64 | what one fragment does: nothing if its association and TSN came before, otherwise its data go to its stream and an ending one gives the message |
| `ReassemblyTheorems.FragmentsByFields` | 5gcap/fivegcap/capture.py:33-46 | the fragments are exactly the NGAP data chunks with data, in order, with the time, ports and addresses of their packets |
| `Correlate.FlowSupis` | 5gcap/fivegcap/correlate.py:28-35 | each SUPI maps to the set of flows with a message that declares it |
| `Correlate.FlowTunnels` | 5gcap/fivegcap/correlate.py:64-71 | each tunnel maps to the set of flows with a message that declares it |
| `Correlate.Unambiguous` | 5gcap/fivegcap/correlate.py:41 | the keys kept are those with one claimant, with that claimant |
| `Correlate.Correlation.JoinRequests` | 5gcap/fivegcap/correlate.py:45-53 | requests link by their SUPI, the references list what is linked, and each stream remembers its last linked request |
| `Correlate.Correlation.JoinResponses` | 5gcap/fivegcap/correlate.py:54-59 | responses link through connection and stream; other links stay |
| `Correlate.SortRefs` | 5gcap/fivegcap/correlate.py:60-61 | the sorted references are the strictly increasing inverse of the links |
| `Correlate.Correlation.JoinSbi` | 5gcap/fivegcap/correlate.py:38-61 | every SBI message has its declared link and the references are their inverse |
| `Correlate.Correlation.JoinN4` | 5gcap/fivegcap/correlate.py:74-90 | every N4 message has its declared link and the references are their inverse |
| `Correlate.CorrelateFlows` | 5gcap/fivegcap/correlate.py:93-102 | both planes are joined; an absent plane has no links |
| `CorrelateTheorems.RequestsLinkSoleClaimants` | 5gcap/fivegcap/correlate.py:46-53 | a request links f if and only if it is decoded, has a connection, and f is the only flow that claims its SUPI |
| `CorrelateTheorems.ResponsesInherit` | 5gcap/fivegcap/correlate.py:54-59 | a response links f if and only if the last linked request on its connection and stream does |
| `CorrelateTheorems.RefusedJoinOnlyAsResponses` | 5gcap/fivegcap/correlate.py:42-59 | a refused message joins if and only if it is a response whose stream has a linked request |
| `CorrelateTheorems.RefusedResponseJoins` | 5gcap/fivegcap/correlate.py:54-59 | an input on which a refused response joins |
| `CorrelateTheorems.N4LinksUnambiguousTunnels` | 5gcap/fivegcap/correlate.py:79-88 | an N4 message links f if and only if it is decoded and its unambiguous tunnels name just f |
| `CorrelateTheorems.SbiLinksByFields` | 5gcap/fivegcap/correlate.py:28-59 | the links of all SBI messages by the SUPIs in the flows' NAS messages |
| `CorrelateTheorems.N4LinksByFields` | 5gcap/fivegcap/correlate.py:64-88 | the links of N4 messages by the tunnels in the flows' messages |
| `CorrelateTheorems.InverseUnique` | 5gcap/fivegcap/correlate.py:60-61 | the links determine the references |
| `CorrelateTheorems.SbiLinksOfPermutation` | 5gcap/fivegcap/correlate.py:38-59 | reordering the flows changes no SBI link |
| `CorrelateTheorems.N4LinksOfPermutation` | 5gcap/fivegcap/correlate.py:74-88 | reordering the flows changes no N4 link |
| `CorrelateTheorems.CorrelateTwice` | 5gcap/fivegcap/correlate.py:93-102 | correlating reordered flows gives the same four dictionaries |
| `CrossPlane.CollectTunnels` | 5gcap/fivegcap/kpi.py:90-94 | the sessions are those some setup request names, and a session has exactly the tunnels some request gives it |
| `CrossPlane.CollectTimes` | 5gcap/fivegcap/kpi.py:91-97 | a session has one time for each of its items in the setup responses, in order |
| `CrossPlane.TunnelsAreRequested` | 5gcap/fivegcap/kpi.py:92-94 | a tunnel is among a session's exactly when some setup request lists it there |
| `CrossPlane.TimesAreItems` | 5gcap/fivegcap/kpi.py:95-97 | the number of a session's times is the number of its items |
| `CrossPlane.AnchorEsts` | 5gcap/fivegcap/kpi.py:116-121 | a session's establishment responses are those whose tunnels hit it and no other session |
| `CrossPlane.SortedInts` | 5gcap/fivegcap/kpi.py:122 | the sorted sessions are the set's members in strictly increasing order |
| `CrossPlane.FlowSamples` | 5gcap/fivegcap/kpi.py:77-142 | a flow adds the samples of each of its sessions, or of the flow itself when no session is anchored |
| `CrossPlane.CrossPlaneKpis` | 5gcap/fivegcap/kpi.py:62-145 | the three means are taken over the units of all flows, partial ones included; each times the number of its samples is their sum, and lies among them |
| `CrossPlaneTheorems.EstIsExact` | 5gcap/fivegcap/kpi.py:116-124 | a session's N4 leg is i if and only if i is the only joined establishment response that names this session alone |
| `CrossPlaneTheorems.CreateIsExact` | 5gcap/fivegcap/kpi.py:125-134 | a session's SBI leg is i if and only if i is the only joined create for it, at the session's SMF if that is known |
| `CrossPlaneTheorems.SetupIsExact` | 5gcap/fivegcap/kpi.py:135-136 | a session's N2 leg is t if and only if one setup response of the flow has its only item, at t |
| `CrossPlaneTheorems.NamedMembers` | 5gcap/fivegcap/kpi.py:77-80 | the setup messages considered are those of the flow with that name |
| `LegFields.SessionsByFields` | 5gcap/fivegcap/kpi.py:90-99 | the sessions measured are those that a setup request, a setup response or a create of the flow names |
| `LegFields.EstByFields` | 5gcap/fivegcap/kpi.py:116-126 | a session's N4 leg is the flow's only establishment response with a tunnel that a setup request gives this session and none of another's, with that message's time |
| `LegFields.CreateByFields` | 5gcap/fivegcap/kpi.py:125-134 | a session's SBI leg is the flow's only create of it, at its establishment's SMF if that is known, with that message's time |
| `LegFields.SetupByFields` | 5gcap/fivegcap/kpi.py:96-97 | a session's N2 leg is the time of the flow's only setup response with an item of it, if that has just one |
| `LegFields.BareByFields` | 5gcap/fivegcap/kpi.py:100-105 | without a session, the legs are the flow's only establishment response and its only create at that SMF |
| `LegFields.BareSetupByFields` | 5gcap/fivegcap/kpi.py:106 | and the time of its only setup response |
| `CrossPlaneTheorems.LegsAreExclusive` | 5gcap/fivegcap/kpi.py:76-142 | across the capture no create and no establishment response is a leg of two units |
| `CrossPlaneTheorems.OneSampleEach` | 5gcap/fivegcap/kpi.py:137-142 | a KPI has exactly one sample for each unit with both its legs |
| `CrossPlaneTheorems.SamplesTelescope` | 5gcap/fivegcap/kpi.py:137-142 | with all three legs in every contributing unit the sums telescope |
| `CrossPlaneTheorems.MeansTelescope` | 5gcap/fivegcap/kpi.py:137-145 | then also the means: SBI to N2 is SBI to N4 plus N4 to N2 |
| `CrossPlaneTheorems.CorrelatedPlanes` | 5gcap/fivegcap/correlate.py:93-102 | the references that correlation gives are indexes of messages, each once, as the KPIs need |
| `CrossPlanePartial.CompleteFlowsOnly` | 5gcap/fivegcap/kpi.py:62-76 | a KPI has the samples of the complete flows only if and only if no partial flow has a unit with both its legs |
| `CrossPlanePartial.PartialFlowCounts` | 5gcap/fivegcap/kpi.py:76-112 | an input, joined by the correlation itself, whose partial flow gives a sample |
| `CrossPlanePartial.PartialSamples` | 5gcap/fivegcap/kpi.py:76-142 | leaving out the partial flows only takes samples away |
| `CrossPlaneCapture.MeasureCapture` | 5gcap/fivegcap/kpi.py:62-145 | for every capture: flows with their ids, declared joins, means over all units, and no create or establishment response used by two units |
| `Packing.GreedyFlattens` | triage/scripts/build_corpus.py:188-198 | the greedy parts concatenate to the pieces, in order |
| `Packing.GreedyFits` | triage/scripts/build_corpus.py:191-193 | a part is over the bound only as a single piece, and no part is empty |
| `Packing.GreedyIsOptimal` | triage/scripts/build_corpus.py:188-198 | no order-preserving split into fitting parts uses fewer parts |
| `Packing.GreedyWithinBound` | triage/scripts/build_corpus.py:188-198 | when every piece fits, every part is within the bound |
| `Slicing.Slices` | triage/scripts/build_corpus.py:168-181 | the word loop cuts as specified |
| `Slicing.SlicesRejoin` | triage/scripts/build_corpus.py:168-181 | the slices joined by spaces are the text if and only if it was short, empty, or had no empty word where a slice begins |
| `Slicing.LeadingSpaceIsLost` | triage/scripts/build_corpus.py:173-181 | an input whose leading space is lost |
| `Slicing.CutIsFill` | triage/scripts/build_corpus.py:173-181 | without empty words the slices are the greedy parts of the words, joined by spaces |
| `Slicing.SlicesAreFewest` | triage/scripts/build_corpus.py:168-181 | for a text of non-empty words that fit: slices rejoin to it, none is empty or over the bound, and no cut of the words has fewer |
| `Slicing.SlicesFit` | triage/scripts/build_corpus.py:168-181 | the slices are within the bound if and only if the text is or all its words are |
| `Slicing.BodiesWithin` | triage/scripts/build_corpus.py:188-198 | the joined bodies keep to the bound if and only if every piece does and the greedy parts are those with the separators counted |
| `Slicing.BodiesOvershoot` | triage/scripts/build_corpus.py:188-198 | when every piece fits, a body is over the bound by at most its separators |
| `Slicing.SeparatorsOverflow` | triage/scripts/build_corpus.py:188-198 | an input whose joined body is over the bound |
| `Slicing.Pack` | triage/scripts/build_corpus.py:184-198 | the bodies are the greedy parts of all units' slices, joined by blank lines; all keep to the bound if and only if every unit can be cut to it and counting the separators would start no part earlier |
| `ClauseTree.PopTo` | triage/scripts/build_corpus.py:220-223 | popping stops at the root or at a clause that is a dotted prefix, and nothing popped is one |
| `ClauseTree.Attach` | triage/scripts/build_corpus.py:212-225 | a heading becomes the last child of the innermost open clause that encloses it, and every node keeps exactly one place |
| `ClauseTree.Absorb` | triage/scripts/build_corpus.py:215-219 | a skipped heading gets no parent but absorbs what follows below it |
| `ClauseTree.PlacedByNumber` | triage/scripts/build_corpus.py:220-225 | a clause's parent is the root or has the number that the clause's continues after a dot, and no later clause with such a number was still open |
| `ClauseTree.AddText` | triage/scripts/build_corpus.py:206-227 | other text goes to the end of the newest clause's, none before the first, and every other clause keeps its own |
| `ClauseChunks.BuildTree` | triage/scripts/build_corpus.py:201-227 | the nodes are the numbered headings in document order, each attached once below its innermost enclosing clause unless skipped; each holds its own text, and together they hold all text after the first heading, in order |
| `ClauseTree.TextBetween` | triage/scripts/build_corpus.py:206-227 | a clause's text is exactly the units between its heading and the next numbered one, skipped or not, or the end |
| `ClauseTree.TextsFlatten` | triage/scripts/build_corpus.py:206-227 | the clauses' texts, in order, are all the text after the first heading |
| `ClauseChunks.Emit` | triage/scripts/build_corpus.py:231-254 | the recursive walk ends and gives the chunks of the subtree's clauses: identification, clause, heading, breadcrumb, text and length |
| `ClauseChunks.VisitsAscend` | triage/scripts/build_corpus.py:253-254 | the walk is in document order, every clause at most once |
| `ClauseChunks.VisitsReachChildren` | triage/scripts/build_corpus.py:253-254 | the walk comes to every clause attached below one it comes to |
| `ClauseChunks.VisitsOnlyChildren` | triage/scripts/build_corpus.py:253-254 | and to no other: everything it comes to below its start is attached to something it comes to |
| `ClauseChunks.VisitsChain` | triage/scripts/build_corpus.py:252-254 | the headings above a clause are a chain of strict dotted prefixes that ends in one of its own |
| `ClauseChunks.BuildChunks` | triage/scripts/build_corpus.py:201-257 | for every document all of this together: the walk comes to exactly the clauses attached below clauses it comes to, so to none under a skipped heading; it gives each the heading and the text of its place in the document; every clause that is long enough has its chunks, and every chunk's breadcrumb is such a chain |
| `Chunking.ChunksShowAll` | triage/scripts/build_corpus.py:231-251 | a clause's chunks end in the bodies that hold all pieces of its text, in order, after the header and the breadcrumb line; none if heading and bodies have less than 80 characters |
| `Chunking.AllChunksShown` | triage/scripts/build_corpus.py:231-257 | the chunks of a walk are those of its clauses, one after another |
| `EvidenceLinks.GroupByValue` | dispatch/dispatch/correlation.py:14-18 | each non-null key value is grouped with exactly the items that hold it, and groups come in order of first appearance |
| `EvidenceLinks.Disagrees` | dispatch/dispatch/correlation.py:34-40 | two items disagree if and only if some key has different non-null values in them |
| `EvidenceLinks.LinkGroup` | dispatch/dispatch/correlation.py:27-44 | a group of two gives its ordered pair if that is new, in the window and without disagreement, and nothing else |
| `EvidenceLinks.LinkEvidence` | dispatch/dispatch/correlation.py:8-49 | a pair is linked if and only if both are in the window, agree, and alone share some key value; once, by the earlier item's first such key; output strictly sorted by pair |
| `EvidenceLinks.LinkedByFields` | dispatch/dispatch/correlation.py:14-48 | the same by the items' times and keys |
| `Runbooks.MatchRunbooks` | dispatch/dispatch/runbook.py:163-185 | the loop, the three sorts and the cut give the top three of the candidates |
| `Runbooks.TopIsBest` | dispatch/dispatch/runbook.py:163-185 | these are the runbooks with two points or more that come first: by points, then the newer, then the slug; three, or all if there are no more |
| `Runbooks.ThreeSortsAreOne` | dispatch/dispatch/runbook.py:182-184 | the three stable sorts are one: score descending, date descending with unknown oldest, slug ascending; nothing lost |
| `Runbooks.OrderOfRunbooksIrrelevant` | dispatch/dispatch/runbook.py:163-185 | with distinct slugs the result is the same for every order of the runbooks |
| `Runbooks.MatchesExist` | dispatch/dispatch/learning.py:100-108 | something matches if and only if some runbook scores two or more |
| `Text.JoinOfSplit` | dispatch/dispatch/memory.py:93-110 | joining what was split gives the text back |
| `Text.SplitOfJoin` | dispatch/dispatch/memory.py:93-110 | splitting what was joined gives the lines back |
| `Text.StringAtMostByChars` | dispatch/dispatch/runbook.py:182 | texts compare by the first character in which they differ |
| `Store.EpisodeStore.Add` | dispatch/dispatch/memory.py:64-71 | one printed line is appended, and the file created if absent |
| `Store.EpisodeStore.Load` | dispatch/dispatch/memory.py:73-85 | the episodes of the lines that parse, in order |
| `Store.EpisodeStore.SetOutcome` | dispatch/dispatch/memory.py:87-111 | the incident's lines are rewritten and the last one returned, with this outcome and evidence and otherwise as it was; without file or incident it raises and changes nothing |
| `LineCodec.SomeCodecIsFaithful` | dispatch/dispatch/memory.py:31-71 | a codec that prints every episode on one non-empty line and reads it back exists, so the store laws speak of something |
| `Store.AddAppendsOne` | dispatch/dispatch/memory.py:64-71 | on a store that is empty or newline-terminated, add appends exactly its episode to what load gives, and keeps it terminated |
| `Store.AppendLoads` | dispatch/dispatch/memory.py:64-71 | on any other store the appended line completes the last one, and loads only if the two parse together |
| `Store.RewriteThenLoad` | dispatch/dispatch/memory.py:95-106 | set_outcome commutes with load as a map over the episodes |
| `Store.OutcomesByFields` | dispatch/dispatch/memory.py:103-106 | of the loaded episodes the incident's get the outcome and the evidence, and nothing else changes |
| `Store.SetOutcomeIsSurgical` | dispatch/dispatch/memory.py:87-110 | every line that is not the incident's is written back as read, corrupt ones included, and termination is kept |
| `Store.LastOutcomeWins` | dispatch/dispatch/memory.py:87-110 | a second outcome for one incident leaves no trace of the first; the same one twice is idempotent |
| `Store.SetOutcomeCommutes` | dispatch/dispatch/memory.py:87-110 | outcomes of different incidents commute |
| `Close.Desk.CloseIncident` | dispatch/dispatch/cli.py:125-168 | a close is refused, without change, exactly if the incident is not approved for execution, has no record or one with an outcome, or no episode; otherwise it performs its writes (episode, draft if due, record) in order, up to where it crashes |
| `Close.AcceptsByFields` | dispatch/dispatch/cli.py:141-149 | which incidents may be closed |
| `Close.DraftsByFields` | dispatch/dispatch/cli.py:154-156 | a draft is due for a resolved remediation that did something and scores two points in no committed runbook |
| `Close.SectionIsLines` | dispatch/dispatch/learning.py:111-125 | the outcome section has these lines |
| `Close.EndLeaves` | dispatch/dispatch/cli.py:147-163 | what a finished close leaves: the section in the record and, if due, the draft under its name |
| `Close.LastValueStays` | dispatch/dispatch/learning.py:100-108 | of several evidence values for a key the last one counts |
| `Close.CrashRetry` | dispatch/dispatch/cli.py:125-168 | stopped between any two writes, a close is accepted again and ends as an uninterrupted one |
| `Close.CrashRetryOtherVerdict` | dispatch/dispatch/cli.py:147-163 | retried with another verdict, store and record end as if the first attempt had not been |
| `Close.CrashRetryDrafts` | dispatch/dispatch/cli.py:154-163 | the drafts then end as without the first attempt if and only if that attempt staged none, the retry stages its own, or the same text was there before |
| `Close.StaleDraftStays` | dispatch/dispatch/cli.py:154-163 | an executed restart whose staged draft stays after the incident is closed as unresolved |
| `Close.ClosedStaysClosed` | dispatch/dispatch/cli.py:147-148 | after the record write every further close is refused |
| `Close.CloseTwice` | dispatch/dispatch/cli.py:125-168 | the two calls run one after the other reach that state |

## Left out

- Packet, ASN.1, HTTP/2 and PFCP decoding, and the NAS decoder itself: foreign libraries; decoded messages are datatypes.
- Language-model prompts, answers and retries, tracing, embeddings and the memory tool: parameters of the search or not modelled.
- The text of observations: `finalize`'s three answers are short constants, since only their presence matters; other tools are one arbitrary function.
- Floating-point rounding, infinities and NaN: `real` throughout; UCB's infinity is a separate value.
- `Procedure` objects are values in the builder's dictionaries; the source appends the object it has just popped, which nothing else refers to.
- How headings, titles to skip and versions are recognised: regular expressions; heading syntax and the document's identification are parameters. The source computes a chunk's label and does not use it.
- Slicing.Pack: unit kinds are dropped, because the source ignores them.
- Directory creation, encoding errors, newline translation of text files and file-system failures other than a stop between writes; `close` takes the checkpoint's gates as given.
- Runbook files, their parsing and the rest of the `dispatch` command line; `str(value)` of keys and symptoms is taken as already applied.
- `dispatch/dispatch/graph.py` (its checkpoints belong to a library), the executor, the reports, the evaluation scripts and the specification graph: wiring, formatting or foreign calls.
