# Verified models of the repryntt mesh, compute economy, tunnel and daemon

This project models the parts of the repository whose behaviour spans many steps, messages or passes, and
proves properties of whole runs. Each component has value-level functions for what one step does, and theorems
about every run of those steps. Where the source updates objects in place, a class with the same fields and
loops is proved against the functions. `dafny verify dfyconfig.toml` checks everything.

| files | what they model |
|---|---|
| `ArtifactStore`, `RateLimit`, `MeshNode`, `SaigeNode` | one node of the P2P mesh: store, limiter, message handlers, the node object |
| `MeshIntegrity`, `MeshAccess` | one node under arbitrary messages: integrity of what it stores, nothing comes in unasked, who gets in |
| `MeshNetwork`, `MeshGossip`, `MeshConvergence`, `MeshLimits`, `MeshTraffic`, `MeshLabels` | networks with messages in flight, delivered in any order: gossip rounds converge, messages dropped at the gates only delay that, and when none is; what travels along |
| `Graphs`, `MissionFlood`, `MissionStart` | flooding a mission over a connected graph, among other traffic, and which missions can start |
| `LockStep` | asyncio tasks and locks: why a handler of the compute bridge is one step |
| `PopProof`, `Workloads`, `WorkloadSteps`, `PayOnce`, `RewardTrail`, `Standing`, `BoundedLife`, `EconomyBridge`, `MiningCapacity` | the compute economy bridge |
| `HtmlRewrite`, `HtmlIdempotence`, `HtmlQuiet`, `HtmlRestore`, `TunnelRewrite`, `TunnelShape`, `TunnelPages` | rewriting pages for the tunnel |
| `Continuation` | long completions under a token budget |
| `Attention`, `AttentionNumbers`, `CircuitBreaker`, `PromptTrim` | three parts of the consciousness daemon |
| `Subtitles`, `SubtitleCues`, `SubtitleFile` | the subtitle file of an episode |
| `StableSort`, `WorkQueue` | the nervous system's priority queue |
| `CapabilityIndex`, `CapabilityHistory`, `CapabilitySearch`, `CapabilityRanking`, `MapSyncNetwork` | the function registry with its tag index |
| `Text`, `Wrappers` | words, paragraphs, `Option` |

Floats are exact reals and integers; the clock is an input, nondecreasing where a statement says so. SHA-256,
SHA3-512, JSON serialisation, `str.lower`, the character classes of `re` and the expansion of replacement
templates are parameters; statements name the facts about them they need, only for the values at hand.

## What the code promises but does not do

Each of these has the exact condition under which the promise holds, named first, and an instance where it fails,
named second.

- The tunnel rewriter's documentation calls it idempotent. It is exactly on quiet pages whose base tag goes in
  within the first 8000 lower-cased characters; a later one is put in again by every pass
  (`QuietPagesAreIdempotent`; `LatePageGrows`). A page is quiet if rewritten attributes start inside the path of an
  attribute that is never closed only where that path is under the prefix already, and the same holds for
  attributes that the next pass sees opened by the quote behind a path that ends in an attribute name and `=`
  (`SecondPassChangesNothingExactly`; `LoosePage`, `NamedPageChanges`).
- Blanks around the `=` of a rewritten attribute are lost: taking the inserted text out again gives the page back exactly
  if there are none (`UnwriteUndoesExactly`, which also says what comes back; `LoosePage` has such blanks).
- The limit of 50 peers is passed exactly by an answer to a handshake, which is not checked against it
  (`LimitIsPassedExactly`; `AnswerPassesLimit`).
- The limit on remote workloads can be exceeded exactly when there are two or more connections
  (`LimitCanBePassed`, which constructs the run).
- A late valid result for a workload that already failed or expired is still paid (`ResultPaysExactlyWhen`;
  `ExpiredIsPaid`).
- A proof is made for one piece of completed work, but verifying it looks only at the data: it is paid again for every
  further workload that serialises like the first, while it is in its window (`PaidAgainExactly`,
  `PaidTwiceOnlyForEquals`; `OneProofIsPaidTwice`).
- The 0.7 cap on attention never takes effect: the core's excess is handed back to it
  (`AttentionIsWellShared`; `ReflectionPassesTheCap`).
- The circuit breaker trips only while the last success is less than 300 seconds old, so during an outage it trips at
  most once, and from the end of that cool-down on every call is made (`BeginDoesExactly`, `OutageTripsOnce`;
  `CallsGoOnFailing`).
- A narration of blanks only loses its scene's duration (`ClockIsRightExactly`; `BlankSceneIsLost`).
- A failing job stops the drain of the work queue (`DrainStopsExactly`, `DrainEmptiesExactly`; `FailureStopsDrain`).
- Registering a function again, or repeating a tag, makes the tag index disagree with the registry for good
  (`StepAgreesExactly`, `HistoryAgreesExactly`; `AutoRegistrationTwice`).
- A trimmed prompt can be too long for the very test it has just gone through (`TrimmedFitsExactly`;
  `LongPromptStaysTooLong`).
- A mission asks the whole network for agents, but only the broadcaster's own peers can join it there. With free agents
  as they are at the broadcast it can start exactly if one of its peers has one and its peers have enough of them,
  counting two of each at most; if agents become free meanwhile, exactly if it has a peer and needs no more than two
  for each (`CanStartExactly`, `CanEverStartExactly`; `IdlePeerNeverStarts`, `LineNeverStarts`).

## Model

| member | source | states |
|---|---|---|
| ArtifactStore.PutKeepsIntact | reference/saige_p2p.py:212-231 | storing keeps every file under the hash of its bytes and every entry under its own hash, and, unless the new bytes collide with stored ones, every recorded size equal to the byte count |
| ArtifactStore.PutKeepsFiles | reference/saige_p2p.py:221-229 | storing never replaces stored bytes and never shrinks the catalog |
| ArtifactStore.StoreThenRetrieve | reference/saige_p2p.py:212-247 | retrieving under the returned hash gives bytes of that hash, and the stored bytes exactly unless they collide with earlier ones |
| ArtifactStore.RetrievedExactly | reference/saige_p2p.py:233-253 | a file is found exactly under a known name of 64 lower-case hex digits, behind which one line break is let through |
| ArtifactStore.SharedMetadata | reference/saige_p2p.py:217-229 | with a metadata object that is already an entry, the catalog stays filed under its own hashes exactly if it was the entry of no other hash |
| ArtifactStore.ContentStore.Store | reference/saige_p2p.py:212-231 | the object updated in place, shared metadata included, is what the store as a value becomes |
| ArtifactStore.ContentStore.StoreNew | reference/saige_p2p.py:1357-1371 | with a metadata object of its own, as all callers have, storing is the plain value-level store |
| ArtifactStore.ContentStore.RetrieveBytes | reference/saige_p2p.py:233-247 | the stored bytes for a well-formed known hash, otherwise nothing |
| ArtifactStore.ContentStore.GetMeta | reference/saige_p2p.py:255-257 | the catalog entry of a hash, or nothing |
| RateLimit.PrunedListRefinesHistory | reference/saige_p2p.py:569-581 | with a nondecreasing clock the pruned lists refuse a message exactly when 100 messages of its sender were accepted in the 60 seconds before it |
| RateLimit.WindowBound | reference/saige_p2p.py:569-581 | every half-open 60 second window holds at most 100 accepted messages of a sender |
| RateLimit.SendersAreIndependent | reference/saige_p2p.py:572-580 | leaving out all other senders' messages changes neither a sender's verdicts nor its list |
| MeshNode.BatchIsRequestedWhole | reference/saige_p2p.py:957-974 | of a catalog message of at most 50 entries exactly the non-empty hashes the node lacks are requested and marked pending: the slice drops nothing |
| MeshNode.CatalogIsAnnounced | reference/saige_p2p.py:1210-1216 | every hash in the catalog is in one of the messages sent |
| MeshNode.SendCatalogIsSmall | reference/saige_p2p.py:1214-1216 | no catalog message has more than 50 entries |
| MeshNode.BatchesExactly | reference/saige_p2p.py:1210-1216 | the catalog is cut at every fiftieth entry, in order |
| MeshNode.RequestedExactly | reference/saige_p2p.py:957-974 | of a longer message the first 50 missing hashes are requested, in order, and become pending |
| SaigeNode.SAIGENode.HandleMessage | reference/saige_p2p.py:787-833 | rate limit, authentication and handler together do to the node object what `MeshNode.Receive` does to its value |
| SaigeNode.SAIGENode.CheckRateLimit | reference/saige_p2p.py:569-581 | pruning, test and append on the table in place |
| SaigeNode.SAIGENode.SendCatalogTo | reference/saige_p2p.py:1210-1216 | the loop over the catalog sends the batches of the specification |
| SaigeNode.SAIGENode.BroadcastTo | reference/saige_p2p.py:778-785 | the loop tells every peer except the excluded one, in table order |
| SaigeNode.SAIGENode.HandshakeReceived | reference/saige_p2p.py:837-895 | a wrong token changes nothing; a right one authenticates, and registers unless the table is full |
| SaigeNode.SAIGENode.HandshakeAckReceived | reference/saige_p2p.py:897-932 | a right token authenticates and registers, with no look at the limit |
| SaigeNode.SAIGENode.CatalogSyncReceived | reference/saige_p2p.py:957-974 | the missing hashes, at most 50, become pending and are requested |
| SaigeNode.SAIGENode.ArtifactRequested | reference/saige_p2p.py:980-993 | an artifact with content and metadata is sent back, any other request is not answered |
| SaigeNode.SAIGENode.ArtifactReceived | reference/saige_p2p.py:995-1020 | only a pending hash is consumed, and only content of that hash with metadata is stored |
| SaigeNode.SAIGENode.ArtifactAnnounced | reference/saige_p2p.py:1022-1027 | an unknown hash becomes pending and is requested |
| SaigeNode.SAIGENode.MissionReceived | reference/saige_p2p.py:1029-1064 | an unknown mission is recorded under its sender, joined with at most two free agents, and forwarded to all other peers |
| SaigeNode.SAIGENode.MissionJoined | reference/saige_p2p.py:1066-1091 | the volunteer is listed, and the node the mission is its own starts it and tells all peers as often as a join finds enough agents |
| SaigeNode.SAIGENode.MissionResultReceived | reference/saige_p2p.py:1093-1110 | the result is recorded under its node, and completes the mission once there are as many as joined nodes |
| SaigeNode.SAIGENode.MissionStatusReceived | reference/saige_p2p.py:1112-1117 | a known mission takes over the status sent, if one is |
| SaigeNode.SAIGENode.BroadcastMission | reference/saige_p2p.py:1428-1451 | the node records itself as originator and tells every peer |
| SaigeNode.SAIGENode.PublishArtifact | reference/saige_p2p.py:1349-1382 | the artifact is stored and announced to every peer |
| MeshIntegrity.IntegrityOnEveryRun | reference/saige_p2p.py:212-247 | on every run with arbitrary messages, drops and repeats: files hash to their names, entries are filed under their own hash, and sizes agree unless contents that occur collide |
| MeshIntegrity.StoredBytesNeverChange | reference/saige_p2p.py:221-247 | what a hash retrieves never changes once it is stored |
| MeshIntegrity.PublishThenRetrieve | reference/saige_p2p.py:1349-1382 | after any later run the published bytes come back under their hash, exactly unless they collided |
| MeshIntegrity.RemoteArtifactWasRequested | reference/saige_p2p.py:995-1020 | an artifact a message brings in was requested in an earlier step, and its content has the requested hash |
| MeshIntegrity.OneAnswerPerRequest | reference/saige_p2p.py:1001-1005 | answers consumed for a hash, plus one while it is pending, are at most the requests sent for it |
| MeshAccess.AuthenticatedExactly | reference/saige_p2p.py:837-932 | on every run a sender is authenticated exactly if it was at first or has presented the node's own, non-empty token in a handshake or an answer to one |
| MeshAccess.PeersPresented | reference/saige_p2p.py:837-932 | every peer that was not registered at first has presented it |
| MeshAccess.StepRegisters | reference/saige_p2p.py:837-932 | an event registers exactly the sender that presents it, after a handshake only while there are fewer than 50 peers, and only a lost connection takes one away |
| MeshAccess.WrongTokenIsRefused | reference/saige_p2p.py:841-848 | a handshake or answer with any other token changes nothing and is not answered |
| MeshAccess.StrangersGetNothing | reference/saige_p2p.py:787-813 | of anything else an unauthenticated sender sends only the rate limiter takes note |
| MeshAccess.TokenGoesToHolders | reference/saige_p2p.py:837-895 | the node's token leaves it only in the answer to a handshake that presents it |
| MeshAccess.GuestsAreTold | reference/saige_p2p.py:850-895 | a welcome guest gets that answer first, then the other peers if there are any, then the whole catalog; with 50 peers there, nothing |
| MeshAccess.OwnStepsExactly | reference/saige_p2p.py:1266-1451 | what publishing, scanning, starting a mission and losing a connection do to the node, and what it sends |
| MeshAccess.LimitIsPassedExactly | reference/saige_p2p.py:897-932 | from at most 50 peers an event leads to more exactly if there are 50 and a new peer answers a handshake with the token |
| MeshAccess.AnswerPassesLimit | reference/saige_p2p.py:897-932 | with 50 peers such an answer makes 51 |
| MeshNetwork.DeliveryIsHonest | reference/saige_p2p.py:957-1027 | delivering any message in flight keeps all stores intact, all messages in flight answerable, and shrinks no catalog |
| MeshGossip.CoverEndsInStore | reference/saige_p2p.py:957-1020 | a hash announced, requested or answered between two nodes is in the receiver's store once everything is delivered, in whatever order |
| MeshGossip.RoundDelivers | reference/saige_p2p.py:957-1020 | after a finished round every receiver holds every non-empty artifact its sender had, and no catalog shrank |
| MeshConvergence.AnswersShrinkMissing | reference/saige_p2p.py:995-1017 | no delivery adds a missing (node, hash) pair and each answer to an open request for a missing hash removes one |
| MeshConvergence.RunsAreBounded | reference/saige_p2p.py:957-1020 | a round ends: gossip messages cause at most their total weight of deliveries |
| MeshConvergence.RoundsFillBall | reference/saige_p2p.py:1210-1216 | after k rounds a non-empty artifact is at every node within k links |
| MeshConvergence.DiameterRoundsGiveUnion | reference/saige_p2p.py:1210-1220 | on a graph of diameter d, d rounds give every node exactly the union of all catalogs, the empty artifact aside |
| MeshLabels.LabelsAreGiven | reference/saige_p2p.py:957-1020 | whatever the rounds, an entry anywhere has the file name, project and date that some node had for that hash at the start |
| MeshLabels.StoredExactly | reference/saige_p2p.py:212-231 | storing files the content with its own hash, length and label, and leaves everything else alone |
| MeshLabels.AnsweredExactly | reference/saige_p2p.py:980-993 | a request is answered exactly if content that is not empty and an entry are there, with both |
| MeshLabels.ReceivedExactly | reference/saige_p2p.py:995-1020 | an answer to an open request closes it, and is stored exactly if it has content and metadata and the content has the hash asked for |
| MeshLabels.PublishedExactly | reference/saige_p2p.py:1349-1382 | publishing stores the content and tells every peer its hash, in table order |
| MeshLimits.GatesPassOrDrop | reference/saige_p2p.py:787-833 | a message from an authenticated sender with fewer than 100 on record in 60 s does what its handler does; any other leaves node and pending requests as they were |
| MeshLimits.GatedIsDelivered | reference/saige_p2p.py:787-833 | so delivery through the gates is delivery or loss, but for the limiters' own records |
| MeshLimits.DropsOnlyDelay | reference/saige_p2p.py:957-1020 | on a graph of diameter d, once d rounds went through without a drop, whatever was dropped in others, every node has exactly the union of all catalogs, the empty artifact aside |
| MeshTraffic.NothingIsDropped | reference/saige_p2p.py:569-581 | in a run between nodes that authenticated each other no message is dropped if at most 100 of a sender's, those on record at the start included, reach a receiver within 60 s |
| MeshTraffic.ModerateRoundIsClean | reference/saige_p2p.py:1210-1220 | so a round over links whose ends authenticated each other, with traffic within that limit, drops nothing |
| MeshTraffic.ModerateRoundsGiveUnion | reference/saige_p2p.py:957-1020 | on a graph of diameter d, once the traffic of d rounds was within the limit, whatever happened in others, every node has exactly the union of all catalogs, the empty artifact aside |
| MeshTraffic.PendingThroughDrops | reference/saige_p2p.py:957-1020 | a hash that was requested stays pending, whatever is dropped, until the artifact is there |
| MissionFlood.FloodIsBounded | reference/saige_p2p.py:1029-1091 | on a connected graph with n nodes and E edges, among any other traffic, at most 2E - (n - 1) broadcasts of a mission are sent and at most 2E messages about it are delivered, plus one status for each peer of the broadcaster and each node that joined there, of which there are no more than it has peers |
| MissionFlood.StartsExactlyWhenStaffed | reference/saige_p2p.py:1066-1091 | at every moment of a run the broadcaster has it active exactly if nodes have joined there with enough agents, and those are peers that heard from it first, with at most two agents each |
| MissionFlood.LineNeverStarts | reference/saige_p2p.py:1428-1451 | on a line of three nodes a mission from one end that needs the default of four agents never starts |
| MissionFlood.FloodReachesAll | reference/saige_p2p.py:1428-1451 | once nothing about it is under way every node knows the mission, after exactly 2E - (n - 1) broadcasts |
| MissionFlood.SendersFormTree | reference/saige_p2p.py:1038-1044 | at every moment the recorded senders lead from each node that knows to the broadcaster, over links, in fewer than n steps |
| MissionFlood.ForwardsOnce | reference/saige_p2p.py:1035-1064 | in any run each node forwards the mission at most once, and the broadcaster not at all |
| MeshLabels.MissionIsTheSame | reference/saige_p2p.py:1029-1064 | wherever a mission gets, it has the objective and the number of agents it was broadcast with |
| MeshLabels.MissionReceivedExactly | reference/saige_p2p.py:1038-1064 | a mission not heard of before is recorded as recruiting under the sender, with at most two free agents, who are offered to the sender |
| MeshLabels.ResultsAndStatusExactly | reference/saige_p2p.py:1093-1117 | a result is recorded under its node and completes the mission exactly if there are then as many as joined nodes; a status is taken over; neither is passed on |
| MissionStart.CanStartExactly | reference/saige_p2p.py:1047-1091 | from a broadcast among any other traffic, with the numbers of free agents left alone, some run has the mission active exactly if some peer of the broadcaster has a free agent and the sum of min(2, free agents) over its peers is at least the number required |
| MissionStart.HeardFirstStartsExactly | reference/saige_p2p.py:1047-1091 | every such run that ends with nothing about the mission under way, and in which each peer heard from the broadcaster first, has it active exactly under that condition |
| MissionStart.QuietIsActiveExactly | reference/saige_p2p.py:1047-1091 | whoever heard from whom first: once nothing is under way it is active exactly if the peers that heard from the broadcaster first have a free agent, and enough of them |
| MissionStart.CanEverStartExactly | reference/saige_p2p.py:1047-1091 | if free agents may change during the run, some run has it active exactly if the broadcaster has a peer and at most two agents are required for each |
| MissionStart.RunsOut | reference/saige_p2p.py:1029-1117 | from any state of a run, delivering what is under way about the mission comes to an end |
| MissionStart.IdlePeerNeverStarts | reference/saige_p2p.py:1047-1091 | two nodes, two agents required, and none free at the peer: no run has it active |
| LockStep.LocksAreNeverContended | reference/p2p_economy_bridge.py:592-597 | when no task holds a lock across an await, after every schedule all locks are free and each turn runs from one await to the next |
| LockStep.HandlersAreSteps | reference/p2p_economy_bridge.py:499-862 | any number of the bridge's handlers, scheduled in any order: between turns all locks are free, no turn waits for one, and a result, claim, reject, cleanup or look of a waiter is at its start or over; a request can rest between its capacity check and its increment |
| PopProof.GenerateThenVerify | reference/p2p_economy_bridge.py:964-1047 | a generated proof verifies for the same workload, result and miner at exactly the times from 60 s before to 600 s after its stamp |
| PopProof.AcceptedExactlyWhen | reference/p2p_economy_bridge.py:996-1047 | unless the serialisations collide, a generated proof is accepted exactly when both serialisations match, the miner matches if one is expected, and the stamp is in the window |
| PopProof.ProofServesOneWorkload | reference/p2p_economy_bridge.py:1012-1041 | a proof accepted twice was accepted for the same serialised workload and result, the same miner if expected, and within 660 s, unless the serialisations collide |
| PopProof.TamperingIsDetected | reference/p2p_economy_bridge.py:990-1010 | two proofs that pass under one proof hash are equal, unless they collide |
| PopProof.VerifiedExactly | reference/p2p_economy_bridge.py:996-1047 | a proof verifies exactly if its own hash covers its other fields, its two hashes are those of work and result, its miner is the expected one if one is, and its stamp, or 0, is at most 60 s ahead and 600 s behind |
| PopProof.CoveredExactly | reference/p2p_economy_bridge.py:964-990 | the eight fields of a proof before its own hash is added, and no others |
| PopProof.GeneratedExactly | reference/p2p_economy_bridge.py:990-994 | a generated proof is those fields and the hash of their serialisation |
| Workloads.StepAdvances | reference/p2p_economy_bridge.py:748-862 | the only changes of a workload: pending to claimed, not completed to failed, expired if too old, not completed to completed |
| Workloads.NoWayBack | reference/p2p_economy_bridge.py:748-862 | over any run a workload never gets back to pending or claimed after leaving them, and `completed` is absorbing |
| WorkloadSteps.WorkloadExactly | reference/p2p_economy_bridge.py:748-862 | which events change a known workload, to which status, and which of its fields they set |
| WorkloadSteps.ResultsExactly | reference/p2p_economy_bridge.py:576-599 | a result is stored exactly when a good one comes in, and leaves exactly when somebody asks for it, who then has it |
| Standing.PeersExactly | reference/p2p_economy_bridge.py:603-635 | a compute peer joins by announcing itself and leaves by a cleanup more than 600 s after its last announcement |
| Standing.StandingExactly | reference/p2p_economy_bridge.py:785-862 | a peer's reputation rises by 0.05, to 1 at most, for an accepted result, falls by a fifth for a proof that fails and by a tenth for a reject, and moves by nothing else; the counters follow |
| Standing.DispatchExactly | reference/p2p_economy_bridge.py:162-171 | work is recorded exactly if some other peer says it is available, said so less than 300 s ago, has room, and has a reputation above 0.3 |
| Standing.ExpiredExactly | reference/p2p_economy_bridge.py:192-197 | a cleanup expires exactly what was claimed more than 120 s ago or is unclaimed for more than 300 s |
| Standing.StandingsAreFair | reference/p2p_economy_bridge.py:785-862 | on every run reputations stay from 0 to 1 if the announced ones are, and one without a delivery is at most 0.9 to the power of its failures |
| Standing.TwelveFailuresExclude | reference/p2p_economy_bridge.py:162-171 | so after twelve failures without a delivery a peer gets no more work |
| PayOnce.ResultPaysExactlyWhen | reference/p2p_economy_bridge.py:769-832 | a result causes the reward call exactly when its workload is known and not completed and its proof verifies |
| PayOnce.PaidAndDeliveredOnce | reference/p2p_economy_bridge.py:576-599 | on every run each workload has exactly one reward if completed and none otherwise, each for a verified result, and its result is stored or was handed out, once |
| RewardTrail.RunIsTraced | reference/p2p_economy_bridge.py:769-842 | on every run each reward goes to the wallet, for the key, result, duration and proof of a result message that came in when it was paid, for the data and kind of an earlier dispatch of that workload; each stored or handed-over record names the sender, wallet, duration and key of a result message with its result |
| WorkloadSteps.RewardsExactly | reference/p2p_economy_bridge.py:812-832 | with a blockchain each good result for a workload not completed adds one reward, to its wallet; nothing else adds any |
| PayOnce.PaidTwiceOnlyForEquals | reference/p2p_economy_bridge.py:769-842 | on every run, two payments on one proof are for different workloads that serialise alike, with results that do, at most 660 s apart, and for one wallet if both name one, unless the serialisations collide |
| PayOnce.PaidAgainExactly | reference/p2p_economy_bridge.py:996-1047 | on every run, a proof already paid is paid again exactly for a known workload not completed that serialises alike, with a result that does, for its own miner and within its window |
| PayOnce.ExpiredIsPaid | reference/p2p_economy_bridge.py:785-832 | a run in which a workload expires and is then paid |
| PayOnce.OneProofIsPaidTwice | reference/p2p_economy_bridge.py:785-832 | a run in which one proof is paid for two workloads |
| BoundedLife.DecidedInTime | reference/p2p_economy_bridge.py:192-197 | if cleanup runs at least every d seconds, no workload is pending or claimed from created_at + 420 + 2d on |
| EconomyBridge.P2PEconomyBridge.DispatchWorkload | reference/p2p_economy_bridge.py:499-574 | a workload is recorded as pending exactly when some other peer is available |
| EconomyBridge.P2PEconomyBridge.ComputeAnnounced | reference/p2p_economy_bridge.py:603-635 | a known peer is updated in the announced fields, a new one gets all of them |
| EconomyBridge.P2PEconomyBridge.ComputeClaimed | reference/p2p_economy_bridge.py:748-764 | only a pending workload changes, in place, to claimed by the sender now |
| EconomyBridge.P2PEconomyBridge.ComputeResulted | reference/p2p_economy_bridge.py:769-842 | check, verification, completion, stored result, reward and reputation as one step |
| EconomyBridge.P2PEconomyBridge.ComputeRejected | reference/p2p_economy_bridge.py:846-862 | a workload not completed fails, and the sender loses a tenth of its reputation |
| EconomyBridge.P2PEconomyBridge.PollResult | reference/p2p_economy_bridge.py:589-595 | a stored result leaves with the waiter; a failed workload without one is reported |
| EconomyBridge.P2PEconomyBridge.CleanupExpired | reference/p2p_economy_bridge.py:1057-1075 | exactly the overdue workloads expire and the stale peers go |
| MiningCapacity.CounterIsExactAndBounded | reference/p2p_economy_bridge.py:637-677 | the counter is the number of unfinished mining tasks, so the clipping at zero never acts, and with c connections it stays at most max - 1 + c |
| MiningCapacity.RequestsExactly | reference/p2p_economy_bridge.py:637-677 | a request is taken exactly if work is accepted, the counter is below the limit and the deadline has not passed, and what it, a claim that went out and mining that ends do to the counter |
| MiningCapacity.OneConnectionKeepsTheLimit | reference/p2p_economy_bridge.py:642-670 | with one connection the configured limit holds |
| MiningCapacity.LimitCanBePassed | reference/p2p_economy_bridge.py:642-670 | some run passes the limit exactly if there are two or more connections, and max - 1 + c is reached |
| MiningCapacity.MiningSlots.ComputeRequested | reference/p2p_economy_bridge.py:637-668 | the handler up to its suspension at the send, or to its end when there is nobody to send to |
| MiningCapacity.MiningSlots.ClaimWasSent | reference/p2p_economy_bridge.py:670-677 | the rest of a suspended handler increments without a second look |
| MiningCapacity.MiningSlots.MiningEnded | reference/p2p_economy_bridge.py:745-746 | the end of a task takes one off, clipped at zero |
| HtmlRewrite.FoundMatches | repryntt/cloud_runner.py:43-50 | the search finds only what the pattern describes: a name at a word boundary, blanks, `=`, blanks, a quote, a path with one leading slash, a quote |
| HtmlRewrite.MatchesFound | repryntt/cloud_runner.py:43-50 | and it finds everything the pattern describes, so there is one match at most at a place |
| HtmlRewrite.StableIsFixed | repryntt/cloud_runner.py:67-75 | a page all of whose attributes are under the prefix is returned unchanged |
| HtmlRewrite.RewrittenMatches | repryntt/cloud_runner.py:70-72 | a rewritten attribute matches again, with the prefix in front of its old path |
| HtmlIdempotence.NewMatchExactlyWhenNested | repryntt/cloud_runner.py:67-75 | a rewrite creates a match where there was none exactly when it starts inside the path of an unclosed attribute, which its quote then closes |
| HtmlQuiet.NestedIsPassed | repryntt/cloud_runner.py:67-75 | where the first pass closed an attribute under the prefix, the next pass goes on behind its quote, with the path that was written there |
| HtmlQuiet.ClosingIs | repryntt/cloud_runner.py:67-75 | how the path of an attribute that opens just before a text ends in what the first pass writes can be read off the text: by which quote, after which path, and with what behind it |
| HtmlQuiet.BehindExactly | repryntt/cloud_runner.py:67-75 | behind a rewritten path the next pass goes on in step, unless the path ends in an attribute name and `=` |
| HtmlQuiet.InsideExactly | repryntt/cloud_runner.py:67-75 | inside the attribute that then opens nothing is rewritten exactly if it stays open or its path is under the prefix, and the rest is quiet |
| HtmlQuiet.StableExactlyWhenQuiet | repryntt/cloud_runner.py:67-75 | for every page, after one pass nothing is left to rewrite exactly if the page is quiet |
| HtmlIdempotence.FixedIsStable | repryntt/cloud_runner.py:67-75 | a page the substitution returns unchanged has all its attributes under the prefix |
| HtmlQuiet.SecondPassChangesNothingExactly | repryntt/cloud_runner.py:53-75 | for every page, the substitution is idempotent on it exactly if the page is quiet |
| HtmlIdempotence.TightIsCalm | repryntt/cloud_runner.py:43-50 | on a page without blanks around the `=` of rewritten attributes none starts inside an unclosed one |
| HtmlQuiet.CalmIsQuiet | repryntt/cloud_runner.py:67-75 | a page without rewritten attributes inside unclosed ones is quiet |
| HtmlRestore.RestoreUndoesExactly | repryntt/cloud_runner.py:67-75 | deleting the inserted prefixes, at their places, gives the page back exactly if no rewritten attribute has blanks around its `=` |
| HtmlRestore.RestoreTightens | repryntt/cloud_runner.py:67-75 | for every page it gives the page without those blanks |
| TunnelRewrite.StableSplits | repryntt/cloud_runner.py:43-50 | a page cut behind a `>` can be judged part by part, since no match holds one |
| TunnelRewrite.BaseTagIsStable | repryntt/cloud_runner.py:78-84 | the injected base tag is not rewritten itself |
| TunnelRewrite.InjectedIsSeen | repryntt/cloud_runner.py:77-84 | the next pass sees the injected tag exactly if it starts early enough in the lower-cased page |
| TunnelRewrite.SameHeadEnd | repryntt/cloud_runner.py:78-84 | the first head tag does not depend on what follows it, so a second injection goes to the same place |
| TunnelRewrite.SubstituteSplits | repryntt/cloud_runner.py:67-75 | a page cut behind a `>` can be rewritten part by part |
| TunnelRewrite.InjectionDiffers | repryntt/cloud_runner.py:77-84 | a pass that injects a base tag never returns the page it was given, whatever else it rewrites |
| TunnelRewrite.RewriteIsIdempotentExactly | repryntt/cloud_runner.py:53-87 | for every page, rewriting twice is rewriting once exactly if the substitution is done after one pass and no base tag is put in late |
| TunnelRewrite.QuietPagesAreIdempotent | repryntt/cloud_runner.py:53-87 | for every page, rewriting twice is rewriting once exactly if the page is quiet and no base tag is put in late |
| TunnelRewrite.TightPagesAreIdempotent | repryntt/cloud_runner.py:53-87 | without blanks around `=`, exactly if no base tag is put in late |
| TunnelRewrite.UnwriteUndoesExactly | repryntt/cloud_runner.py:53-87 | deleting the base tag and the inserted prefixes gives the page without the blanks around the `=` of rewritten attributes, and so the page itself exactly if it has none |
| TunnelShape.AttributeIsRewritten | repryntt/cloud_runner.py:43-75 | any spelling of href, src, action or formaction at a word boundary, with a quoted path of one leading slash, comes out with the prefix in front of the path and no blanks around its `=`, or as it is if the path is under the prefix; what follows is rewritten by itself |
| TunnelShape.OthersAreCopied | repryntt/cloud_runner.py:43-75 | every character at which no such attribute starts is copied |
| TunnelShape.HeadEndIsFirst | repryntt/cloud_runner.py:78-84 | the base tag goes in behind the first head tag, in any spelling |
| TunnelShape.RewriteExactly | repryntt/cloud_runner.py:53-87 | what is returned for any page and prefix: the rewritten page, with `<base href="prefix/">` behind the first head tag unless the window has a base tag |
| TunnelPages.LoosePage | repryntt/cloud_runner.py:53-87 | a page with a rewritten attribute inside an unclosed path that is not under the prefix: a second pass changes it |
| TunnelPages.NamedPageChanges | repryntt/cloud_runner.py:53-87 | a page where that path is under the prefix, but the inner path ends in `href=`: a second pass changes it |
| TunnelPages.LatePageGrows | repryntt/cloud_runner.py:77-84 | a page with a late head that the second pass changes |
| Continuation.Complete | repryntt/cloud_runner.py:140-192 | the loop with its exits gives the outcome and sends the requests of the specified run |
| Continuation.EveryRequestIsInRange | repryntt/cloud_runner.py:149-152 | one to eight requests, each for what is left of the budget but for 1 to 16000 tokens, whatever the service answers |
| Continuation.RunGoesOnExactly | repryntt/cloud_runner.py:150-191 | another request follows exactly after a reply with text that was cut off, with budget left and fewer than eight sent |
| Continuation.AnswerIsTheChunks | repryntt/cloud_runner.py:182-192 | an error reply raises; otherwise the answer is the texts in order and the usage is theirs, an empty last reply not counted |
| Continuation.OutputStaysInBudget | repryntt/cloud_runner.py:149-189 | if no reply uses more than was asked, the output, an empty last reply included, is at most min(budget, 128000) |
| Continuation.FullRepliesUseTheBudget | repryntt/cloud_runner.py:149-189 | if all replies are full and cut off, the output is exactly min(budget, 128000) |
| Continuation.ConversationIsWellFormed | repryntt/cloud_runner.py:153-159 | every request starts with what the user asked for, alternates and ends on the user; the assistant turn is all text so far without trailing blanks, empty exactly if all of it is blank |
| Attention.AttentionAllocator.DistributeAttention | reference/saige_consciousness_daemon.py:1355-1383 | the whole pipeline on dictionaries, kept as the current allocation |
| Attention.AttentionAllocator.AdjustForConsciousnessFactors | reference/saige_consciousness_daemon.py:1451-1485 | energy, curiosity and readiness applied in place, key by key |
| Attention.AttentionAllocator.AdjustForSystemState | reference/saige_consciousness_daemon.py:1385-1404 | stress and active chains applied, then normalised |
| Attention.AttentionAllocator.ApplyAttentionConservation | reference/saige_consciousness_daemon.py:1491-1510 | capping by the loop, the difference to the core |
| Attention.ConservationKeepsTotal | reference/saige_consciousness_daemon.py:1491-1510 | conservation keeps the total and caps every subsystem but the core |
| Attention.CapHoldsExactly | reference/saige_consciousness_daemon.py:1495-1508 | after conservation of normalised shares all are at most 0.7 exactly if the core's share going in was |
| Attention.ConservationIsIdleExactly | reference/saige_consciousness_daemon.py:1491-1510 | conservation changes nothing exactly if no subsystem but the core is above the cap |
| Attention.DemandIsBounded | reference/saige_consciousness_daemon.py:1385-1485 | before normalising, for every focus and all inputs: no negative demand, none but the core above 0.7 of the total, the brain at least 4/15 with active chains, the core above 0.7 exactly in one listed situation |
| Attention.AttentionIsWellShared | reference/saige_consciousness_daemon.py:1355-1510 | final shares are non-negative and add up to 1, all but the core's at most 0.7, the brain's at least 4/15 with active chains; the core's is above 0.7 exactly when reflecting without chains under low readiness, low energy or stress |
| Attention.ReflectionPassesTheCap | reference/saige_consciousness_daemon.py:1355-1510 | an input on which the core ends up with 90 parts in 114 |
| AttentionNumbers.SharesInNumbers | reference/saige_consciousness_daemon.py:1355-1510 | for every focus and all inputs the final share of each subsystem is its weight, listed subsystem by subsystem, over the sum of all |
| CircuitBreaker.Daemon.BeginCall | reference/saige_consciousness_daemon.py:4052-4075 | blocked, tripping or starting, with the state each leaves |
| CircuitBreaker.Daemon.EndCall | reference/saige_consciousness_daemon.py:4113-4142 | a success is dated back to the start of its call, also if it then cannot be logged, which counts as a failure |
| CircuitBreaker.Daemon.ResetCircuitBreaker | reference/saige_consciousness_daemon.py:2326-2331 | a reset by hand counts as a success now |
| CircuitBreaker.Daemon.CountParseFailure | reference/saige_consciousness_daemon.py:3646-3648 | an answer that cannot be parsed counts as a failure |
| CircuitBreaker.NoCallDuringCoolDown | reference/saige_consciousness_daemon.py:4055-4066 | on every run no AI call starts in the 300 s after a trip unless the breaker was reset by hand since |
| CircuitBreaker.TripsAreEarned | reference/saige_consciousness_daemon.py:4068-4075 | between any two trips there are at least five counted failures, and a success or reset by hand dated no earlier than the first |
| CircuitBreaker.TripsNeedRecovery | reference/saige_consciousness_daemon.py:4068-4075 | between any two trips there is a success or a reset by hand |
| CircuitBreaker.BeginDoesExactly | reference/saige_consciousness_daemon.py:4052-4075 | on every run a begin with no call in progress trips exactly if no trip is in effect, at least five failures were counted since the last success, reset or end of a cool-down, and the last success or reset is dated less than 300 s back; it is blocked exactly in the 300 s after a trip not reset; otherwise a call starts |
| CircuitBreaker.OutageTripsOnce | reference/saige_consciousness_daemon.py:4052-4075 | after a trip with no success and no reset since, every begin is blocked for 300 s and every later one starts a call |
| CircuitBreaker.CallsGoOnFailing | reference/saige_consciousness_daemon.py:4052-4075 | a run with one trip and then any number of failing calls, the next of which still starts |
| Text.ParagraphsJoin | reference/saige_consciousness_daemon.py:2180 | splitting at empty lines loses nothing |
| Text.WordsOfJoin | reference/saige_consciousness_daemon.py:2217 | splitting joined words gives the words back |
| PromptTrim.OptimizeForTokenLimit | reference/saige_consciousness_daemon.py:2171-2200 | the sections collected one by one are the specified prompt |
| PromptTrim.TrimContextToTokens | reference/saige_consciousness_daemon.py:2206-2219 | the loop keeps as many words as fit |
| PromptTrim.FittingIsMost | reference/saige_consciousness_daemon.py:2212-2217 | the words kept are within the limit and one more would not be |
| PromptTrim.FittingIsUnchanged | reference/saige_consciousness_daemon.py:2173-2177 | a prompt that fits already is returned unchanged |
| PromptTrim.TrimmedWords | reference/saige_consciousness_daemon.py:2179-2200 | its words are those of the first section, then of the second if both are estimated within the limit, then as many of the third as fit |
| PromptTrim.TrimmedText | reference/saige_consciousness_daemon.py:2179-2200 | a trimmed prompt is the first section, the second behind it exactly if the two are estimated within the limit, and the first words of the third behind them if more than 500 tokens are left |
| PromptTrim.ResultFitsExactly | reference/saige_consciousness_daemon.py:2171-2204 | the result is estimated within the limit exactly if the first paragraph alone is, the rounding of each estimate notwithstanding |
| PromptTrim.TrimmedFitsExactly | reference/saige_consciousness_daemon.py:2173-2204 | a trimmed prompt passes its own test exactly if the word counts of the first three paragraphs and the limit satisfy a given inequality; it is never too long by a token if the first paragraph is within the limit |
| PromptTrim.LongPromptStaysTooLong | reference/saige_consciousness_daemon.py:2009-2204 | at the limit of 4000, of paragraphs of 1, 1 and 4000 words 3077 words are kept, estimated at 4000.1 tokens |
| Subtitles.GenerateSrt | reference/video_production.py:1872-1915 | the loops write the rendering of the specified timeline |
| Subtitles.ClockIsDurations | reference/video_production.py:1886-1913 | at every scene boundary the clock is the sum of the durations so far less those of blank narrations |
| Subtitles.ClockIsRightExactly | reference/video_production.py:1886-1913 | it is the sum at every boundary exactly if no blank narration has a duration |
| Subtitles.BlankSceneIsLost | reference/video_production.py:1886-1913 | a blank scene of ten seconds, after which the next subtitle is ten seconds early |
| Subtitles.SceneIsFilled | reference/video_production.py:1893-1908 | the cues of a scene follow each other without a gap from its start to its end, each as long as its share of the words |
| Subtitles.CuesAreTheNarration | reference/video_production.py:1884-1909 | over the episode the cues' words are the narrations' words in order, one to ten a cue, numbered from 1, and never overlap if no duration is negative |
| SubtitleCues.SceneExactly | reference/video_production.py:1884-1913 | the cues a scene adds in closed form: all but the last of ten words, numbered on, each with its words and its share of the time; without narration its duration, with a blank one nothing |
| SubtitleFile.FileReadsBack | reference/video_production.py:1872-1924 | the file splits at its empty lines into one block for each cue, which gives back number, times in milliseconds and text |
| Subtitles.ClockFields | reference/video_production.py:1918-1924 | minutes, seconds and milliseconds are in range and the fields add up to the time in milliseconds, rounded down |
| Subtitles.ClockIsMonotone | reference/video_production.py:1918-1924 | later times never print as earlier ones |
| Subtitles.PrintedTimeIsRead | reference/video_production.py:1918-1924 | the printed text of a time reads back as that time in milliseconds, rounded down |
| StableSort.SortIsSorted | reference/consciousness_nervous_system.py:127 | the sorted list is in order |
| StableSort.SortIsStable | reference/consciousness_nervous_system.py:127 | elements with equal keys keep their order |
| StableSort.StableOrderIsUnique | reference/consciousness_nervous_system.py:127 | a sorted stable rearrangement is unique, so it is what any stable sort returns |
| WorkQueue.SubmitInsertsBehindEquals | reference/consciousness_nervous_system.py:116-127 | append and sort is insertion behind the last request of the same or a higher priority |
| WorkQueue.RunIsOrderly | reference/consciousness_nervous_system.py:116-139 | on every run the queue is in order of priority and submission, and what was submitted is what is pending and what was taken |
| WorkQueue.TakeIsEarliestOfHighest | reference/consciousness_nervous_system.py:132-139 | every pop takes the earliest submission of the highest pending priority |
| WorkQueue.EachIsTakenOnce | reference/consciousness_nervous_system.py:116-139 | no request is taken twice or lost |
| WorkQueue.DrainEmptiesExactly | reference/consciousness_nervous_system.py:258-264 | a drain empties the queue exactly if no request but possibly the last one fails |
| WorkQueue.DrainStopsExactly | reference/consciousness_nervous_system.py:258-264 | whatever is submitted meanwhile, the drain goes on exactly as long as no request it took failed and it met no empty queue, and no request is lost |
| WorkQueue.DrainEnds | reference/consciousness_nervous_system.py:258-264 | it is over once it has looked more often than there were requests at first and submissions since |
| WorkQueue.UndisturbedDrain | reference/consciousness_nervous_system.py:258-264 | with no submissions it takes the requests up to and including the first that fails |
| WorkQueue.FailureStopsDrain | reference/consciousness_nervous_system.py:258-264 | two requests, the first of which fails: the other stays in the queue |
| WorkQueue.ConsciousnessNervousSystem.SubmitWorkRequest | reference/consciousness_nervous_system.py:100-130 | a new pending request is in the queue at its place |
| WorkQueue.ConsciousnessNervousSystem.ProcessWorkQueue | reference/consciousness_nervous_system.py:132-167 | the first request leaves the queue and ends completed or failed, and who was told what |
| WorkQueue.ConsciousnessNervousSystem.Drain | reference/consciousness_nervous_system.py:258-264 | the loop takes requests up to the first that fails, all with their final status |
| CapabilityIndex.HistoryIsSound | reference/map_sync_network.py:84-98 | in any history every function is found under each of its current tags |
| CapabilityIndex.StepAgreesExactly | reference/map_sync_network.py:84-98 | after a registration all tag lists equal the scans of the registry exactly if they did before and the call repeats no tag and, for a known name, replaces an entry without tags that stands behind all others with its new tags |
| CapabilityIndex.HistoryAgreesExactly | reference/map_sync_network.py:84-98 | over a history index and scan agree exactly if every call is of that kind |
| CapabilityIndex.FreshNamesAgree | reference/map_sync_network.py:84-98 | they agree if no name is registered twice and no call repeats a tag |
| CapabilityHistory.LastCallWins | reference/map_sync_network.py:62-98 | over any history the entry of a name is what its last call gave, and no other name is there |
| CapabilityHistory.RegisterExactly | reference/map_sync_network.py:62-98 | a registration puts a new name last, and the name behind the others in the list of each tag, once for each time the tag is given |
| CapabilitySearch.CategoriesPartition | reference/map_sync_network.py:206-211 | the category lists hold every function exactly once, in its own category |
| CapabilitySearch.SearchIsStableTop | reference/map_sync_network.py:165-198 | keyword search returns the best `limit` of the positive scores, best first, the earlier registered first among equals, and leaves out nothing better |
| CapabilityRanking.AnswersAreRanked | reference/map_sync_network.py:165-198 | every answer is a registered function with its entry and a tenth of its points, 10 for the description, 5 for each place of a matching tag and 3 for the category; they come by points, the earlier registered first among equals |
| CapabilityRanking.CandidatesAreAnswered | reference/map_sync_network.py:165-198 | a function is a candidate exactly if the intent occurs in its description or category or one of its tags and the intent contain one another; one that is not returned stands behind `limit` others |
| CapabilityRanking.BetterComesFirst | reference/map_sync_network.py:165-198 | a function with more points is returned in front of one with fewer |
| CapabilityRanking.Weights | reference/map_sync_network.py:165-198 | the description outweighs one tag with or without the category and equals two tags, one tag more outweighs the category |
| CapabilityRanking.NegativeLimit | reference/map_sync_network.py:187-190 | a negative limit leaves off that many of the last |
| CapabilitySearch.ExtractedTagsAreGood | reference/map_sync_network.py:382-407 | the extracted tags are never empty and never repeat |
| CapabilityRanking.TagsExactly | reference/map_sync_network.py:382-407 | a tag is extracted exactly if one of its words occurs in the lower-cased name and description, `general` exactly if none is |
| CapabilityRanking.CategoryExactly | reference/map_sync_network.py:359-380 | the category is the first whose words occur in the lower-cased name, or `utility` |
| CapabilityHistory.ToolsAreRegistered | reference/map_sync_network.py:328-357 | after auto-registration each tool has its description, category and tags, in order |
| CapabilitySearch.AutoRegistrationAgrees | reference/map_sync_network.py:328-357 | after registering the brain system's tools once, index and scan agree |
| CapabilitySearch.AutoRegistrationTwice | reference/map_sync_network.py:328-357 | after registering them twice they do not |
| MapSyncNetwork.MapSyncNetwork.RegisterFunction | reference/map_sync_network.py:62-98 | registry and index updated in place, tag by tag |
| MapSyncNetwork.MapSyncNetwork.AutoRegisterFromBrainSystem | reference/map_sync_network.py:328-357 | one registration for each tool, in order |
| MapSyncNetwork.MapSyncNetwork.ListFunctionsByTag | reference/map_sync_network.py:213-215 | the list of the tag, or none |
| MapSyncNetwork.MapSyncNetwork.ListFunctionsByCategory | reference/map_sync_network.py:206-211 | the names of the category, in registration order |
| MapSyncNetwork.MapSyncNetwork.QueryCapabilities | reference/map_sync_network.py:164-198 | the scoring loop, the sort and the cut give the specified search results |

## Left out

- MeshNetwork.DeliveryIsHonest: delivery runs the handler alone; rate limit and authentication in front of it are in `MeshLimits`.
- MeshConvergence.DiameterRoundsGiveUnion: a round is finished when all its messages are delivered; `MeshLimits.DropsOnlyDelay` allows for rounds in which messages were dropped at the gates. Lost links and restarts between rounds are not modelled.
- MeshLimits.DropsOnlyDelay: which rounds lose nothing is given there; `MeshTraffic.ModerateRoundIsClean` says when.
- MissionFlood.FloodIsBounded: every message about the mission is delivered; one that a rate limit drops is not sent again. Missions are values in a map, updated as such.
- TunnelRewrite.RewriteIsIdempotentExactly: for prefixes that start with exactly one slash and hold no quotes, blanks, angle brackets or backslashes, like the other theorems about pages; what a template with backslashes expands to is a parameter.
- SaigeNode.SAIGENode.HandleMessage: a handler runs as one step; other handlers that run while one of its sends is suspended are not modelled, nor are heartbeats, peer lists, agent lists and knowledge queries.
- SaigeNode.SAIGENode.BroadcastTo: every peer in the table has an open socket; a peer without one is skipped by the source.
- SaigeNode.SAIGENode.HandshakeReceived: the wait for the peer lock between the look at the limit and the registration, in which another handshake may register, is left out.
- SaigeNode.SAIGENode.ArtifactReceived: content is bytes; text that the source encodes first, and the copy for local agents in the workspace, are left out.
- EconomyBridge.P2PEconomyBridge.DispatchWorkload: the peer chosen first and the broadcast are left out; fees, wallets of the submitter and statistics too. Peers are values in a map, updated as such.
- EconomyBridge.P2PEconomyBridge.ComputeAnnounced: the wallet, device and memory fields of a peer are left out; no modelled decision reads them.
- WorkQueue.ConsciousnessNervousSystem.Drain: the method drains with nobody submitting meanwhile; `DrainStopsExactly` is about drains with submissions in between.
- WorkQueue.DrainEmptiesExactly: with nobody submitting during the drain, like `Drain`.
- LockStep.HandlersAreSteps: a handler is the list of its lock and await steps, written beside the methods that say what it does; the list is not derived from them.
- BoundedLife.DecidedInTime: for clocks that start after zero, since the source takes a claim time of zero for no claim.
- CircuitBreaker.NoCallDuringCoolDown: a call that starts is one the guard lets through, whether or not writing its input log then fails before the request.
- PromptTrim.TrimContextToTokens: the running sum of 1.3 is exact here; in floating point it drifts.
- Files, sockets, msgpack, mDNS, HTTP and JSON parsing; a file is a map entry, a message a value. Loading a catalog from disk is left out.
- The base64 response around the page rewriter and its choice of the prefix.
- The endpoint, headers, temperature and model name of a completion request.
- Reward minting, blocks and the chain; a reward is an entry in a list. If the reward call raises, the source logs it and goes on, as here.
- Language models, prompts, embeddings and vector search; texts that come from outside are inputs.
- Emotions, hormones, focus choice and directives of the daemon; the attention allocator gets its focus and factors as inputs.
- Exception paths on values that are no numbers, in the allocator and elsewhere, except where a statement names them.
- Aliasing of the lists the registry stores and hands out.
- Monotone mission status, which the code does not keep.
