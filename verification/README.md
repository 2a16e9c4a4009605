# MeshCompute, modelled and proved in Dafny

MeshCompute is a peer-to-peer inference network. A control plane hands out work and credits it; every
node keeps a replica of a credit chain; nodes fetch model files from each other in verified chunks; a
tracker makes sure that one node per update wave pays for the download from origin; a scheduler decides
which nodes serve a request; and each node moves itself from one model version to the next. This project
models those six pieces and proves what they promise.

`dafny verify dfyconfig.toml` checks everything.

## Reading order

| files | what they hold |
|---|---|
| `Bytes`, `Rounding`, `Fields`, `Streams` | big-endian fields, Python's `round` over the reals, struct layouts, self-delimiting messages |
| `Merkle`, `Receipts`, `Ledger`, `ChainSafety` | the credit chain: Merkle root, block and chain validation, balances, fork choice, and what a verified chain means |
| `ControlPlane`, `Accounting`, `TwoLedgers`, `ReceiptReuse` | nonces, receipts and credits in the control plane, their agreement with the chain, and how often a receipt can be credited |
| `Rendezvous`, `PeerFetch`, `OriginElection` | the tracker, a node's polling loop, and both together as one step relation |
| `Content`, `ChunkWire`, `Swarm`, `SwarmSafety`, `Retries` | chunk ids, chunk frames, the seeder's and the leecher's loop, and the two against each other |
| `Topology`, `Scheduler`, `SchedulerSafety`, `PlanCost`, `Feasibility` | measured links, candidate plans, what the choice guarantees, what plans cost, and when there is none |
| `Changeover`, `CrashSafety`, `NodeLife`, `Destinations` | files on disk, state.json, start-up and version change, with a crash between any two steps; a running node; and where files go |
| `Frames`, `FrameStream`, `Stun` | the binary frame, the length-prefixed stream, the STUN client |

Objects that the program updates in place are classes (`Ledger.Chain`, `ControlPlane.Server`,
`Rendezvous.Rendezvous`, `Swarm.Leecher`, `Changeover.NodeDaemon`, `FrameStream.Connection`,
`Topology.TopologyGraph`); their methods are proved equal to specification functions, and the lemmas are
about those functions. BLAKE3, Ed25519, canonical JSON, CRC-32 and zlib are parameters. Where a result
needs a hash without collisions, that is a hypothesis about the strings actually hashed, never about all
strings. Times, rates, deltas and credits are reals.

## What the code does not keep

Eight promises fail on some inputs. The code is modelled as it is; an input on which it fails is given for
each, and the condition under which it does what is promised, exactly where the text says so.

- `pick_best_chain` is documented to discard invalid chains. A public key that does not parse raises
  `ValueError`, which is not caught. The choice raises exactly when some candidate holds such a key where
  verification gets to see it: the blocks before it verify, and so does what is looked at before it in its own
  block (`ChainSafety.ChainRaisesIff`, `ChainSafety.PickBestChain`). Candidates whose keys all parse never raise it
  (`ChainSafety.ParsingKeysNeverRaise`).
- A receipt's nonce is to be credited at most once, ever. `verify_block` compares an entry's own nonce with the
  nonces of the chain and never with the nonce inside its receipt: entries for one receipt verify exactly when
  the receipt is genuine and their own nonces are distinct, unseen and not empty (`ReceiptReuse.CopiesVerifyIff`),
  and each of them is credited (`ReceiptReuse.OneReceiptCreditedManyTimes`). A rule on entry nonces keeps the
  promise exactly when it admits one entry nonce per receipt nonce (`ReceiptReuse.RuleKeepsPromiseIff`). Equality
  is such a rule (`ReceiptReuse.OwnNoncesCreditOnce`), and the entries made from the control plane's receipts
  follow it (`ReceiptReuse.ReceiptEntriesCarryOwnNonces`).
- One origin download per wave holds exactly in the runs in which no newcomer sorts before a node already at
  origin. A repeated reading of the tracker's clock is enough to break it
  (`OriginElection.OneOriginIffUndisplaced`, `OriginElection.TieMakesTwoOrigins`).
- A peer that answers with other bytes under their own id is believed (`SwarmSafety.WrongBytesPoison`). A file
  poisoned so is refused at the end if the manifest pins its hash, and returned as complete, with wrong bytes,
  if the hash is pending (`SwarmSafety.HonestLeechCompletesIffUnpoisoned`). Trying again does not repair it
  (`SwarmSafety.PoisonPersists`). A chunk that fits no frame ends the transfer
  (`SwarmSafety.HonestTransfer`, exactly).
- Start-up deletes the files of every other channel without the check that `record_channel` makes. It loses
  nothing exactly when none of its own files is one of them or named like the sidecar of one
  (`CrashSafety.StartUpListsIff`); where no file is named like a sidecar, exactly when no file is shared
  (`CrashSafety.StartUpListsIffNoneShared`). The manifest's hash covers
  the alias and twelve digits of a hash of it name the directory, so two aliases share a file exactly when those
  digits collide, and version, repository and file name are spelt alike (`Destinations.SharedIff`,
  `Destinations.SharedFileIsLost`).
- `Frame.encode` bounds the compressed payload and `Frame.decode` the decompressed one: exactly the frames of
  `Frames.UndecodableIff` encode and cannot be decoded, such as those of `Frames.OverCapStillEncodes`.
- `plan` is to raise only if no plan is feasible. It looks at one choice of nodes per strategy: any replica, the
  two splitters of most free VRAM, the first two replicas that can form a pod, and the drafts of the fastest
  replica. It raises exactly when none of these works out (`Feasibility.PlanRaisesIff`), and raises on a request
  that could be served exactly when in addition a strategy passes over a split, a pod or a draft that would do
  (`Feasibility.PlanMissesIff`; a request for each: `Feasibility.SplitIsMissed`, `Feasibility.PodIsMissed`,
  `Feasibility.DraftIsMissed`). A caller that can execute single nodes misses splits only
  (`Feasibility.SingleCallersMissOnlySplits`), and one that executes nothing else, as the gateway, misses nothing
  (`Feasibility.SingleOnlyNeverMissed`). No split is ever missed exactly when no splitter outside the two can use
  more memory than either of them (`SchedulerSafety.NoSplitMissedIff`).
- Chunk ids tell two positions of equal offset and bytes apart exactly when manifest hash and path contain no
  NUL (`Content.UnambiguousIffNulFree`); real manifest hashes contain none.

## Model

| member | source | states |
|---|---|---|
| Merkle.ComputeRoot | packages/protocol/meshcompute_protocol/ledger.py:63-73 | the loop that rebuilds `level` computes the root defined by recursion over levels |
| Merkle.RootBinds | packages/protocol/meshcompute_protocol/ledger.py:63-73 | equally many leaves with equal root are equal leaf by leaf, if no two strings hashed for them collide |
| Merkle.RepeatedLastLeaf | packages/protocol/meshcompute_protocol/ledger.py:70-71 | repeating the last of an odd number of leaves, three or more, keeps the root, so the entry count has to be checked too |
| Merkle.RootOfHalves | packages/protocol/meshcompute_protocol/ledger.py:68-73 | over two equal halves of a power of two the root hashes the left half's root and then the right half's |
| Merkle.SmallRoots | packages/protocol/meshcompute_protocol/ledger.py:66-73 | nothing, one leaf, and three leaves of which the last is hashed with itself |
| Bytes.FirstByteCountsMost | packages/protocol/meshcompute_protocol/frames.py:7 | fields are big-endian: the first byte is the most significant |
| Receipts.CreditIs | packages/protocol/meshcompute_protocol/ledger.py:82-92 | failed and cancelled work earns nothing, other work its tokens, or without tokens its GPU seconds to the nearest thousandth |
| Receipts.CreditOnGrid | packages/protocol/meshcompute_protocol/ledger.py:82-92 | every credit is a whole number of thousandths |
| Ledger.VerifyBlock | packages/protocol/meshcompute_protocol/ledger.py:126-190 | finds the first fault in the source's order of checks; on success exactly the block's nonces are added, on failure none |
| Ledger.Chain.Append | packages/protocol/meshcompute_protocol/ledger.py:227-230 | accepts a block exactly when the longer chain verifies from genesis; a refused block changes nothing; the remembered nonces are those of all verified work |
| Ledger.Chain.VerifyFull | packages/protocol/meshcompute_protocol/ledger.py:232-238 | full verification from genesis, independent of what the replica remembers |
| Ledger.Chain.Balances | packages/protocol/meshcompute_protocol/ledger.py:240-245 | the dictionary holds, for exactly the accounts that occur, the entry by entry rounded balance |
| Ledger.FromBlocks | packages/protocol/meshcompute_protocol/ledger.py:204-209 | appending one by one accepts exactly the block lists that full verification accepts, with the same fault otherwise |
| ChainSafety.VerifiedIffSound | packages/protocol/meshcompute_protocol/ledger.py:126-190 | a chain verifies exactly when every header is linked and signed, every entry is backed or takes credit away, and no nonce of verified work occurs twice in the chain |
| ChainSafety.EntryFaultIffWithoutReceipts | packages/protocol/meshcompute_protocol/ledger.py:154-189 | without receipts the rules on earning, spending and nonces still hold, exactly |
| ChainSafety.BlockHashBinds | packages/protocol/meshcompute_protocol/ledger.py:111-112 | blocks of equal hash have equal headers and equal entries up to receipts |
| ChainSafety.HeadBindsHistory | packages/protocol/meshcompute_protocol/ledger.py:219-238 | valid chains of equal height and head hash agree on every header, and on every entry up to its receipt |
| ChainSafety.ChainRaisesIff | packages/protocol/meshcompute_protocol/ledger.py:126-190 | verification raises ValueError exactly when a key that does not parse stands where verification gets to see it: on top of blocks that verify, after the header checks before the producer's key, or at the first entry not passed |
| ChainSafety.ParsingKeysNeverRaise | packages/protocol/meshcompute_protocol/ledger.py:193-196 | if every producer's and every receipt's key in the candidates parses, no key raises ValueError |
| ChainSafety.PickBestChain | packages/protocol/meshcompute_protocol/ledger.py:251-264 | returns the longest valid chain, of the smallest head hash among those, the first of them in the candidates' order; raises ValueError exactly when verification of some candidate meets a key that does not parse, and ChainError exactly when no candidate is valid |
| ChainSafety.FirstBestIsLongest | packages/protocol/meshcompute_protocol/ledger.py:251-264 | over the candidates themselves: the one picked verifies, none that verifies is higher, none of its height has a smaller head hash, and none before it has the same height and hash |
| ChainSafety.ForkChoiceIgnoresOrder | packages/protocol/meshcompute_protocol/ledger.py:251-264 | the history chosen does not depend on the order of the candidates |
| ChainSafety.MalformedKeyOutweighsValidChain | packages/protocol/meshcompute_protocol/ledger.py:256-261 | a concrete candidate list with a valid chain on which the choice raises |
| ChainSafety.NoMinting | packages/protocol/meshcompute_protocol/ledger.py:154-176 | in a valid chain a balance exceeds the credits behind the account's entries, each receipt counted once per entry, by at most 1.5e-6 per entry |
| ReceiptReuse.OneReceiptCreditedManyTimes | packages/protocol/meshcompute_protocol/ledger.py:177-183 | on top of any valid chain, a block with k entries for one genuine receipt, under k nonces the chain has not seen, verifies, and adds k times the receipt's credit to the balance |
| ReceiptReuse.CopiesVerifyIff | packages/protocol/meshcompute_protocol/ledger.py:154-183 | on top of a valid chain a block of entries for one receipt verifies exactly when the receipt is genuine and the entries' own nonces are distinct, not empty and unseen |
| ReceiptReuse.RuleKeepsPromiseIff | packages/protocol/meshcompute_protocol/ledger.py:177-183 | a rule relating entry nonce and receipt nonce makes every valid chain that follows it credit each receipt nonce once exactly when it admits at most one entry nonce per receipt nonce |
| ReceiptReuse.OwnNoncesCreditOnce | packages/protocol/meshcompute_protocol/ledger.py:12-13 | the rule of equality: in a valid chain whose verified work carries its receipts' nonces, no receipt nonce is credited twice |
| ReceiptReuse.OwnNoncesAreARule | packages/protocol/meshcompute_protocol/ledger.py:12-13 | equality admits one entry nonce per receipt nonce, and following it is carrying the receipts' nonces |
| ReceiptReuse.NoMintingOverReceipts | packages/protocol/meshcompute_protocol/ledger.py:12-13 | under that condition a balance exceeds the sum over the account's distinct receipts by at most 1.5e-6 per entry |
| ReceiptReuse.ReceiptEntriesCarryOwnNonces | apps/control-plane/meshcompute_control/app.py:379-395 | the chains made from the control plane's accepted receipts meet that condition |
| ControlPlane.Server.RegisterNode | apps/control-plane/meshcompute_control/app.py:214-227 | the whole new state of a registration: key derivation, signature, stored key, issued nonce, eviction from a full bucket |
| ControlPlane.Server.ReceiveHeartbeat | apps/control-plane/meshcompute_control/app.py:244-254 | a signed heartbeat of a known node issues one nonce; any other changes nothing |
| ControlPlane.Server.IssueNonce | apps/control-plane/meshcompute_control/app.py:203-209 | at most 64 outstanding nonces: one that was in the full bucket is dropped |
| ControlPlane.Server.PutReceipt | apps/control-plane/meshcompute_control/store.py:175-189 | inserts unless the receipt id, or the node with that nonce, is already there |
| ControlPlane.Server.SubmitReceipt | apps/control-plane/meshcompute_control/app.py:361-396 | every refusal in order leaves the state alone; an accepted receipt adds one row to each table and uses up its nonce |
| ControlPlane.Server.RestartProcess | apps/control-plane/meshcompute_control/app.py:200 | a restart forgets the outstanding nonces and nothing else |
| ControlPlane.Server.StorePlan | apps/control-plane/meshcompute_control/store.py:210-216 | a scheduled plan is stored under its id, and nothing else changes |
| ControlPlane.Server.Balance | apps/control-plane/meshcompute_control/store.py:202-207 | the sum of the node's rows |
| Accounting.CreditedIff | apps/control-plane/meshcompute_control/app.py:361-396 | over the tables: exactly when a receipt is credited, and with what |
| Accounting.CreditedWorkWasScheduled | apps/control-plane/meshcompute_control/app.py:371-387 | over every run: a credited receipt names a plan that some event had stored and that was in force, whose chain holds its node and whose model is its own, and its GPU time fits the time it took |
| Accounting.ScheduledWorkIsCredited | apps/control-plane/meshcompute_control/app.py:361-396 | a node that registers, is scheduled and sends a genuine receipt with its nonce is paid, whatever went before |
| Accounting.IssuedIff | apps/control-plane/meshcompute_control/app.py:214-254 | exactly when a registration or a heartbeat is given a nonce |
| Accounting.AtMost64Outstanding | apps/control-plane/meshcompute_control/app.py:200-209 | over every run no node has more than 64 outstanding nonces |
| Accounting.HeartbeatIssues | apps/control-plane/meshcompute_control/app.py:244-254 | a heartbeat gives a registered node a nonce that it can use, and touches no table |
| Accounting.RestartVoids | apps/control-plane/meshcompute_control/app.py:200 | a restart voids every outstanding nonce and keeps the tables |
| TwoLedgers.EveryRunKeepsInvariant | apps/control-plane/meshcompute_control/app.py:200-227 | over every run with fresh draws, restarts included, each credited nonce was issued to the node that used it and is credited once, and there is one credit row per receipt |
| TwoLedgers.TableConstraint | apps/control-plane/meshcompute_control/store.py:175-189 | without any assumption on the draws, no node is credited twice for a nonce and no receipt id twice |
| TwoLedgers.ProducedHeaders | packages/protocol/meshcompute_protocol/ledger.py:115-123 | blocks produced one on top of the other have linked, signed, committed headers |
| TwoLedgers.BalancesAgree | apps/control-plane/meshcompute_control/store.py:202-207 | the rounded replay of the receipts equals the plain sum of the table, for every node |
| TwoLedgers.LedgersAgree | apps/control-plane/meshcompute_control/app.py:361-396 | after any such run, the accepted receipts split into blocks in any way make a chain that verifies, with the table's balances |
| Rendezvous.Rendezvous.AnnouncePeer | apps/control-plane/meshcompute_control/rendezvous.py:79-127 | the new peer table, the peers listed with their roles, and the origin leader; a bad signature changes nothing |
| Rendezvous.OthersAre | apps/control-plane/meshcompute_control/rendezvous.py:106-115 | exactly the other peers with a role relative to what the announcer wants are listed |
| Rendezvous.RoleIs | apps/control-plane/meshcompute_control/rendezvous.py:106-115 | who is a seeder and who a leecher, hash by hash, also for an announcer that wants nothing |
| Rendezvous.ListedIff | apps/control-plane/meshcompute_control/rendezvous.py:107-115 | over the peer table: exactly which peers are listed in which role |
| Rendezvous.LeaderIs | apps/control-plane/meshcompute_control/rendezvous.py:120-125 | for any announce: no leader where nothing is wanted or somebody has some of it, else the first to want the smallest hash |
| Rendezvous.AnnouncedIs | apps/control-plane/meshcompute_control/rendezvous.py:96-100 | an announce replaces its own entry, keeps the first time of each hash still wanted, and leaves every other entry |
| Rendezvous.EarliestIs | apps/control-plane/meshcompute_control/rendezvous.py:122-125 | the leader is the one candidate of smallest time and id; nobody is named only when nobody is a candidate |
| Rendezvous.AnswerForOneHash | apps/control-plane/meshcompute_control/rendezvous.py:96-127 | what a node that wants one hash is told, in terms of who seeds it and who wants it since when |
| PeerFetch.Fetch | node/daemon/meshcompute_node/daemon.py:284-316 | returns with the first decisive answer, after at most 122 announces, for any tracker and any size |
| PeerFetch.DecisionIs | node/daemon/meshcompute_node/daemon.py:299-305 | the file is there exactly when a listed seeder delivered; otherwise the node waits exactly for another leader, until its deadline |
| PeerFetch.AllowanceIs | node/daemon/meshcompute_node/daemon.py:290-291 | a minute up to 120 MiB, half an hour from 3600 MiB, a second for each 2 MiB between |
| OriginElection.OneOriginIffUndisplaced | apps/control-plane/meshcompute_control/rendezvous.py:96-127 | at most one node goes to origin in exactly the runs in which no newcomer sorts before a node at origin |
| OriginElection.AtMostOneOrigin | node/daemon/meshcompute_node/daemon.py:284-316 | with a strictly advancing tracker clock at most one node per wave goes to origin |
| OriginElection.SomeoneFetches | node/daemon/meshcompute_node/daemon.py:284-316 | while nobody seeds a wanted file, exactly one node is at origin |
| OriginElection.TieMakesTwoOrigins | apps/control-plane/meshcompute_control/rendezvous.py:123-125 | two polls at one clock reading, the smaller id second, send two nodes to origin |
| Content.PreimageInjective | packages/protocol/meshcompute_protocol/content.py:20-33 | equal preimages of NUL-free manifests and paths have equal manifest, path, offset and bytes |
| Content.PreimageParts | packages/protocol/meshcompute_protocol/content.py:25-32 | where manifest hash, path, offset and chunk stand in the hashed string |
| Content.NulMakesAmbiguous | packages/protocol/meshcompute_protocol/content.py:26-31 | with a NUL, different positions have one preimage |
| Content.UnambiguousIffNulFree | packages/protocol/meshcompute_protocol/content.py:26-31 | no other manifest and path have the same preimage, at the same offset and bytes, exactly when both are free of NUL |
| Content.VerifyAcceptsOnlyTheChunk | packages/protocol/meshcompute_protocol/content.py:36-39 | an id accepts exactly the chunk it was computed for, unless the two preimages collide |
| ChunkWire.RequestRoundTrip | node/runtime/meshcompute_runtime/swarm.py:95-97 | a request frame can always be sent and is parsed as the offset that was asked for |
| ChunkWire.ReplyRoundTrip | node/runtime/meshcompute_runtime/swarm.py:104-106 | a reply is parsed as it was printed, and can be sent exactly when its data leave room for 72 bytes under the payload cap |
| ChunkWire.ReplyLayout | node/runtime/meshcompute_runtime/swarm.py:95-106 | eight bytes of offset, 64 of id, and the data |
| ChunkWire.ParsesIff | node/runtime/meshcompute_runtime/swarm.py:95-96 | frames of another class, or too short, are no requests and no replies |
| ChunkWire.ParsedReplyPrints | node/runtime/meshcompute_runtime/swarm.py:207-211 | the payload of a usable reply is, byte for byte, the print of the fields parsed from it |
| Swarm.SeedFile | node/runtime/meshcompute_runtime/swarm.py:82-108 | the loop serves the requests up to the first bad one, or raises at the first answer that fits no frame, and counts the bytes it sent |
| Swarm.ChunksCoverFile | node/runtime/meshcompute_runtime/swarm.py:55-56 | the number of chunks ends the chunk range exactly where the file ends |
| Swarm.Leecher.PassChunk | node/runtime/meshcompute_runtime/swarm.py:184-224 | one pass: an intact chunk is kept, any other is requested, verified, written in place, recorded and saved |
| Swarm.Leecher.LeechFile | node/runtime/meshcompute_runtime/swarm.py:155-231 | file, sidecar, requests and outcome of the whole call, for any peer and any answer to the handshake or none, on every exit |
| SwarmSafety.StepEffect | node/runtime/meshcompute_runtime/swarm.py:184-224 | a pass changes only bytes, record and requests of its own chunk, and ends well exactly when the chunk is then recorded and verifies |
| SwarmSafety.LoopEffect | node/runtime/meshcompute_runtime/swarm.py:182-224 | against any peer: chunks before the stop are recorded and verify, no intact chunk is asked for, and requests number at most tries times missing chunks |
| Retries.PassOutcome | node/runtime/meshcompute_runtime/swarm.py:198-222 | over the peer's answers: a missing chunk is fetched exactly when one of the first `tries` answers is good and nothing before it decides; StreamEnded and ChunkVerifyError are as exact, and so are the number of requests and what is written and recorded |
| Retries.RetriesComplete | node/runtime/meshcompute_runtime/swarm.py:182-222 | a peer that never answers badly `tries` times in a row completes the transfer |
| Retries.KeepsWhatIsRecorded | node/runtime/meshcompute_runtime/swarm.py:174-193 | from a file of the full size, a chunk whose bytes have the id the sidecar records is kept as it is and never asked for |
| Retries.StartsOver | node/runtime/meshcompute_runtime/swarm.py:175-178 | of a file of any other size every chunk is fetched again |
| Retries.CompletesOnlyAsPinned | node/runtime/meshcompute_runtime/swarm.py:226-231 | the call completes with a digest exactly when the loop did, the file has it, and a pinned hash is it |
| Retries.SeederAnswersChunksOnly | node/runtime/meshcompute_runtime/swarm.py:97-99 | the seeder stops at exactly the offsets where no chunk begins |
| SwarmSafety.RerunRefetchesNothingIntact | node/runtime/meshcompute_runtime/swarm.py:174-193 | from any file and any sidecar, so after an interruption anywhere, no recorded and intact chunk is asked for, whoever the peer is |
| SwarmSafety.LoopSavesWhatIsIntact | node/runtime/meshcompute_runtime/swarm.py:219-222 | what is intact when the loop ends is recorded on disk, for the next run to find |
| SwarmSafety.HonestTransfer | node/runtime/meshcompute_runtime/swarm.py:155-231 | with an honest seeder the loop completes exactly when every missing chunk fits a frame; it then asks once per missing chunk in order, and ends with the source exactly when no kept chunk differs from it |
| SwarmSafety.HonestLeechCompletesIffUnpoisoned | node/runtime/meshcompute_runtime/swarm.py:226-231 | the outcome of the call, pinned or pending: with a pinned hash the source exactly when the partial file is not poisoned and a refusal otherwise, with a pending one always complete, with wrong bytes exactly when poisoned |
| SwarmSafety.WrongBytesPoison | node/runtime/meshcompute_runtime/swarm.py:209-221 | for any missing chunk, a peer that answers other bytes of the right length under their own id leaves the transfer poisoned |
| SwarmSafety.TrueRecordsAreUnpoisoned | node/runtime/meshcompute_runtime/swarm.py:187-193 | records that are ids of the source's chunks never poison, whatever happened to the bytes on disk |
| SwarmSafety.HashTellsChunksApart | packages/protocol/meshcompute_protocol/content.py:20-33 | ids of different contents at one place differ wherever the hash tells their two preimages apart |
| SwarmSafety.PoisonPersists | node/runtime/meshcompute_runtime/swarm.py:187-193 | a poisoned file stays poisoned, and once a run went through, the next asks for nothing |
| SwarmSafety.ServedPlusKeptIsSize | node/runtime/meshcompute_runtime/swarm.py:82-108 | where every missing chunk fits a frame, the seeder answers every request, and bytes served plus bytes kept make the file's size |
| Topology.TopologyGraph.SetLink | apps/control-plane/meshcompute_control/topology.py:49-63 | one measurement decides its own direction, the other one only while unmeasured, and no other link |
| Scheduler.Cheapest | apps/control-plane/meshcompute_control/scheduler.py:353-354 | the earliest candidate of smallest score |
| Scheduler.Assign | apps/control-plane/meshcompute_control/scheduler.py:388-410 | the assignment of every node of the chain, for each strategy |
| Scheduler.MakePlan | apps/control-plane/meshcompute_control/scheduler.py:221-386 | a plan is made exactly when there is a candidate, and it is the earliest one of smallest score |
| Scheduler.AllowanceIsAFifth | apps/control-plane/meshcompute_control/scheduler.py:89-93 | the KV allowance is a fifth of the weights for each 32768 tokens of context, in whole bytes |
| Scheduler.UsableIs | apps/control-plane/meshcompute_control/scheduler.py:95-99 | free VRAM, or all VRAM where none is free, or RAM where there is none |
| Scheduler.FitsIff | apps/control-plane/meshcompute_control/scheduler.py:81-102 | a node fits if it can load the first-listed quantization and its allowance |
| Scheduler.UnrestrictedExecutesAll | apps/control-plane/meshcompute_control/scheduler.py:247-250 | a caller that names no strategy can execute all of them |
| Scheduler.LanClassIff | apps/control-plane/meshcompute_control/topology.py:29-32 | what counts as one LAN; an unmeasured link never does |
| PlanCost.EveryScoreIsTheCost | apps/control-plane/meshcompute_control/scheduler.py:124-219 | over rates, link table and load map: a score is queue, prompt, way and answer of a single node; the sums for a split, a pod and a draft, with the instability of the worst link |
| PlanCost.EveryReportIsTrue | apps/control-plane/meshcompute_control/scheduler.py:124-205 | the time to the first token and the rate that each candidate reports |
| PlanCost.ChosenReplicaIsCheapest | apps/control-plane/meshcompute_control/scheduler.py:268-284 | for a caller of single nodes: no node that runs and fits the model has a smaller sum of load x 256/rate, prompt/prefill, round trip and 256/rate than the chosen one |
| PlanCost.OutdoneNeverChosen | apps/control-plane/meshcompute_control/scheduler.py:268-284 | a node that another one outdoes in rate, distance or load, being nowhere worse, is never chosen |
| PlanCost.BetterOfTwoIsChosen | apps/control-plane/meshcompute_control/scheduler.py:353-354 | of two such nodes the better one is chosen wherever it stands |
| PlanCost.WorstLinkIs | apps/control-plane/meshcompute_control/scheduler.py:116-122 | the worst link is the first one of longest round trip, unless all are as near as one host |
| SchedulerSafety.EveryCandidateSound | apps/control-plane/meshcompute_control/scheduler.py:257-346 | every candidate's strategy is executable, its nodes run a backend of the model and advertise their part, pods are LAN-class, drafts are near the fastest replica, and memory covers weights and KV allowance, alone or jointly |
| SchedulerSafety.SingleFeasibleIff | apps/control-plane/meshcompute_control/scheduler.py:257-273 | for a caller of single nodes, as the gateway is, a plan exists exactly when some node runs the model and fits it |
| SchedulerSafety.SplitOfferedIff | apps/control-plane/meshcompute_control/scheduler.py:286-304 | for every request that may be split: a split is offered exactly when the two splitters of most free VRAM hold the model |
| SchedulerSafety.SplitMissedIff | apps/control-plane/meshcompute_control/scheduler.py:288-299 | a split that some two splitters could hold is missed exactly when those two cannot |
| SchedulerSafety.NoSplitMissedIff | apps/control-plane/meshcompute_control/scheduler.py:288-299 | for a list of splitters, no split is missed, whatever the model needs, exactly when no pair holds more than those two, exactly when no node outside them can use more memory than either |
| SchedulerSafety.SplitOfferedWhereDominated | apps/control-plane/meshcompute_control/scheduler.py:286-304 | for such splitters every request is offered a split exactly when some two of them hold the model |
| SchedulerSafety.FreeVramMissesNoSplit | apps/control-plane/meshcompute_control/scheduler.py:95-99 | splitters that all have free VRAM are such splitters |
| SchedulerSafety.SplitMissed | apps/control-plane/meshcompute_control/scheduler.py:288-299 | four nodes, two of them with RAM only, on which some pair holds the model and nothing can be planned |
| Feasibility.PodOfferedIff | apps/control-plane/meshcompute_control/scheduler.py:307-313 | a tensor pod is offered exactly when the first two replicas that can take part are on a LAN-class link |
| SchedulerSafety.PodIs | apps/control-plane/meshcompute_control/scheduler.py:307-328 | the pod is the first three capable replicas where they are near each other, else the first two where they are |
| Feasibility.PlanRaisesIff | apps/control-plane/meshcompute_control/scheduler.py:348-351 | for every request: plan raises exactly when no replica, not the two splitters of most free VRAM, not the first two pod nodes and not the fastest replica's drafts work out, each where executable |
| Feasibility.PlanMissesIff | apps/control-plane/meshcompute_control/scheduler.py:265-351 | for every request: plan raises although some choice of nodes serves it exactly when it raises and a strategy passes over a split, a pod or a draft that would do |
| Feasibility.PodsHoldPairs | apps/control-plane/meshcompute_control/scheduler.py:166-173 | any larger pod holds one of two, so a request is feasible for pods exactly when some pair is near |
| Feasibility.PlannedIsFeasible | apps/control-plane/meshcompute_control/scheduler.py:265-351 | what is planned is feasible in that sense |
| Feasibility.SingleCallersMissOnlySplits | apps/control-plane/meshcompute_control/scheduler.py:265-351 | for a caller that can execute single nodes, plan raises on a feasible request exactly when there is no replica and a split is passed over |
| Feasibility.SingleOnlyNeverMissed | apps/control-plane/meshcompute_control/scheduler.py:249-255 | for a caller of single nodes alone, plan raises exactly on the infeasible requests |
| Feasibility.SplitIsMissed | apps/control-plane/meshcompute_control/scheduler.py:288-299 | a concrete request on which plan raises although two nodes hold the model |
| Feasibility.PodIsMissed | apps/control-plane/meshcompute_control/scheduler.py:307-313 | a concrete request on which plan raises although the second and third node form a pod |
| Feasibility.DraftIsMissed | apps/control-plane/meshcompute_control/scheduler.py:329-334 | a concrete request on which plan raises although the second fastest replica has a draft near it |
| SchedulerSafety.EachLayerOnce | apps/control-plane/meshcompute_control/scheduler.py:400-410 | for a chain of any length, every layer is in exactly one slice |
| SchedulerSafety.SlicesFollow | apps/control-plane/meshcompute_control/scheduler.py:400-410 | slices begin at 0, end at 64 and follow each other without gap or overlap |
| SchedulerSafety.SlicesAreEven | apps/control-plane/meshcompute_control/scheduler.py:403-408 | every slice but the last has the same share, and the last has what is left |
| SchedulerSafety.WorstLinkIsSlowest | apps/control-plane/meshcompute_control/scheduler.py:116-122 | no link of the chain has a longer round trip than the worst link |
| SchedulerSafety.PipelineOnlyWhereNeeded | apps/control-plane/meshcompute_control/scheduler.py:138-164 | a pipeline is selected only if its first node does not fit the model alone or has a queue |
| SchedulerSafety.MoreNodesNeverHurt | apps/control-plane/meshcompute_control/scheduler.py:268-284 | with single nodes only, more nodes or less load never make a request infeasible and never raise the selected score |
| SchedulerSafety.PodRateBounds | apps/control-plane/meshcompute_control/scheduler.py:175-191 | a tensor pod decodes at least as fast as its slowest member and no faster than all its members together |
| SchedulerSafety.SpeculationNeverSlower | apps/control-plane/meshcompute_control/scheduler.py:193-205 | with a speedup of at least one, a draft never makes the score of its verifier worse |
| Changeover.NodeDaemon.Download | node/runtime/meshcompute_runtime/runtime_installer.py:547-561 | a file comes from the swarm if that reports success and the file is there and matches, else from origin, which ends by moving it into place; either way it is on disk |
| Changeover.NodeDaemon.EnsureModel | node/runtime/meshcompute_runtime/runtime_installer.py:526-562 | on success every file of the target is on disk; on any exit only the target's files and sidecars were touched |
| Changeover.NodeDaemon.DeleteFiles | node/runtime/meshcompute_runtime/runtime_installer.py:363-382 | removes nothing but the given files below the cache root and their sidecars, and exactly those where no unlink fails |
| Changeover.NodeDaemon.SweepOrphans | node/runtime/meshcompute_runtime/runtime_installer.py:441-465 | removes no owned file; where no unlink fails, exactly the unowned model files below the root |
| Changeover.StaleFiles | node/runtime/meshcompute_runtime/runtime_installer.py:350-360 | exactly the files that the alias listed before and that no channel lists once the new version is recorded |
| Changeover.ModelFileIff | node/runtime/meshcompute_runtime/runtime_installer.py:453 | exactly which names the sweep takes for model files |
| Changeover.NodeDaemon.ChangeOver | node/daemon/meshcompute_node/daemon.py:437-483 | a failed swap leaves state.json, version and model files alone; a successful one records the new version only, and where nothing is stuck the files the alias listed before, below the root, that no channel lists now are gone with their sidecars, and nothing else is |
| Changeover.NodeDaemon.PollChannel | node/daemon/meshcompute_node/daemon.py:494-511 | exactly when an offer is ignored; what a round may log; the running version never decreases |
| Changeover.NodeDaemon.StartUp | node/daemon/meshcompute_node/daemon.py:571-608 | a start-up logs download, save, deletion and sweep in this order, or only downloads; it leaves one channel, and where nothing is stuck removes exactly what earlier channels left over, with sidecars, and the other model files below the root |
| CrashSafety.ChangeOverSafe | node/daemon/meshcompute_node/daemon.py:465-477 | after any prefix of a changeover's changes state.json lists only files that exist, and lists the old or the new version |
| CrashSafety.StartUpSafe | node/daemon/meshcompute_node/daemon.py:593-608 | the same for a start-up whose files no other channel shares |
| CrashSafety.StartUpListsIff | node/daemon/meshcompute_node/daemon.py:598-604 | a start-up whose unlinks succeed leaves every listed file in place exactly when none of its files is an abandoned file under the root or named like the sidecar of one |
| CrashSafety.StartUpListsIffNoneShared | node/daemon/meshcompute_node/daemon.py:598-604 | where no file of any channel is named like another one's sidecar: exactly when no file under the root is shared with another channel |
| Destinations.SharedFileIsLost | node/daemon/meshcompute_node/daemon.py:598-604 | two manifests of different aliases and hashes whose twelve digits collide: start-up deletes the file it has just recorded |
| Destinations.SharedIff | node/runtime/meshcompute_runtime/runtime_installer.py:434-438 | starting one model after another shares a file exactly when digits, version and repository are spelt alike and a file name is common |
| CrashSafety.StateJsonNeverDangles | node/daemon/meshcompute_node/daemon.py:437-511 | over any life made of what StartUp and ChangeOver may log, each cut anywhere, every file that state.json lists is on disk, if different models have different destinations |
| Destinations.SameDirIff | node/runtime/meshcompute_runtime/runtime_installer.py:434-438 | two models use one directory exactly when the digits of their hashes, their versions and their repositories are spelt alike |
| Destinations.DashedSplits | node/runtime/meshcompute_runtime/runtime_installer.py:438 | every slash of a repository is spelt as two dashes, and nothing else differently |
| Destinations.ModelsAreDistinct | node/runtime/meshcompute_runtime/runtime_installer.py:434-438 | models whose digits differ across aliases and whose files are not named like sidecars have distinct destinations |
| Destinations.ModelsNeverDangle | node/daemon/meshcompute_node/daemon.py:437-511 | a node that starts from nothing and follows such models never has a state.json that lists a missing file, wherever it crashes |
| CrashSafety.VersionFallsOnlyAtStartUp | node/daemon/meshcompute_node/daemon.py:499-501 | over any life, the version falls exactly when a start-up goes through with a lower one |
| CrashSafety.VersionNeverFallsBetweenStarts | node/daemon/meshcompute_node/daemon.py:494-511 | between two start-ups it never falls, over any number of rounds |
| NodeLife.FollowChannel | node/daemon/meshcompute_node/daemon.py:486-511 | the update loop: its rounds make a life that never polls backwards, with the disk that the life leaves |
| NodeLife.RunProcess | node/daemon/meshcompute_node/daemon.py:591-608 | a whole process, start-up and rounds, over any disk: its life is one of those above, its version is the one that ran last, and state.json lists no missing file if different models have different destinations |
| Fields.UnpackPack | packages/protocol/meshcompute_protocol/frames.py:64 | fixed-layout fields are read back as packed, whatever follows |
| Fields.PackUnpack | packages/protocol/meshcompute_protocol/frames.py:64 | packing what was read gives the same bytes |
| Fields.FieldAt | packages/protocol/meshcompute_protocol/frames.py:64 | where a field stands, and what it reads as there |
| Frames.HeaderLayout | packages/protocol/meshcompute_protocol/frames.py:6-21 | every field of the header stands where the documented table says, most significant byte first |
| Frames.ShapeLayout | packages/protocol/meshcompute_protocol/frames.py:102-103 | each dimension in four bytes behind the header |
| Frames.PayloadLayout | packages/protocol/meshcompute_protocol/frames.py:103 | and then the payload, compressed or not |
| Frames.CodesAre | packages/protocol/meshcompute_protocol/frames.py:39-56 | the codes of packet classes and element types |
| Frames.FrameRoundTrip | packages/protocol/meshcompute_protocol/frames.py:88-136 | what decoding an encoded frame gives, in all cases: the frame with its session reduced to a CRC and compression removed, or which error |
| Frames.UndecodableIff | packages/protocol/meshcompute_protocol/frames.py:92-93 | a frame that encodes fails to decode exactly when its version is another one or its compressed payload was over the cap before compression |
| Frames.EncodesIff | packages/protocol/meshcompute_protocol/frames.py:88-103 | exactly which frames encode: every field in range, the shape short, the wire payload under the cap |
| Frames.OverCapStillEncodes | packages/protocol/meshcompute_protocol/frames.py:90-93 | a payload over the cap that deflates to one under it encodes and does not decode |
| Frames.DecodedEncodes | packages/protocol/meshcompute_protocol/frames.py:106-136 | an uncompressed buffer that decodes starts with the encoding of what came out of it |
| Streams.CutYields | node/daemon/meshcompute_node/transport_quic.py:76-88 | a stream of self-delimiting messages cut anywhere yields the messages that went out whole, then its end |
| Streams.WholeFits | node/daemon/meshcompute_node/transport_quic.py:76-88 | the messages counted as whole fit before the cut, and the next one does not |
| FrameStream.Connection.ReadFrame | node/daemon/meshcompute_node/transport_quic.py:76-88 | outcome and remaining stream of one read: frame, end of stream, length over the bound, or decoding error |
| FrameStream.Connection.WriteFrame | node/daemon/meshcompute_node/transport_quic.py:91-94 | length prefix and encoding are appended; a frame that does not encode writes nothing |
| FrameStream.EncodedFits | node/daemon/meshcompute_node/transport_quic.py:47 | no frame that encodes is over the reader's bound |
| FrameStream.TooLongIsRefused | node/daemon/meshcompute_node/transport_quic.py:81-83 | a length over the bound is refused before anything behind it is read |
| FrameStream.CutStream | node/daemon/meshcompute_node/transport_quic.py:76-94 | after a break at any byte the reader has exactly the frames sent whole, in order, then the end of the stream |
| FrameStream.StreamRoundTrip | node/daemon/meshcompute_node/transport_quic.py:76-94 | a closed stream is read back frame by frame |
| Stun.ParseBindingResponse | node/daemon/meshcompute_node/stun.py:35-62 | on any bytes: the loop ends within range and reports the last IPv4 XOR-MAPPED-ADDRESS, else MAPPED-ADDRESS, of a matching response |
| Stun.ParseUndoesPrint | node/daemon/meshcompute_node/stun.py:35-62 | for any list of padded attributes answering the client's own request, whatever the padding bytes (RFC 5389 sections 6 and 15) |
| Stun.LastPrintedIsLast | node/daemon/meshcompute_node/stun.py:45-62 | the address reported is that of an attribute after which no other one of its kind comes |
| Stun.AddressRoundTrip | node/daemon/meshcompute_node/stun.py:52-60 | the client gets back the address the server saw, masked or not (RFC 5389 sections 15.1 and 15.2) |
| Stun.ResponseByteForByte | node/daemon/meshcompute_node/stun.py:35-57 | a response spelt byte for byte is read as its masked address and port |
| Stun.PlainResponseByteForByte | node/daemon/meshcompute_node/stun.py:58-60 | so is one with a MAPPED-ADDRESS, unmasked |
| Stun.RequestIs | node/daemon/meshcompute_node/stun.py:31-32 | the request byte for byte |
| Stun.AcceptsIff | node/daemon/meshcompute_node/stun.py:38-42 | byte by byte, which data are taken for a response to the request |
| Stun.TrailingBytesIgnored | node/daemon/meshcompute_node/stun.py:43 | what stands behind the stated length is ignored |
| Stun.CarriesIff | node/daemon/meshcompute_node/stun.py:50-58 | which attributes count: of the kind, eight bytes or more, of the IPv4 family |
| Stun.MaskedIs | node/daemon/meshcompute_node/stun.py:56 | an address is masked byte by byte with 21 12 A4 42 |
| Stun.XorBits | node/daemon/meshcompute_node/stun.py:55-56 | masking is exclusive or, bit by bit |

## Left out

- Floats: times, rates, credits and scores are reals, and `round` is the nearest multiple with ties to even; IEEE rounding, infinities and NaN are not modelled.
- ChainSafety.ParsingKeysNeverRaise: token counts are within the range of a float; beyond it `float()` raises OverflowError, which `pick_best_chain` does not catch and which in `submit_receipt` falls between the stored receipt and the credit row.
- Cryptography, canonical JSON, CRC-32 and zlib: parameters. A digest's hexadecimal text is not kept apart from its bytes, and node ids are numbers in the order of their text.
- HTTP, FastAPI, SQLite, QUIC, asyncio and subprocesses: replaced by parameters and step relations.
- ControlPlane.Server.SubmitReceipt: storing the receipt and appending the credit row are one step, so a crash between the two database transactions is not modelled; a credit row's constant reason and its timestamp are not kept.
- ControlPlane.Server.RegisterNode: pool ids, last-seen time and the online flag of a node row are not kept, nor are capabilities.
- ControlPlane.Server.ReceiveHeartbeat: the heartbeat sample itself and the last-seen time are not kept.
- ControlPlane.Server.StorePlan: of a stored plan only the peer chain and the model hash are kept, which is what receipts are checked against.
- Rendezvous.Rendezvous.AnnouncePeer: addresses and NAT types, which are only passed through; `connect`, tickets and relays.
- OriginElection.OneOriginIffUndisplaced: one hash and one wave; listed seeders deliver, no deadline expires, the tracker answers, and a node that wants the hash keeps wanting it until it seeds it, because the election promises nothing otherwise.
- PeerFetch.Fetch: each sleep is assumed to advance the clock by at least its length; each peer's dialling, and an exception from it, is one Boolean per round.
- Swarm.Leecher.LeechFile: the JSON handshake is reduced to what the peer makes of it, an unreadable sidecar is an empty one, files are byte arrays without operating-system buffering, and sizes are not negative.
- Swarm.SeedFile: the handshake of `serve_chunk_stream` and its file index are not modelled.
- ChunkWire.ParsedReplyPrints: the id is its bytes; the source decodes it with replacement characters, which makes a difference only for an id that is no hexadecimal digest and so never verifies.
- Scheduler.MakePlan: decision traces, rejected alternatives and the plan's identifiers; benchmark rates are not negative and link throughputs are positive, where the source would divide by zero.
- SchedulerSafety.EveryCandidateSound: a draft's memory is not part of it, because the source does not look at it.
- Topology.TopologyGraph.SetLink: packet loss, which nothing reads.
- Changeover.NodeDaemon.EnsureModel: the storage check is one Boolean, and a rename into place is a creation followed by the removal of the `.part` file.
- Changeover.NodeDaemon.DeleteFiles: pruning of empty directories, the list of what was removed, and paths that cannot be resolved.
- Changeover.NodeDaemon.SweepOrphans: pruning of empty directories and the list of what was removed.
- Changeover.NodeDaemon.StartUp: policy, engine installation and smoke mode; a file is a path that exists, and its bytes are the subject of `Swarm`.
- Frames.FrameRoundTrip: a session id is its UTF-8 bytes, and zlib's promise about the payload in question is a hypothesis.
- Stun.ParseBindingResponse: the printed form "ip:port" of an address, sockets and timeouts.
- The manifest catalogue, pools, sessions, the gateway, host signals, contribution budgets and the idle controller: short tables and clamps.
