# Anon-Sec-Net: a verified model

Anon-Sec-Net is a prototype of a mix network: clients and senders talk to a service gateway, and
through it to a cache server, over paths of three mix nodes. This project models the protocol code
of the five programs and proves what they promise, on every input and in every interleaving.

- **Mix node.** `PoolMix` is the pool-mixing pipeline (enqueue, stratified shuffle on array-linked
  lists, stable bucket pass, workers): it randomises across sessions and keeps every session's order;
  `PoolDraws` says what its random draws decide.
  `MixSessions` is the session table with its rotating hint windows, replay rings and generations;
  `MixSessionRuns` runs all interleavings of its separately locked steps. `MixReordering` follows one
  session through such runs: how much reordering it survives, `MixLimits` that it survives no more,
  and `MixReach` which packets are found when losses come in. `MixHandling` states what handling a packet
  changes and how long replays are remembered, `MixPath` joins tables and pools along a path.
- **Packets.** `Sphinx` is the forward packet, `ForwardRoute` its way through the nodes' session tables
  to the session that the gateway finds, and `ReturnPath` the way back, for any number of hops.
- **Gateway.** `Gateway` is the session table, the search for a packet's session and the binding of a
  client's two sessions; `GatewayRuns` runs all interleavings of its threads, `GatewaySearch` places the
  search among their steps; `Mailbox` is the ring of pending responses.
- **Cache server.** `CacheServer` is the content store and the table of pending handshakes;
  `CacheRuns` runs them; `Heartbeat` follows a listing through the gateway to the Sender.
- **Endpoints.** `Striping` (weighted round robin), `Paths` (node selection over exact reals), `Net`
  and `Telescope` (the telescoped handshake down to byte streams), `ContentKey` and `ContentKeyRuns`
  (handing over a content key), `SenderSlots` (the Sender's response slots), `ClientWaits` (the client's
  single response buffer).
- `Common`, `Bytes`, `Sequences` and `Crypto` are shared.

Where a program runs threads, each lock section is one atomic step of a state machine, a run is any
sequence of steps, and a step that cannot happen changes nothing. Random draws, clocks, what the
operating system does with chunks and what other threads do between two lock sections are parameters
over which every statement quantifies. Histories (what was accepted, how often a slot was allocated)
are recorded for the statements only. Methods carry out the loops and updates of the source and are
proved equal to functions that the state machines then use.

Cryptography is a set of functions with laws (`Crypto.Lawful`, `Crypto.LawfulExchange`): AES-CTR is a
keystream of key, IV and position (section 6.5 of NIST SP 800-38A); AES-GCM opens what it sealed under
the same key and adds 28 bytes; Diffie-Hellman is symmetric; honest signatures verify. Some results
also assume that what is sealed under one key does not open under another one in use, that is, of the
gateway's sessions (`Crypto.OpensOnlyUnder`) or of those that the Receivers and workers of a run derive
(`Crypto.KeysCommit`). Those about which counters are found assume that the seeds in use
give different hints for different counters below 2^63 (`MixSessionRuns.HintsDistinguish`).
`Assumptions.AssumptionsCanBeMet` gives primitives that meet the laws together, and
`Assumptions.HintsCanDiffer` some whose packet hints differ in this way.

Where the code falls short of the obvious claim, the exact condition is proved and the failure shown:

- a hint confirmation can overshoot after a slide (`HighWaterExact`, `OvershootExample`);
- packets displaced by more than 16, 10, 6 or 4 places, with 1, 2, 3 or 4 in hand, can be lost
  (`ToleranceIsExact`), and a gap of more than 32 counters ends a session for good (`AllFoundIffInReach`,
  `GapIsFatal`);
- a binding can outlive its partner (`PartnerIffNotReallocated`, `StalePartnerExample`);
- a heartbeat listing of 461 or 462 bytes is never relayed (`SenderLearnsIff`, `RefusedExample`);
- a content key with `#` in it is confused with its front part (`CutRecoversIff`, `SeparatorMisleads`), and
  one that takes more than 79 bytes together with the Sender's signature is never answered (`AnswerFitsIff`,
  `AnsweredIff`): with P-256 signatures of 70 to 72 bytes only keys of up to 7 to 9 bytes are;
- two-byte nonces can repeat (`NeverCrossIff`), and the client's responses carry none (`OwnAnswersIff`);
- overlapping guard sets can give one node twice (`EntriesDifferIff`).

The gateway's `send_response_ex` would let responses of 464 to 483 bytes arrive cut and longer ones not at
all (`HeardIff`), but no caller hands it more than 463.

Comments of the source that disagree with its code are not followed: a SETUP payload has 358 bytes
(`ASN/client/client.c:1598-1623`); the return payload is blinded with all three layers under a zero
IV by the gateway in the order that the nodes remove them, outermost first; and a packet is found up to
31 counters behind the highest seen and 32 ahead of it, not 64 (`ASN/gateway/service_gateway.c:542-544`,
`ASN/mix_node/mix_node.c:629-632`).

## Model

| member | source | states |
|---|---|---|
| `PoolMix.PoolMixShuffleStratified` | ASN/mix_node/mix_node.c:704-744 | for every stream of draws the loop ends, the output is the batch with every session list in its own order, namely the order `Shuffled` that the draws determine |
| `PoolMix.RestratifiedIsPermutation` | ASN/mix_node/mix_node.c:704-744 | such an output is a permutation of the batch and keeps every session's subsequence |
| `PoolDraws.EveryOrderComesOut` | ASN/mix_node/mix_node.c:726-743 | an order of the batch comes out for some stream of draws iff it keeps every list in order |
| `PoolDraws.FirstOut` | ASN/mix_node/mix_node.c:731-735 | the first packet out is the first of its list, before which floor(draw * lists / 2^32) other lists have arrived |
| `PoolMix.EmitOne` | ASN/mix_node/mix_node.c:726-743 | one turn of the emitting loop keeps: released packets are the first ones of each list, cursors point at the next, no list skipped |
| `PoolMix.BucketByWorker` | ASN/mix_node/mix_node.c:831-851 | the stable counting pass gives each worker one contiguous range holding exactly its sessions' packets in shuffled order |
| `PoolMix.RangesApart` | ASN/mix_node/mix_node.c:838-846 | ranges of different workers do not overlap |
| `PoolMix.WorkersSpread` | ASN/mix_node/mix_node.c:831-836 | sessions whose indices are less than the number of workers apart go to different workers |
| `PoolMix.PlanRelease` | ASN/mix_node/mix_node.c:801-851 | shuffle then buckets: every session lies wholly with one worker, in batch order, each worker has its part of the order the draws determine |
| `PoolMix.PoolMixWorker` | ASN/mix_node/mix_node.c:779-800 | entries are handled in range order, one attempt each; sent iff the first, second or third connect succeeds |
| `PoolMix.Mixer.PoolMixEnqueue` | ASN/mix_node/mix_node.c:664-680 | appends in arrival order; refused, unchanged, when the pool is full |
| `PoolMix.Mixer.TakeBatch` | ASN/mix_node/mix_node.c:808-815 | the whole pool moves to the batch and the pool is empty |
| `PoolMix.RunIsOrdered` | ASN/mix_node/mix_node.c:664-875 | in every run handled + at the worker + in the pool is, per session, what was accepted, in order |
| `PoolMix.SessionOrderPreserved` | ASN/mix_node/mix_node.c:664-875 | in every run what a session sent is a subsequence of what was accepted for it |
| `PoolMix.SessionPrefixPreserved` | ASN/mix_node/mix_node.c:664-875 | without failed sends it is exactly a prefix |
| `PoolMix.NothingLostOrDuplicated` | ASN/mix_node/mix_node.c:664-875 | every packet is handled, at a worker or in the pool as often as it was accepted; once drained without failures, sent as often |
| `MixSessions.ComputeHints` | ASN/mix_node/mix_node.c:219-242 | 64 hints, the w-th derived from base + w |
| `MixSessions.AdvanceHintWindow` | ASN/mix_node/mix_node.c:252-274 | the mark rises to base + offset, the base follows it at distance 31, hints are recomputed; the window stays coherent |
| `MixSessions.AdvanceIsUnique` | ASN/mix_node/mix_node.c:252-274 | coherence and the new mark determine the whole new window |
| `MixSessions.AdvanceMonotone` | ASN/mix_node/mix_node.c:252-274 | base and mark never decrease |
| `MixSessions.SeenNonce` | ASN/mix_node/mix_node.c:169-191 | refuses iff the nonce is among the last 1024 accepted, otherwise records it |
| `MixSessions.PushKeepsLast` | ASN/mix_node/mix_node.c:169-191 | the ring holds the last 1024 of everything pushed |
| `MixSessions.SessionTable.SessionAlloc` | ASN/mix_node/mix_node.c:386-424 | first free slot, else the oldest one past its time to live, else none; the slot then holds the given keys, seed and role, active now, with a higher generation, windows at their first counters and empty rings |
| `MixSessions.SessionTable.SessionFind` | ASN/mix_node/mix_node.c:275-324 | the first session, domain and offset in scan order that shows the hint; only its activity time changes |
| `MixSessions.SessionTable.SessionConfirmHintMatch` | ASN/mix_node/mix_node.c:336-349 | advances the one window of a handle that is still current; no effect for a stale handle |
| `MixSessions.StaleConfirmsNothing` | ASN/mix_node/mix_node.c:336-349 | a handle of a slot that is free or has another generation confirms nothing |
| `MixSessions.SessionTable.SessionCheckNonceByIdx` | ASN/mix_node/mix_node.c:351-384 | stale handles are refused without effect; otherwise the ring decides, per direction |
| `MixHandling.HandledAsStated` | ASN/mix_node/mix_node.c:252-384 | what lookup, confirmation and check change together, field by field: a wrong MAC leaves windows and rings alone, a right one raises the mark of one window and records the nonce as the newest unless it is held; other sessions stay as they are |
| `MixHandling.MemoryLasts` | ASN/mix_node/mix_node.c:169-191 | whatever happens to the table, a nonce is remembered while its session stays and takes fewer than 1024 others |
| `MixHandling.StepCarries` | ASN/mix_node/mix_node.c:219-424 | every separately locked step of another thread, but an allocation of its slot, keeps a session and pushes at most one nonce |
| `MixSessionRuns.StepKeepsInv` | ASN/mix_node/mix_node.c:219-424 | every allocation, lookup, confirmation and check keeps windows coherent, rings exact and handles consistent |
| `MixSessionRuns.WindowsAlwaysCoherent` | ASN/mix_node/mix_node.c:219-343 | in every interleaving each hint stands for base + offset, and the base is max(initial base, mark - 31) |
| `MixSessionRuns.NeverMovesBack` | ASN/mix_node/mix_node.c:252-343 | no step moves a base or mark back while the slot keeps its session |
| `MixSessionRuns.ConfirmRecords` | ASN/mix_node/mix_node.c:252-343 | a confirmation records the counter matched plus the slide since the lookup; the other domain is unchanged |
| `MixSessionRuns.ConfirmIsExactIff` | ASN/mix_node/mix_node.c:252-343 | it records no more than the matched counter iff the window has not slid since the lookup or the offset is below 32 |
| `MixLimits.OvershootExample` | ASN/mix_node/mix_node.c:252-343 | a run in which 63 and 60 are found together and confirmed in that order leaves the mark at 92 |
| `MixSessionRuns.HighWaterExact` | ASN/mix_node/mix_node.c:252-343 | all marks stay exactly the highest counter matched, all through a run, iff no confirmation in it comes after a slide with an offset of 32 or more |
| `MixSessionRuns.DropsIff` | ASN/mix_node/mix_node.c:169-191 | in every run a packet is refused iff its handle is from an earlier lifetime of the slot or its nonce is among the last 1024 accepted in this one |
| `MixSessionRuns.HeldNoncesDistinct` | ASN/mix_node/mix_node.c:169-191 | held nonces are pairwise different |
| `MixSessionRuns.StaleForever` | ASN/mix_node/mix_node.c:336-384 | a handle of an earlier lifetime stays refused for ever and changes no state |
| `MixSessionRuns.FoundIffInWindow` | ASN/mix_node/mix_node.c:275-324 | a packet is found iff its counter lies in a window of its session, and at the place that stands for it |
| `MixReordering.NextIsInWindow` | ASN/mix_node/mix_node.c:252-274 | the accounting of mark and packets in hand keeps the next packet inside the window |
| `MixReordering.ReorderingTolerated` | ASN/mix_node/mix_node.c:275-343 | in every run of the table, whatever other sessions do: if a session's packets are displaced by at most r, with at most k between lookup and confirmation, and 2r + (k-1)(r+k) <= 32, each is found at its own place |
| `MixLimits.TooMuchLoses` | ASN/mix_node/mix_node.c:275-343 | with up to four packets in hand, whenever the tolerance is exceeded there is a run with such displacements in which a packet is missing |
| `MixLimits.ToleranceIsExact` | ASN/mix_node/mix_node.c:275-343 | with up to four packets in hand, displacements of r lose no packet in any run iff 2r + (k-1)(r+k) <= 32 |
| `MixLimits.WhatIsTolerable` | ASN/mix_node/mix_node.c:275-343 | in places: 16, 10, 6 and 4 with 1, 2, 3 and 4 packets in hand |
| `MixReach.AllFoundIffInReach` | ASN/mix_node/mix_node.c:219-343 | in every run of the table, whatever is lost: a session with one packet in hand at a time finds all its packets iff each counter is at most 31 below and 32 above the highest before it (or among the first 64) |
| `MixReach.InOrderInReach` | ASN/mix_node/mix_node.c:252-274 | without reordering that is: no gap leaves out more than 31 counters, or passes 63 at the start |
| `MixReach.GapIsFatal` | ASN/mix_node/mix_node.c:252-343 | once nothing is in hand and all that still comes lies more than 32 above the mark, nothing of the session is ever found again |
| `MixPath.DriftAddsUp` | ASN/mix_node/mix_node.c:1177-1284 | along a path displacements of links and threads add up, and the pools add nothing |
| `MixPath.PooledPacketsAreFound` | ASN/mix_node/mix_node.c:1177-1284 | a session's packets, pooled with those of all others at every node, are found in the table of every node whose accumulated displacement is tolerable |
| `MixPath.ThreeHops` | ASN/mix_node/mix_node.c:1177-1284 | on three hops displacements of up to 3 on every link and inside every node are tolerable at all of them |
| `Sphinx.PacketSphinxBuildEx` | ASN/common/packet.c:282-498 | the buffer holds all header blocks in hop order and the payload section with one layer per hop; bad drop hop or length refused, buffer untouched |
| `Sphinx.PacketSphinxPeel` | ASN/common/packet.c:529-663 | refused iff the MAC differs, output untouched; else header shifted by a block, random tail, payload unblinded |
| `Sphinx.PeelIff` | ASN/common/packet.c:540-551 | whatever the packet, it is peeled iff bytes 47 to 62 are the HMAC of bytes 0 to 46 |
| `Sphinx.ChangedMacIsRefused` | ASN/common/packet.c:540-551 | a packet on its way with its MAC field changed in any way is refused by the next hop |
| `Sphinx.OpenBlock` | ASN/common/packet.c:340-447 | a block read back under its keys yields a matching MAC, nonce, routing information and hint |
| `Sphinx.PeelOne` | ASN/common/packet.c:529-663 | what hop i passes on is what hop i + 1 must receive; hop i learns its port, flag and nonce |
| `Sphinx.TravelDelivers` | ASN/common/packet.c:282-663 | from any hop on, all MACs verify and the payload section arrives bare |
| `Sphinx.UnwrapSection` | ASN/common/packet.c:665-720 | unwrapping returns the flags and payload; the gateway hint is in the last 16 bytes |
| `Sphinx.SphinxRoundTrip` | ASN/common/packet.c:282-720 | for every path length, payload up to 463 bytes, flags and drop hop: all hops accept, ports come in order, the drop marker shows at the chosen hop only, the gateway recovers flags, payload and hint |
| `ForwardRoute.Handle` | ASN/mix_node/mix_node.c:1177-1284 | the handler, lock by lock on the session table: whether the packet is dropped, absorbed or sent on, and the table after lookup, window advance and replay check |
| `ForwardRoute.WhatHandlingDoes` | ASN/mix_node/mix_node.c:1177-1284 | of any packet: dropped unless found, authentic and new; else absorbed, or sent on with block and layer removed, iff marked or its port allowed; and every change of the table |
| `ForwardRoute.ReplayIsDropped` | ASN/mix_node/mix_node.c:1215-1230 | a packet that a node has sent on or absorbed is dropped whenever the same bytes come again, whatever happens in between, while the session stays and has taken fewer than 1024 nonces since |
| `ForwardRoute.HandlingCarries` | ASN/mix_node/mix_node.c:1177-1284 | handling any forward packet keeps every session and pushes at most one nonce of either direction |
| `ForwardRoute.ForgedIsDropped` | ASN/mix_node/mix_node.c:1205-1212 | a packet on its way with its MAC field changed is dropped and no window or ring of the node changes |
| `ForwardRoute.ServedInWindow` | ASN/mix_node/mix_node.c:275-324 | among any number of sessions, a hop whose packet counter lies in its session's window is served |
| `ForwardRoute.HandleOne` | ASN/mix_node/mix_node.c:1177-1284 | a node whose table finds the hop's session and whose ring lacks the nonce absorbs a packet marked for it in a decoy build and otherwise sends it on to the next port of the path |
| `ForwardRoute.RouteDelivers` | ASN/mix_node/mix_node.c:1177-1284 | following the peeled ports through the nodes' session tables, a packet is absorbed exactly at the hop it is marked for, or comes out behind the last hop with its section bare |
| `ForwardRoute.ForwardRoundTrip` | ASN/gateway/service_gateway.c:241-381 | for every path length: what the client builds passes all tables and the gateway's two-phase search finds the client's session, flags and payload, whatever other threads do; a marked decoy ends at its node |
| `Crypto.CtrCancels` | ASN/common/packet.c:16-95 | applying a keystream twice restores the data |
| `Crypto.CtrOfZeros` | ASN/common/packet.c:16-95 | applied to zeros it gives the keystream itself |
| `Bytes.XorBitsCancels` | ASN/common/packet.c:16-95 | bitwise exclusive-or is its own inverse |
| `Bytes.XorDiffers` | ASN/common/packet.c:16-95 | each bit of it is set iff the two bits differ |
| `ReturnPath.PacketBuildReturnHeader` | ASN/common/packet.c:741-807 | the blocks of all hops in order, each in two passes under its own nonce |
| `ReturnPath.PacketPeelReturnHeader` | ASN/common/packet.c:809-869 | refused iff the MAC differs; else address and nonce, header shifted by a block with a random tail |
| `ReturnPath.PeelHeaderIff` | ASN/common/packet.c:821-830 | whatever the header, it is peeled iff bytes 10 to 25 are the HMAC of bytes 0 to 9 |
| `ReturnPath.SendResponse` | ASN/gateway/service_gateway.c:431-519 | refused over 819 bytes; else header, then length, ciphertext and zeros under one layer per hop |
| `ReturnPath.Handle` | ASN/mix_node/mix_node.c:1286-1429 | the handler, lock by lock on the session table: what it sends on, and the table after lookup, window advance and replay check |
| `ReturnPath.WhatHandlingDoes` | ASN/mix_node/mix_node.c:1286-1429 | of any return packet: sent on, with block and layer removed, iff found, authentic, new and its peeled address on the allowlist; delivered iff that is a listener's port; and every change of the table |
| `ReturnPath.HandlingCarries` | ASN/mix_node/mix_node.c:1286-1429 | handling any return packet keeps every session and pushes at most one nonce of either direction |
| `ReturnPath.HandleOne` | ASN/mix_node/mix_node.c:1286-1429 | a node whose table finds the hop's session and whose ring lacks the nonce forwards, or delivers at a response port, to the address it peels, one block and one layer fewer |
| `ReturnPath.ServedInWindow` | ASN/mix_node/mix_node.c:275-324 | among any number of sessions, a hop whose counter lies in its session's window is served |
| `ReturnPath.ReplayIsDropped` | ASN/mix_node/mix_node.c:1286-1429 | a return packet that a node has sent on is dropped whenever the same bytes come again, whatever happens in between, while the session stays and has taken fewer than 1024 return nonces since |
| `ReturnPath.RouteDelivers` | ASN/mix_node/mix_node.c:1286-1429 | following the peeled addresses through the nodes' session tables visits the built addresses in order and hands over the region with all layers off |
| `ReturnPath.HeardIff` | ASN/client/client.c:1187-1217 | a response is signalled iff flagged real and at most 483 bytes; what is read is the response, cut to 463 bytes |
| `ReturnPath.AcceptedIsReal` | ASN/client/client.c:1187-1217 | whatever is signalled can be read and follows a real flags byte |
| `ReturnPath.ResponseBox.ResponseListener` | ASN/client/client.c:1187-1217 | the buffer takes a packet iff it decrypts to a real response of announced length 28..512 |
| `ReturnPath.ResponseBox.WaitResponse` | ASN/client/client.c:1530-1572 | returns and consumes the buffered response; None only on timeout |
| `ReturnPath.ReturnPathRoundTrip` | ASN/gateway/service_gateway.c:431-519 | for every path length: the addresses are visited in order, and the client recovers the response byte for byte iff it was flagged real and has at most 463 bytes |
| `ClientWaits.OwnAnswersIff` | ASN/client/client.c:1530-1572 | told only which waits returned and which timed out, in all runs every wait that returned got its own answer iff none returned after one that timed out |
| `ClientWaits.LateAnswerIsTaken` | ASN/client/client.c:1187-1217 | for every such later wait a run in which it gets the answer to the request that timed out |
| `Gateway.SessionStore.SessAlloc` | ASN/gateway/service_gateway.c:182-219 | first free slot, else the oldest unpinned one past its time to live, else none; the slot is then active now under the given key and role, held by nobody, not set up and unbound |
| `Gateway.SessionStore.FindVerifiedB` | ASN/gateway/service_gateway.c:158-174 | the first receiving session other than the asking one whose tag matches |
| `Gateway.SessionStore.FindASession` | ASN/gateway/service_gateway.c:241-381 | equals the two-phase search for every behaviour of other threads between its lock sections |
| `GatewaySearch.FindPinsOnce` | ASN/gateway/service_gateway.c:241-381 | the search leaves the table as the other threads made it, but for the slot it found, which is active now and pinned once more; that slot then held a key from the snapshot that opens the packet, and may send it |
| `GatewaySearch.ChecksMeanMaySend` | ASN/gateway/service_gateway.c:296-366 | the checks before and under the lock amount to: cover with a return header, a SETUP that another session's key completes, or a request of a session that is set up, from its own address |
| `GatewaySearch.FindIsSnapshotAndConfirm` | ASN/gateway/service_gateway.c:241-381 | a find is a run of the threads' steps: snapshot, whatever others do, confirmation; it ends with the search's table and the thread holding the session |
| `Gateway.FoundIsCurrent` | ASN/gateway/service_gateway.c:241-381 | a found session is in use, was snapshotted with this key, and its key opens the packet |
| `Gateway.ReclaimedIsSkipped` | ASN/gateway/service_gateway.c:310-330 | a slot reclaimed for another key between snapshot and relock is not what is found |
| `Gateway.PrefilterAgrees` | ASN/gateway/service_gateway.c:241-381 | the hint-filtered search finds what trial decryption of every sending session finds |
| `Gateway.BuiltIsMadeFor` | ASN/common/packet.c:334-345 | packets built for a session carry its hint and open under no other session's key |
| `Gateway.SessionStore.FindBForA` | ASN/gateway/service_gateway.c:390-415 | the bound slot if it is a receiving session in use, else the first verified one; pinned |
| `Gateway.SetupRoundTrip` | ASN/client/client.c:1598-1623 | the gateway reads back every field of the SETUP payload that the client writes, 358 bytes, its minimum length |
| `Gateway.SessionStore.HandleSetup` | ASN/gateway/service_gateway.c:776-852 | too short: no effect; otherwise all fields are stored, key and index are bound together and the acknowledgement is returned iff the tag matches the found partner, and without it the binding stays as it was |
| `GatewayRuns.StepKeepsInv` | ASN/gateway/service_gateway.c:182-868 | every lock section of every thread keeps reference counts, identities of pinned slots and bindings |
| `GatewayRuns.StepKeepsQueues` | ASN/gateway/service_gateway.c:533-627 | every lock section keeps each slot's queue within 32 responses, all to requests of the session the slot holds now |
| `GatewayRuns.StepTakesEffect` | ASN/gateway/service_gateway.c:776-1064 | a SETUP's fields and a request's address and header are in the session, a response is last in its queue under its request's header, and the cover dispatch takes the first |
| `GatewayRuns.AgedPopTakesFirst` | ASN/gateway/service_gateway.c:587-627 | the flush thread takes the first response of a queue, at least 400 ms old, and holds the session |
| `GatewayRuns.ResponsesStayInSession` | ASN/gateway/service_gateway.c:533-627 | in every run a response is taken from a queue only for the very session, allocation and key, whose request it answers |
| `GatewayRuns.PinsAreHolders` | ASN/gateway/service_gateway.c:1100-1110 | in every run a slot's reference count is the number of pointers threads hold to it |
| `GatewayRuns.PinnedStays` | ASN/gateway/service_gateway.c:182-219 | in every run a held session is the one that was pinned: not reclaimed, not re-keyed |
| `GatewayRuns.PinnedNotReclaimed` | ASN/gateway/service_gateway.c:182-219 | no step changes allocation, key or role of a pinned slot |
| `GatewayRuns.PartnerIffNotReallocated` | ASN/gateway/service_gateway.c:390-415 | in every run with fresh keys an active session's tag was presented and matches its pair of keys, and answers go to that partner iff its slot was not allocated again |
| `GatewayRuns.StalePartnerExample` | ASN/gateway/service_gateway.c:394-404 | for every size of the table a run, bound at once and the client kept active by a later packet, in which the expired partner's slot is reallocated and the first client's answers go to the new session |
| `Mailbox.Ring.SendResponse` | ASN/gateway/service_gateway.c:533-558 | a queue of 32 that drops its oldest; over 463 bytes refused |
| `Mailbox.Ring.PendingPop` | ASN/gateway/service_gateway.c:563-572 | takes the head iff there is one and its age is at least the age asked for, if one is |
| `Mailbox.PopsTakeTheOldest` | ASN/gateway/service_gateway.c:587-627 | in every run the cover dispatch takes the oldest response whatever its age, the flush thread iff it is 400 ms old |
| `Mailbox.MailboxConserves` | ASN/gateway/service_gateway.c:533-627 | in every run accepted = popped + dropped + queued, and responses are popped in order, each with its own header |
| `Mailbox.NothingDueIsLeftBehind` | ASN/gateway/service_gateway.c:587-627 | when an aged pop refuses the head, nothing queued is due |
| `CacheServer.ContentStore.StorePut` | ASN/gateway/cache_server.c:116-138 | sets one key and no other; refused only for a new key in a full store |
| `CacheServer.ContentStore.Get` | ASN/gateway/cache_server.c:174-194 | the content stored for the key |
| `CacheServer.PendingTable.HandshakeInit` | ASN/gateway/cache_server.c:196-229 | fills the key's own slot, else the first free or abandoned one; refused for a wrong length or without such a slot |
| `CacheServer.InitOnKeys` | ASN/gateway/cache_server.c:196-229 | INIT registers its key afresh and evicts at most one other, older than the time to live; refused only when all entries are live |
| `CacheServer.InitRenews` | ASN/gateway/cache_server.c:196-229 | an INIT, also a repeated one, sets the time of its key and of no other |
| `CacheServer.PendingTable.HandshakePoll` | ASN/gateway/cache_server.c:231-267 | returns the waiting answer and frees its slot |
| `CacheServer.PollOnKeys` | ASN/gateway/cache_server.c:231-267 | POLL consumes the answer it returns and touches nothing else |
| `CacheServer.PendingTable.HandshakeRespond` | ASN/gateway/cache_server.c:299-327 | sets the answer of a pending key if its length is allowed |
| `CacheServer.RespondOnKeys` | ASN/gateway/cache_server.c:299-327 | RESPOND sets or replaces one key's answer and touches nothing else |
| `CacheServer.PendingTable.Heartbeat` | ASN/gateway/cache_server.c:269-297 | the waiting requests in slot order, as many as fit before the first that does not |
| `CacheServer.HeartbeatRoundTrip` | ASN/sender/sender.c:1312-1350 | the Sender's parser reads back exactly the listed requests |
| `CacheServer.ListsTheWaiting` | ASN/gateway/cache_server.c:269-297 | the listing is the waiting requests in slot order, up to the first that does not fit behind those before it |
| `Heartbeat.SenderLearnsIff` | ASN/gateway/service_gateway.c:1036-1064 | the listing reaches the Sender iff it takes at most 460 bytes, and then unchanged |
| `Heartbeat.WaitingInVain` | ASN/gateway/service_gateway.c:1054-1058 | after the INITs of any Receivers whose requests take 461 or 462 bytes together, the gateway refuses the reply |
| `Heartbeat.RefusedExample` | ASN/gateway/service_gateway.c:1054-1058 | four content keys of 45, 45, 44 and 44 bytes without separator, under any public keys, are such a case |
| `CacheRuns.TableIsStatus` | ASN/gateway/cache_server.c:65-114 | in every run the table holds for each key what that key's own events say |
| `CacheRuns.PollReturnsLatest` | ASN/gateway/cache_server.c:231-267 | a ready POLL returns the latest RESPOND since the latest INIT of that key |
| `CacheRuns.DeliveredOnce` | ASN/gateway/cache_server.c:231-267 | a fetched answer is gone until the key is registered again |
| `CacheRuns.KeptWhileYoung` | ASN/gateway/cache_server.c:196-229 | in every run an accepted INIT secures its key for the time to live, whatever others register until then |
| `Striping.Striper.StripePickLeg` | ASN/client/client.c:909-926 | rotation, or top up all credits, pick the first highest and charge it 1 |
| `Striping.RoundRobinIsFair` | ASN/client/client.c:915-926 | credits sum to 0 and every count lies strictly between its share less k - 1 and its share plus 1, after any number of picks |
| `Striping.ExactOnWholeShares` | ASN/client/client.c:915-926 | whenever all shares are whole numbers the counts are exactly the shares |
| `Striping.ZeroWeightIsIdle` | ASN/client/client.c:915-926 | a leg of weight zero is never picked |
| `Striping.RotationWithinOne` | ASN/client/client.c:915-919 | the equal-weight branch keeps counts within 1 of each other |
| `Paths.WeightedDrawExcluding` | ASN/common/node_pool.c:80-108 | equals the one-draw function; the retry loop never runs twice |
| `Paths.DrawSucceedsIff` | ASN/common/node_pool.c:80-108 | the draw succeeds iff an allowed node has positive weight |
| `Paths.ReachedOnOwnInterval` | ASN/common/node_pool.c:80-108 | a node is drawn iff the target lies in its own stretch of cumulative weight |
| `Paths.GuardSetLoadOrCreate` | ASN/common/node_pool.c:117-194 | a loadable file is taken as it is; otherwise as many guards as asked for, at most three, are drawn from the stream and saved, and the result is none exactly when a draw or the saving fails |
| `Paths.LoadedIff` | ASN/common/node_pool.c:132-162 | a file gives these guards iff it begins with their number, one to three, and then them, all in range |
| `Paths.GuardsDrawnIff` | ASN/common/node_pool.c:164-194 | enough free nodes with weight suffice on every stream, and are needed on every stream without zeros |
| `Paths.DrawnGuardsDiffer` | ASN/common/node_pool.c:164-194 | drawn guards are as many as asked for, different, and outside the excluded set |
| `Paths.PersistedIsKept` | ASN/common/node_pool.c:117-162 | a set that was drawn and saved is what every later start loads |
| `Paths.BuildSessionPath` | ASN/common/node_pool.c:196-237 | the path is the one that six numbers of the stream determine: entries from their guard sets by the first two, all other nodes different; fails only when no free node has weight |
| `Paths.SixSuffice` | ASN/common/node_pool.c:196-237 | six nodes of positive weight are enough for every draw to succeed |
| `Paths.DisjointGuardsGiveDistinctNodes` | ASN/client/client.c:1060-1073 | with disjoint guard sets the six nodes are different, also after the swap |
| `Paths.EntriesDifferIff` | ASN/common/node_pool.c:203-212 | the entries differ for every stream iff the guard sets are disjoint |
| `Paths.BuildPaths` | ASN/client/client.c:1029-1073 | the kept path, undone by the swap, is the first of at most 501 drawn that will do (any without striping; with it, no other node in guard set A); none only if there is no such path |
| `Paths.BuildExtraLegs` | ASN/client/client.c:980-1018 | all nodes of all legs are pairwise different and every extra leg enters through guard set A only; none only if for some leg no path among 500 fits |
| `Net.NetSendAll` | ASN/common/net.c:137-148 | for every chunking the whole buffer is appended to the stream, or a proper prefix on failure; it succeeds if no call fails |
| `Net.NetRecvAll` | ASN/common/net.c:150-166 | for every chunking the buffer is exactly the next bytes of the stream; it succeeds if no call fails and enough bytes come |
| `Net.FrameRoundTrip` | ASN/common/net.c:192-221 | a padded frame yields its payload iff the receiver has room |
| `Net.SendThenReceive` | ASN/common/net.c:137-221 | a frame sent and received is the payload and leaves the stream empty; if no call fails it is received iff the receiver has room |
| `Telescope.PipeDownKeepsFlow` | ASN/mix_node/mix_node.c:993-1018 | piping a chunk leaves the bytes on the links and their order as they are |
| `Telescope.DescriptorMustVerify` | ASN/client/client.c:231-262 | a node's key is taken from a reply only if the identity in the reply signed it |
| `Telescope.CutDescriptorIsRefused` | ASN/client/client.c:231-262 | a reply cut short anywhere is refused |
| `Telescope.StepKeepsInv` | ASN/mix_node/mix_node.c:993-1174 | every step of client, nodes, pipes and key rotation keeps the handshake in one of five stages |
| `Telescope.HopsAgree` | ASN/client/client.c:558-615 | for every chain length, chunking and rotation: node j consumed exactly request j and holds the client's key, bound to the same public keys, port and role |
| `Telescope.NeverStuck` | ASN/client/client.c:558-615 | until the last key is agreed some step can be taken |
| `ContentKey.CutRecoversIff` | ASN/sender/sender.c:1220-1224 | the content key is recovered from the wire key iff it has no separator |
| `ContentKey.WireKeysDifferIff` | ASN/client/client.c:433-435 | two wire keys of a content key are equal iff the ephemeral keys agree in their second and third bytes |
| `ContentKey.AnswerFitsIff` | ASN/sender/sender.c:951-983 | the Sender can send its answer iff wire key and signature fit: content key and signature together at most 79 bytes |
| `ContentKey.OwnedKeys.RememberOwnedKey` | ASN/sender/sender.c:83-105 | fills the key's own slot or the first unused one |
| `ContentKey.RememberedLookup` | ASN/sender/sender.c:83-120 | a registration replaces its key's K_content unless the registry is full; other keys keep theirs |
| `ContentKey.OwnedKeys.LookupOwnedKey` | ASN/sender/sender.c:108-120 | the K_content registered for the key |
| `ContentKey.FinishGivesWhatWasSealed` | ASN/client/client.c:448-532 | a Receiver that accepts an answer, whoever it was meant for, gets the K_content sealed in it |
| `ContentKey.FinishAcceptsOwn` | ASN/client/client.c:448-532 | the Receiver an answer was meant for accepts it iff it has no pin or the signature verifies under the pin |
| `ContentKey.PinnedMustVerify` | ASN/client/client.c:488-511 | whatever the answer, a Receiver with a pin accepts it only if the signature in it verifies under the pin over all bytes before its length |
| `ContentKey.CutShortIsRefused` | ASN/client/client.c:461-493 | an answer cut short anywhere is refused |
| `ContentKeyRuns.ReceiverHoldsRegisteredKey` | ASN/client/client.c:416-532 | in every run a successful Receiver holds a K_content registered for its content key (no separator), even if wire keys collide |
| `ContentKeyRuns.DoneUnderPin` | ASN/client/client.c:496-511 | in every run a Receiver that had a pin and succeeded was given an answer, made for its wire key, that verifies under the pin |
| `ContentKeyRuns.AnsweredOnlyIfItFits` | ASN/sender/sender.c:951-983 | in every run a Receiver that succeeded had a content key that fits together with the signature it was sent |
| `ContentKeyRuns.WhatFitsIsDelivered` | ASN/client/client.c:416-532 | a run in which an answer that can be sent is fetched and accepted |
| `ContentKeyRuns.AnsweredIff` | ASN/sender/sender.c:951-983 | a Receiver can succeed in some run iff some answer to it can be sent |
| `ContentKeyRuns.SeparatorMisleads` | ASN/sender/sender.c:1215-1226 | for every key with a separator whose answer can be sent, a run in which its Receiver gets another key's K_content |
| `SenderSlots.SlotPool.AcquireSlot` | ASN/sender/sender.c:240-253 | scans until a slot is free and takes the first free one of the first scan that finds any, whatever others do between scans |
| `SenderSlots.SlotPool.ReleaseSlot` | ASN/sender/sender.c:255-259 | the slot is free again and nothing else changes |
| `SenderSlots.SlotPool.SenderWaitResponse` | ASN/sender/sender.c:1029-1077 | returns the first response that echoes the slot's nonce, in whatever order others arrive |
| `SenderSlots.AcceptsIff` | ASN/sender/sender.c:1062-1074 | a response is accepted iff its nonce is the slot's |
| `SenderSlots.AtMostOneHolder` | ASN/sender/sender.c:240-259 | in every run a slot has at most one holder |
| `SenderSlots.AnswersNeverCross` | ASN/sender/sender.c:951-1077 | in every run of every pool in which no two requests of a slot share a nonce, a wait returns the answer to its own request |
| `SenderSlots.NeverCrossIff` | ASN/sender/sender.c:951-1077 | for every pool and list of requests: all runs that send it return only own answers iff no two requests of a slot share a nonce |
| `SenderSlots.SameNonceCrosses` | ASN/sender/sender.c:951-1077 | where two of a slot do share one, a run of these requests in which the later is handed the earlier one's answer, whatever it says |

## Left out

- Sockets, files, logging, tracing, consoles, environment variables and start-up: plumbing. A connect is a step that may fail; guard files are parameters.
- AES, HMAC, HKDF, ECDH and ECDSA themselves, and all claims of secrecy or probability.
- Pins of identities on disk, rate tiers, round-trip probes and delays: values or parameters where a step needs them.
- Wrap-around of 64-bit packet counters and of 32-bit generations: counters stay below 2^62 and a slot is allocated fewer than 2^32 times. The 32-bit tick counter does wrap in the model.
- Rounding of `double`: weights, credits and random numbers are exact reals, so the retry loop of the weighted draw never runs a second time.
- The other striping policies (random, batch, latency) and the single-slot dispatch mailbox of the Loopix build: they would only add easier members.
- Cover traffic as a schedule: a cover packet is a packet with its flags byte set, its timing is not modelled.
- The one-byte mode that opens every connection, and the allowlist check in front of the relayed handshake (a relay step connects to the next node of the chain).
- A second SETUP acknowledgement on a slot of the Sender: all are sent under one return header, so the mix nodes drop every one after the first (`ReturnPath.ReplayIsDropped`).
- Malicious parties: nodes, cache server and gateway follow their code.
- ReturnPath.Handle: a node handles one return packet at a time here; other threads between its lookup, confirmation and replay check are in MixSessionRuns.
- ForwardRoute.Handle: a node handles one packet of a path at a time here; other threads between its lock sections are in MixSessionRuns, and the delays and pools between nodes in MixPath.
- MixPath.PooledPacketsAreFound: how far the threads of a node displace packets of a session is a given bound per node, because the number of packets in hand does not limit it; and it assumes that no send on the path has failed so far, because each lost packet moves all later ones forward by a place.
- Striping.Striper.StripePickLeg: weights are not negative; the client also accepts settings with negative weights whose sum is positive (`ASN/client/client.c:859-864`).
- Gateway.SessionStore.FindASession: the table is a value of type `seq` that `env` replaces between two lock sections, because other threads write it while the lock is released; aliasing of slot pointers is modelled by indices in GatewayRuns.
- SenderSlots.SlotPool.AcquireSlot: assumes that some scan finds a free slot, because otherwise the source waits for ever.
- Telescope.HopsAgree: session tables full, failed key generation and closed connections end a handshake and are not steps, because nothing is claimed of a handshake that does not complete.
- TOR-equivalent, ASN/eval2, ASN/scripts and results: a weaker variant, simulation, measurement and plotting.
