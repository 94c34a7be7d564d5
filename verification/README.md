# Kepos VPN: a verified model of the packet policy, enrollment and framing

Kepos connects paired devices through a small IPv4 VPN. This project models the parts of it that decide who may talk to
whom, and proves what they promise over every input and every run:

- the per-peer stateful packet filter (`Packets`, `PacketBytes`, `PacketRoundTrips`, `InternetChecksum`,
  `SerialTracker`, `FlowTable`, `PacketPolicy`, `PolicyInvariants`, `PolicyHistory`, `FlowAdmission`, `FlowClosing`);
- the managed receiver: its store with an atomic save that may fail on either side of the rename (`ReceiverStore`,
  `Allocator`, `ReceiverPlans`, `ReceiverRuns`, `ReceiverChanges`), the generations of the packet runtime it restarts
  (`ReceiverGenerations`, `ReceiverLaunches`), the engine's sessions with their policies over whole runs (`EngineSessions`,
  `EngineTraces`, `EngineDelivery`), and its admission of strangers (`EnrollmentAdmission`);
- pairing end to end: the invitation and request texts (`Invitations`), and one attempt as a protocol over dialer, stream,
  receiver and store (`Pairing`, `PairingOutcomes`);
- the four stream decoders, in TypeScript, Swift and C, against one greedy parser (`Framing`, `PacketFraming`,
  `WorkletFraming`, `SwiftFrames`, `TunHelper`);
- the address, pool and route arithmetic (`Text`, `Addresses`, `Routes`).

## How it is built

Each object that changes in place is a class (`PacketPolicy`, `FlowRecord`, `ReceiverState`, `Receiver`, `VpnEngine`,
`AdmissionGate`, `PairAttempt`, the decoders and senders). Its methods are proved equal to a step function on values, and the
statements about whole runs are lemmas about sequences of those steps. `PacketPolicy` also carries its own history as ghost
state, so `Valid()` says that the object is at the end of a legal run, and every theorem on runs applies to it.
The store's operations, and each synchronous callback or serialized body, are single steps; a save has four outcomes, and
connections, replies, timeouts, crashes and reopenings come in any order. A crash during a save is a save that fails on one
side of the rename, followed by a reopening.

Clocks are parameters. Where a statement needs a clock that does not run backwards, it says so; the others hold for any clock
values. Random secrets and SHA-256 appear as hypotheses: secrets are fresh, and the digest is injective on them. The key of a
connection is the authenticated one.

Check the project with `dafny verify dfyconfig.toml`.

## Where code and documentation differ

The model follows the code.

- `docs/peer-vpn.md:116-118` gives incomplete handshakes five minutes and closed flows a grace of 60 seconds. The sweep runs at
  most once a second and only when a packet arrives, so the bounds that hold after a packet are 301 s and 61 s
  (`PolicyInvariants.ExpiryIsBounded`); without packets there is none. An ICMP error that quotes a flow also refreshes it.
- The comment at `src/vpn/receiver-state.ts:144-145` names a committed rename as the ambiguous failure. There is one more:
  when the temporary file cannot be removed after a successful save, the operation fails although the save is durable and the
  store stays usable. The dialer reads it as unknown, so its answers stay sound.
- `checksum` is the ones' complement sum of section 2 of RFC 1071 for up to 128 KiB only (`InternetChecksum.LongInputLosesCarry`).
  All its callers pass at most 1400 bytes.
- The guard on eight enrollment streams at `src/vpn/engine.ts:133` and the last unicast check at `src/vpn/receiver-state.ts:44`
  never take effect (`EnrollmentAdmission.NeverOverfull`, `Addresses.LastPoolAddressIsUnicast`).

## Model

| member | source | states |
|---|---|---|
| `Addresses.Ipv4IsInverseOfAddress` | src/vpn/receiver-state.ts:23-33 | `ipv4` accepts a text as number n if and only if n is unicast and the text is exactly `address(n)` |
| `Addresses.AddressInjective` | src/vpn/receiver-state.ts:31-33 | different numbers have different texts |
| `Addresses.UnicastRanges` | src/vpn/receiver-state.ts:27 | the numbers refused as not unicast are 0.0.0.0/8, 127.0.0.0/8, 169.254.0.0/16 and everything from 224.0.0.0 on |
| `Addresses.BlockUnicast` | src/vpn/receiver-state.ts:43-44 | an aligned block no larger than /16 is unicast in every number or in none |
| `Addresses.PoolBlock` | src/vpn/receiver-state.ts:35-46 | an accepted pool is an aligned block of 4 to 65536 numbers with a unicast base; its range is the block without first and last |
| `Addresses.PoolAcceptedExactly` | src/vpn/receiver-state.ts:35-46 | `poolRange` accepts a text if and only if it is the canonical CIDR text of an aligned unicast block with a prefix of 16 to 30 |
| `Addresses.PoolNumber` | src/vpn/receiver-state.ts:35-46 | every number of an accepted pool, both ends included, is unicast, and `ipv4` inverts `address` on it |
| `Addresses.LastPoolAddressIsUnicast` | src/vpn/receiver-state.ts:43-44 | the unicast check on the last pool address can never fail once the base has passed |
| `Routes.MaskComparesBlocks` | src/vpn/linux-tun.ts:131-132 | comparing two addresses under the shifted mask is comparing their quotients by the block size |
| `Routes.BlocksMeetAtABase` | src/vpn/linux-tun.ts:44 | two CIDR blocks share an address if and only if one contains the other's base |
| `Routes.RouteContainsBlock` | src/vpn/linux-tun.ts:120-133 | for a well-formed non-default route, `routeContains` is membership in the route's block |
| `Routes.OverlapTestIsExact` | src/vpn/linux-tun.ts:44 | for every accepted pool and every route with a prefix of 1 to 32, the two-sided test reports a conflict if and only if the two address intervals share an address |
| `Routes.ConflictsExactly` | src/vpn/linux-tun.ts:44 | the same on texts: for every accepted pool and every destination but the default ones, a conflict is reported if and only if they share an address, where a destination with a malformed prefix counts as its address part alone |
| `Routes.WrittenRouteConflicts` | src/vpn/linux-tun.ts:39-46 | a pool text and a CIDR text of prefix 1 to 32 conflict if and only if their two intervals of numbers overlap |
| `Routes.BareRouteConflicts` | src/vpn/linux-tun.ts:120-133 | a pool text and an address without a prefix conflict if and only if the address is one of the pool's numbers |
| `Routes.CheckPoolRoutes` | src/vpn/linux-tun.ts:39-46 | the loop throws a conflict exactly when some considered route conflicts, skipping default routes and the ignored interface; for an accepted pool, exactly when some considered route covers an address of the pool |
| `InternetChecksum.ComputeChecksum` | src/vpn/packet-policy.ts:36-43 | both loops end, with the fold of the start value and the word sum, on every byte string including odd lengths |
| `InternetChecksum.FoldRepresents` | src/vpn/packet-policy.ts:41-42 | below 2^32 the fold is the 16-bit representative of the sum modulo 65535 that is zero only for a zero sum |
| `InternetChecksum.FoldExactCondition` | src/vpn/packet-policy.ts:41-42 | for a sum of any size, where `>>>` drops what exceeds 32 bits: the fold is congruent if and only if the dropped multiple of 2^32 is a multiple of 65535, and it represents the sum (congruent, and zero only for a zero sum) if and only if, besides, the kept part is not zero or the whole sum is |
| `InternetChecksum.DroppedSumLooksZero` | src/vpn/packet-policy.ts:41-42 | the second half of that condition is needed: for the sum 65535 * 2^32 the residue survives and the fold is still wrong |
| `InternetChecksum.ChecksumRepresents` | src/vpn/packet-policy.ts:36-43 | for every input up to 128 KiB the checksum is the representative of the word sum |
| `InternetChecksum.LongInputLosesCarry` | src/vpn/packet-policy.ts:36-43 | the 128 KiB bound is tight: four bytes more, all 255, and the result stands for another sum |
| `InternetChecksum.ChainingIsConcatenation` | src/vpn/packet-policy.ts:105-109 | starting from the checksum of an even-length prefix equals summing the concatenation |
| `InternetChecksum.ComplementValidates` | src/vpn/packet-policy.ts:54 | storing the complement in a zeroed field always validates |
| `InternetChecksum.OverwriteDetected` | src/vpn/packet-policy.ts:54 | overwriting one word of validating data of at most 128 KiB, the zero-padded last byte of an odd length included, passes if and only if the new word is congruent modulo 65535 and not everything has become zero |
| `InternetChecksum.ChangedByteDetected` | src/vpn/packet-policy.ts:36-43 | changing any single byte of validating data of at most 128 KiB, odd lengths included, at any place and to any value, makes it fail |
| `Packets.SynIsBare` | src/vpn/packet-policy.ts:113-118 | a usable SYN carries no data, no FIN and no RST |
| `Packets.AddressesAreBound` | src/vpn/packet-policy.ts:87-92 | a packet that reaches the table carries the peer's and the local address in the order its direction demands, whatever the configured texts: its address bytes, dotted, are those texts, and the bytes of any number they stand for |
| `Packets.SegmentChecksumCoversBoth` | src/vpn/packet-policy.ts:105-109 | a usable segment's chained checksum is the checksum of pseudo-header and segment as one string |
| `Packets.TamperedSegmentIsUnusable` | src/vpn/packet-policy.ts:103-118 | overwriting any aligned word of a usable segment, the padded last byte included, by a value not congruent modulo 65535 makes it unusable |
| `Packets.TamperedHeaderIsStray` | src/vpn/packet-policy.ts:49-56 | the same for the IP header |
| `PacketBytes.TcpExactly` | src/vpn/packet-policy.ts:45-118 | a byte string is read as TCP segment s if and only if it is an unfragmented IPv4 packet of 40 to 1400 octets between the two addresses, without options, alive, with right checksums, that has the fields of s at the places of the standards; a SYN without data, FIN or RST |
| `PacketBytes.StrayExactly` | src/vpn/packet-policy.ts:84-93 | a byte string reaches the sweep if and only if it is such a packet, of any protocol, between the two addresses in its direction |
| `PacketBytes.QuotingExactly` | src/vpn/packet-policy.ts:195-208 | a byte string is read as quoting a flow if and only if it is an ICMP error of type 3, 11 or 12 with right checksums that quotes a header sent the other way, and the quoted ports are that flow's |
| `PacketRoundTrips.TcpRoundTrip` | src/vpn/packet-policy.ts:84-118 | a packet laid out field by field, with any addresses, non-zero ports, numbers, flags, options and data and don't-fragment set or clear, is read back as exactly those fields, in both directions |
| `PacketRoundTrips.QuotingRoundTrip` | src/vpn/packet-policy.ts:195-208 | an ICMP error about a segment, whatever is left of its time to live, comes the other way and quotes that segment's own flow, in both directions |
| `SerialTracker.ReachesWithinHalfSpace` | src/vpn/packet-policy.ts:32-34 | `reaches` on wrapped values is the sign of the difference modulo 2^32, and plain order when the true values are within half the space |
| `SerialTracker.MaxAckIsMaximum` | src/vpn/packet-policy.ts:174-180 | the reference acknowledgement is an upper bound of, and among, those seen in its direction |
| `SerialTracker.ClosedExactlyWhenAcked` | src/vpn/packet-policy.ts:185-190 | the reference closing time is defined if and only if each FIN is covered by the other side's highest acknowledgement |
| `SerialTracker.TrackerRefinesReference` | src/vpn/packet-policy.ts:173-191 | if compared true values stay within half the space, the stored acks are the true running maxima modulo 2^32, the stored FINs the first ones, and the flow is marked closed at exactly the packet that closes it, across any number of wraps |
| `SerialTracker.HalfSpaceIsTight` | src/vpn/packet-policy.ts:32-34 | a jump of exactly 2^31 breaks the refinement |
| `PacketPolicy.FlowRecord.Handshake` | src/vpn/packet-policy.ts:139-170 | the in-place handshake branches are the table specification's verdict: refuse, reset, answered at once, or go on |
| `PacketPolicy.FlowRecord.FeedTracker` | src/vpn/packet-policy.ts:173-191 | the in-place ack, FIN and closing updates are one step of the tracker |
| `PacketPolicy.FlowRecord.Absorb` | src/vpn/packet-policy.ts:171-191 | a non-reset segment refreshes the flow and feeds the tracker only once established |
| `PacketPolicy.PacketPolicy.constructor` | src/vpn/packet-policy.ts:69-77 | a new policy starts with the empty table and the empty history |
| `PacketPolicy.PacketPolicy.Clear` | src/vpn/packet-policy.ts:79-80 | flows and index are emptied, the sweep time stays; the history grows by this call |
| `PacketPolicy.PacketPolicy.Remove` | src/vpn/packet-policy.ts:82 | table and index lose exactly this key |
| `PacketPolicy.PacketPolicy.RemoveExpired` | src/vpn/packet-policy.ts:95-98 | the loop over the map drops exactly the expired flows from table and index |
| `PacketPolicy.PacketPolicy.SweepExpired` | src/vpn/packet-policy.ts:94-100 | the sweep runs at most once a second; then it removes exactly the expired flows and sets the next sweep time |
| `PacketPolicy.PacketPolicy.OpenFlow` | src/vpn/packet-policy.ts:126-138 | initiation, grant and capacity are checked in this order; at capacity the oldest closed flow makes room |
| `PacketPolicy.PacketPolicy.MakeRoom` | src/vpn/packet-policy.ts:130-134 | at 4096 flows the oldest closed flow is given up; there is no room exactly when none is closed |
| `PacketPolicy.PacketPolicy.AdvanceFlow` | src/vpn/packet-policy.ts:139-192 | a segment of a tracked flow changes the table as the flow specification says |
| `PacketPolicy.PacketPolicy.ForgetClosed` | src/vpn/packet-policy.ts:119-125 | a closed flow hit by a fresh SYN is forgotten, after the grant check |
| `PacketPolicy.PacketPolicy.AdmitTcp` | src/vpn/packet-policy.ts:119-193 | a closed flow hit by a fresh SYN is forgotten after the grant check, then the segment opens or advances a flow |
| `PacketPolicy.PacketPolicy.AdmitIcmp` | src/vpn/packet-policy.ts:195-213 | a quoted flow is refreshed and the error admitted; otherwise nothing changes |
| `PacketPolicy.PacketPolicy.Decide` | src/vpn/packet-policy.ts:84-193 | stray packets change nothing; every other packet sweeps first |
| `PacketPolicy.PacketPolicy.Admit` | src/vpn/packet-policy.ts:84-193 | on raw bytes the answer and the whole new table are those of the value specification, and the ghost history remains a legal run |
| `PolicyInvariants.PerformConsistent` | src/vpn/packet-policy.ts:84-193 | every call keeps table and index in agreement, the table within 4096 flows and the handshake flags ordered |
| `PolicyInvariants.ReachableConsistent` | src/vpn/packet-policy.ts:64-65 | in every reachable state `closed` lists exactly the closed flows, without repetition; at most 4096 flows; established implies replied implies a response sequence |
| `PolicyInvariants.PolicyObjectIsConsistent` | src/vpn/packet-policy.ts:63-67 | the same for every valid policy object |
| `PolicyInvariants.RefusedForCapacityExactly` | src/vpn/packet-policy.ts:130-134 | an otherwise admissible SYN is refused if and only if 4096 flows are not closed |
| `PolicyInvariants.PacketChangesOnly` | src/vpn/packet-policy.ts:84-138 | a packet touches only swept flows, its own port pair and at most the oldest closed flow at capacity; a stray packet touches nothing |
| `PolicyInvariants.RefusalRemovesOnly` | src/vpn/packet-policy.ts:121-128 | a refused packet removes nothing beyond the sweep, except its own closed flow when it is an outbound SYN while outbound initiation is off |
| `PolicyInvariants.EstablishedFlowIsRetained` | src/vpn/packet-policy.ts:94-100 | an established, not fully closed flow leaves the table only by `clear` or an admitted reset on its own port pair, at any clock values; otherwise it stays established with its origin |
| `PolicyInvariants.PerformTimely` | src/vpn/packet-policy.ts:93-100 | one call keeps the sweep's timing bounds under a non-decreasing clock |
| `PolicyInvariants.ReachableTimely` | src/vpn/packet-policy.ts:93-100 | over every run with a non-decreasing, non-negative clock the index is in closing order and no flow outlives its bound by more than a sweep interval |
| `PolicyInvariants.ExpiryIsBounded` | src/vpn/packet-policy.ts:93-100 | after any packet that passes the address checks no tracked flow was closed 61 s or more ago and no unestablished one was last seen 301 s or more ago |
| `PolicyInvariants.NotSweptEarly` | src/vpn/packet-policy.ts:95-98 | the sweep removes no flow before 60 s after closing or 5 min after an unestablished flow was last seen |
| `PolicyInvariants.SweptOnceASecond` | src/vpn/packet-policy.ts:93-100 | after a sweep no call within the next second removes an expired flow |
| `PolicyHistory.FlowStep` | src/vpn/packet-policy.ts:119-192 | a flow after a call was created by it under grant and initiation, advanced by an admitted segment of its own, or carried over with at most `lastSeen` refreshed |
| `PolicyHistory.FlowOrigin` | src/vpn/packet-policy.ts:126-167 | every tracked flow traces back to the call that opened it and to the calls that answered and confirmed it, with only retransmissions admitted in between |
| `PolicyHistory.EstablishedOnlyByHandshake` | src/vpn/packet-policy.ts:139-167 | an established flow was opened by a data-free SYN s, answered by a SYN-ACK (t, s+1) from the other side and confirmed by an ACK (s+1, t+1), in that order modulo 2^32; before that only repetitions of the first two passed |
| `PolicyHistory.UnestablishedReleasedOnlyByMatchingReset` | src/vpn/packet-policy.ts:142-160 | an admitted segment ends an unestablished flow only if it is a reset whose numbers match the handshake so far |
| `PolicyHistory.UngrantedInboundNeedsOutboundFlow` | src/vpn/packet-policy.ts:126-138 | an inbound packet to an ungranted port is admitted only on a flow that an outbound SYN opened and that was neither cleared nor replaced since |
| `PolicyHistory.ClosedDoor` | src/vpn/packet-policy.ts:119-138 | without grants and with outbound initiation off the table stays empty and no TCP or ICMP packet is ever admitted |
| `FlowClosing.FlowClosesWhenTrulyClosed` | src/vpn/packet-policy.ts:173-191 | over whole runs, while compared true numbers stay within half the space: an established flow is marked closed if and only if each side sent a FIN and the other side acknowledged the true sequence number, plus the data, plus one, of the first FIN segment admitted since the confirmation; the stored numbers are the true first FINs and highest acknowledgements modulo 2^32 |
| `FlowClosing.ClosedAtTheLastAck` | src/vpn/packet-policy.ts:185-190 | and the closing time is that of the very call after which both sides were done, and before which they were not |
| `FlowClosing.ClosedExactlyOnWire` | src/vpn/packet-policy.ts:182-187 | the same on the 32-bit fields alone, in runs whose acknowledgements stay within half the space of the FINs: for each direction an admitted acknowledgement lies 1 to 2^31 beyond sequence number plus data of the first FIN segment |
| `FlowAdmission.TrackedAdmittedExactly` | src/vpn/packet-policy.ts:139-192 | a segment on a tracked port pair that replaces no closed flow is admitted if and only if it is one of: the opening SYN repeated, a SYN-ACK for it (later only the stored one), the ACK of that SYN-ACK, a reset with matching numbers, or, once established, anything but a SYN without ACK from the responder; an admitted reset ends the flow, any other admitted segment replies, establishes and refreshes it as its fields say, a refused one changes nothing |
| `FlowAdmission.OpeningAdmittedExactly` | src/vpn/packet-policy.ts:119-138 | on a free port pair, or over a closed flow, a segment is admitted if and only if it is a SYN without ACK or RST, its side may initiate, an inbound one is for a granted port, and fewer than 4096 flows are not closed; the new flow holds its side and sequence number |
| `FlowAdmission.OtherAdmittedExactly` | src/vpn/packet-policy.ts:195-213 | an ICMP error is admitted if and only if the flow it quotes is tracked after the sweep, and then only refreshes it; nothing else that is not TCP is admitted |
| `FlowAdmission.EstablishedExactlyByHandshake` | src/vpn/packet-policy.ts:139-167 | over whole runs a tracked flow is established if and only if, since the SYN that opened it, the first SYN-ACK that answers that SYN was followed by an ACK that confirms the two, whether or not anything else arrived |
| `FlowAdmission.HandshakePasses` | src/vpn/packet-policy.ts:126-167 | once its SYN is admitted, every matching SYN-ACK and ACK, each within five minutes of the one before, are admitted and establish the connection |
| `Framing.ScanContinues` | src/vpn/framing.ts:37-76 | parsing a concatenation is parsing the first part and continuing on its rest; the basis of chunking independence |
| `Framing.DecodeOfEncode` | src/vpn/framing.ts:9-17 | decoding concatenated encodings returns the originals, with nothing left |
| `Framing.EncodeOfDecode` | src/vpn/framing.ts:37-76 | every stream is the encoding of the frames decoded from it followed by the undecoded rest |
| `Framing.CutStreamIsTruncated` | src/vpn/framing.ts:70 | a stream cut inside a frame delivers the frames before it and ends truncated, unless cut on the boundary |
| `Framing.FaultIsFinal` | src/vpn/framing.ts:54 | once a chunk has made the stream fail, later chunks change neither the frames nor the fault |
| `Framing.OneFrameExactly` | src/vpn/framing.ts:9-17 | two length bytes, the more significant one first, and a body: a packet if it has 20 to 1400 bytes, a message if it has 1 to 32768 and begins with 1 or 2, the respective error otherwise |
| `Framing.FrameBuffer.TakeHeader` | src/vpn/framing.ts:47-57 | one turn over the two length bytes, in place |
| `Framing.FrameBuffer.TakeBody` | src/vpn/framing.ts:59-66 | one turn over the body bytes, in place; a full body is released |
| `Framing.FrameBuffer.Take` | src/vpn/framing.ts:46-68 | one turn of the inner loop consumes some bytes and accounts for each of them |
| `PacketFraming.ReceiveChunk` | src/vpn/framing.ts:43-69 | after each chunk the delivered packets and the held bytes are the parse of everything received |
| `PacketFraming.Receive` | src/vpn/framing.ts:37-76 | for any split into chunks: exactly the packets of the greedy parse of the concatenation, failing exactly on a bad length or a truncated end |
| `PacketFraming.Sender.Send` | src/vpn/framing.ts:9-35 | length, concurrency and closed checks in order; an accepted packet goes out once, framed; a refused one leaves no byte |
| `PacketFraming.Sender.Settle` | src/vpn/framing.ts:18-34 | draining or closing ends the write in flight |
| `PacketFraming.Transfer` | src/vpn/framing.ts:9-76 | whatever was sent is received, in order and completely, however the bytes are split |
| `WorkletFraming.Receive` | src/vpn/worklet-framing.ts:65-99 | the same as for packets, with kinds: a complete frame of unknown kind fails too |
| `WorkletFraming.Sender.Send` | src/vpn/worklet-framing.ts:15-30 | an invalid frame or a 33rd pending one is refused and leaves nothing; otherwise it is queued last |
| `WorkletFraming.Sender.SendDiagnostic` | src/vpn/worklet-framing.ts:34-44 | a diagnostic is queued only when nothing else is, so it never displaces a message |
| `WorkletFraming.Sender.Write` | src/vpn/worklet-framing.ts:46-63 | writes happen in queue order, one frame each, and fail once the stream is destroyed |
| `WorkletFraming.Transfer` | src/vpn/worklet-framing.ts:15-99 | what was written is received, in order and completely, however the bytes are split |
| `SwiftFrames.EncodeMessageExactly` | apps/macos/Sources/KeposVPN/WorkletFrames.swift:18-26 | encoding throws exactly on an unknown kind or an overlong payload, and what it gives decodes to the one message |
| `SwiftFrames.Frames.Take` | apps/macos/Sources/KeposVPN/WorkletFrames.swift:31-45 | one turn of `append` consumes some bytes and accounts for each of them |
| `SwiftFrames.Frames.Append` | apps/macos/Sources/KeposVPN/WorkletFrames.swift:28-53 | after any appends, delivered messages and held bytes are the parse of everything appended |
| `SwiftFrames.Frames.Finish` | apps/macos/Sources/KeposVPN/WorkletFrames.swift:55-57 | `finish` succeeds exactly when the stream parses completely |
| `SwiftFrames.ReceiveSwift` | apps/macos/Sources/KeposVPN/WorkletFrames.swift:28-57 | for any split into chunks: the messages and the ending of the greedy parse |
| `SwiftFrames.DecodersAgree` | apps/macos/Sources/KeposVPN/WorkletFrames.swift:28-57 | the Swift and the TypeScript IPC decoder accept the same streams and deliver the same messages, each under its own chunking |
| `TunHelper.Pump.ReadDevice` | src/vpn/native/tun.c:50-54 | a packet read from the device is framed in the output buffer |
| `TunHelper.Pump.WriteOut` | src/vpn/native/tun.c:55-59 | a partial write advances through the frame without loss or repetition |
| `TunHelper.Pump.ReadIn` | src/vpn/native/tun.c:60-70 | bytes read from standard input are accounted for; the exit for a bad length happens exactly where the parse fails |
| `TunHelper.Pump.WriteDevice` | src/vpn/native/tun.c:71-76 | the whole packet is written, or the helper exits for a short write |
| `TunHelper.AgreesWithReceive` | src/vpn/native/tun.c:60-76 | the C packet reader takes the same packets from a stream as the TypeScript one |
| `TunHelper.EmittedDecodes` | src/vpn/native/tun.c:50-59 | what the helper writes decodes to the packets it read, if all have at least 20 bytes |
| `ReceiverStore.Validate` | src/vpn/receiver-state.ts:62-92 | `validate`, with its sets filled in loops, accepts exactly the well-formed states of this identity: at most 16 devices and invitations, distinct keys, distinct in-pool addresses other than the receiver's, valid grants, ten-minute invitations |
| `ReceiverStore.FindAvailable` | src/vpn/receiver-state.ts:196-200 | the allocator's loop finds the first free candidate |
| `ReceiverStore.ReceiverState.SaveState` | src/vpn/receiver-state.ts:131-152 | each outcome of a save, with file, memory and failure flag: durable; failed before or after the rename; or durable but reported as failed because the temporary file could not be removed |
| `ReceiverStore.ReceiverState.Invite` | src/vpn/receiver-state.ts:167-181 | creating an invitation has exactly the specified effect on file, memory and answer |
| `ReceiverStore.ReceiverState.ChooseDevice` | src/vpn/receiver-state.ts:189-203 | a known device is kept unless its address is excluded; a new one is refused for capacity or an exhausted pool, in this order |
| `ReceiverStore.ReceiverState.PrepareEnrollment` | src/vpn/receiver-state.ts:185-205 | what enrollment wants to save: the device list and the live invitations without the spent one, or a refusal |
| `ReceiverStore.ReceiverState.EnrollDevice` | src/vpn/receiver-state.ts:183-208 | the same for enrollment, with its refusals in the source's order |
| `ReceiverStore.ReceiverState.Grant` | src/vpn/receiver-state.ts:210-215 | the same for a changed grant |
| `ReceiverStore.ReceiverState.RevokeDevice` | src/vpn/receiver-state.ts:218-223 | the same for a revocation |
| `Allocator.FirstFreeIsLowest` | src/vpn/receiver-state.ts:196-201 | the scan returns the lowest free number and fails exactly when none is free |
| `Allocator.ScanIsShort` | src/vpn/receiver-state.ts:194-200 | pigeonhole: with more candidates than taken texts the scan succeeds within |taken| + 1 steps |
| `Allocator.WidePoolNeverRunsOut` | src/vpn/receiver-state.ts:192-201 | with 30 usable addresses or more a store with room for a device finds an address among the first 18 candidates |
| `Allocator.PrefixBoundsPoolSize` | src/vpn/receiver-state.ts:38-45 | 30 usable addresses or more means a prefix of /16 to /27 |
| `Allocator.AllocationIsLowest` | src/vpn/receiver-state.ts:191-203 | a new device gets the lowest pool address not taken and not excluded; the pool rejection occurs exactly when there is none |
| `ReceiverPlans.EnrollmentFacts` | src/vpn/receiver-state.ts:183-208 | an enrollment that saves spends one live invitation with the secret's digest, keeps a known device as it is or appends one new device, and leaves a valid state |
| `ReceiverPlans.EnrollmentGrantedExactly` | src/vpn/receiver-state.ts:183-204 | an enrollment saves if and only if key and secret are well formed, the key is not the receiver's, and the secret opens a live invitation whose exclusion leaves the device a place: its own address, or a free one while fewer than 16 devices exist |
| `ReceiverPlans.PlanKeepsValid` | src/vpn/receiver-state.ts:167-223 | whatever an operation saves passes `validate` again, under the same identity |
| `ReceiverRuns.OpenStore` | src/vpn/receiver-state.ts:105-129 | opening creates, reads or refuses the store as specified |
| `ReceiverRuns.ReachableCoherent` | src/vpn/receiver-state.ts:131-152 | over every run, with any digest and any secrets, a running store's file exists and has its identity, and file and memory agree unless a save has failed since the last opening |
| `ReceiverRuns.ReachableGood` | src/vpn/receiver-state.ts:62-224 | over every run of operations, save failures and reopenings, file and memory are valid, every stored invitation stems from a creation, and file and memory agree unless a save has failed |
| `ReceiverRuns.ReopenReturnsTheState` | src/vpn/receiver-state.ts:121-128 | reopening succeeds and reads exactly the file, which is the state in memory if no save has failed |
| `ReceiverRuns.SuccessFacts` | src/vpn/receiver-state.ts:183-208 | a successful enrollment spent an invitation created with its secret at most ten minutes earlier, and the device is in the file |
| `ReceiverRuns.SecretIsUsedAtMostOnce` | src/vpn/receiver-state.ts:131-208 | over every run of operations, save failures and reopenings a secret yields at most one successful enrollment |
| `ReceiverPlans.PlanKeepsDevice` | src/vpn/receiver-state.ts:204-222 | no operation but its revocation touches a device's address, and none but a grant for it its grant |
| `ReceiverRuns.DeviceKeepsAddress` | src/vpn/receiver-state.ts:183-223 | from enrollment to revocation a device keeps its address in the file, and its grant unless one is asked for, through failed saves and reopenings, whatever the digest |
| `ReceiverRuns.SuccessIsDurable` | src/vpn/receiver-state.ts:131-152 | an answered device is in the file, and in the memory of every later opening, until revoked |
| `ReceiverChanges.ReachableKeysDistinct` | src/vpn/receiver-state.ts:62-76 | over every run, with any digest and any secrets, no two stored devices share a key |
| `ReceiverChanges.RevocationExactly` | src/vpn/receiver-state.ts:218-223 | a revocation is answered with success if and only if the key is listed, no save failed before and this one goes well; then file and memory hold the list without that one device, all others unchanged and in order |
| `ReceiverChanges.RevocationIsFinal` | src/vpn/receiver-state.ts:218-223 | after that the key is in no file and no memory, through failed saves and reopenings, unless an enrollment of it commits later |
| `ReceiverChanges.AbsentUntilEnrolled` | src/vpn/receiver-state.ts:183-223 | a key that is nowhere comes back only by an enrollment of that key whose save reaches the file |
| `ReceiverChanges.GrantExactly` | src/vpn/receiver-state.ts:210-215 | a grant is answered with success if and only if it is at most 256 distinct ports or all, the key is listed, no save failed before and this one goes well; then that key has exactly this grant and nothing else changed |
| `ReceiverChanges.GrantIsInForce` | src/vpn/receiver-state.ts:210-215 | at every later moment the file has the device with exactly that grant, until it is granted something else or revoked |
| `ReceiverChanges.EnrollmentExactly` | src/vpn/receiver-state.ts:183-208 | an enrollment is answered with a device if and only if key and secret are well formed, the secret opens a live invitation that leaves the key a place, no save failed before and this one goes well |
| `ReceiverChanges.RefusalExactly` | src/vpn/receiver-state.ts:183-203 | an enrollment is refused as unusable if and only if a key or the secret is malformed, the key is the receiver's, or the secret opens no live invitation; otherwise for exclusion, capacity or an exhausted pool exactly when that is so, whatever the save would have done |
| `ReceiverChanges.InvitationExactly` | src/vpn/receiver-state.ts:167-181 | an invitation is answered if and only if its exclusion is a free pool address or absent, fewer than 16 invitations are live, no save failed before and this one goes well, and is refused with the reason that applies otherwise; then file and memory hold the live ones and the new one, good for ten minutes |
| `ReceiverChanges.InvitationIsRedeemable` | src/vpn/receiver-state.ts:167-208 | an answered invitation works for ten minutes until first used, through work for others, failed saves and reopenings: an enrollment with it succeeds if and only if the key is well formed, foreign and can have a place, and the store can save |
| `ReceiverChanges.FailedSaveStopsTheStore` | src/vpn/receiver-state.ts:144-161 | after a failed save nothing changes and everything is refused as a storage failure until the store is opened again |
| `ReceiverChanges.FailedSaveExactly` | src/vpn/receiver-state.ts:131-152 | a save that only leaves its temporary file behind is durable and the store goes on; a save that fails keeps the old memory, puts the store out of service, and has changed the file if and only if the rename had happened |
| `ReceiverChanges.ListingExactly` | src/vpn/receiver-state.ts:163-165 | listing answers the stored devices and changes nothing; a store out of service refuses it |
| `ReceiverChanges.OpeningExactly` | src/vpn/receiver-state.ts:105-129 | opening succeeds if and only if the identity is usable and either this opening creates the store and its save goes well or there is a file of that identity; then the store holds the file's state |
| `ReceiverGenerations.ReactSound` | src/vpn/receiver.ts:37-104 | every queued step keeps: at most the current runtime is up, enforcing a prefix of the stored device list, and none is up while a command is between its stop and its launch |
| `ReceiverGenerations.NoStaleGeneration` | src/vpn/receiver.ts:73-79 | at most one runtime is live and the list it enforces is a prefix of the store's, in memory and file, with the same addresses and grants |
| `ReceiverGenerations.GenerationIsCurrent` | src/vpn/receiver.ts:37-79 | a live runtime enforces exactly the list that was stored when it was launched, and since then the stored list has only grown: no revocation and no changed grant escapes it |
| `ReceiverGenerations.ChangesOnlyWhileStopped` | src/vpn/receiver.ts:90-100 | the stored list stops extending its former self, by a changed grant or a revocation, only while no runtime is up |
| `ReceiverGenerations.StoppedForGood` | src/vpn/receiver.ts:144-156 | after `stop` nothing runs and nothing starts again |
| `ReceiverLaunches.CommandStartsExactly` | src/vpn/receiver.ts:84-92 | a grant or revoke command gets as far as changing the store if and only if the store works, the device is known, a grant is acceptable and the old runtime stops; by then no runtime is up |
| `ReceiverLaunches.CommandTakesEffect` | src/vpn/receiver.ts:84-100 | when its change is saved and the next launch succeeds, the runtime then enforces the list of the moment of the command with exactly this change made |
| `ReceiverLaunches.FailedChangeLaunchesNothing` | src/vpn/receiver.ts:93-99 | after a change that was not saved cleanly no runtime is up and none is coming |
| `ReceiverLaunches.RevokedIsNotEnforced` | src/vpn/receiver.ts:90-100 | after a saved revocation no runtime ever enforces a list with that key again, unless an enrollment of it was saved in between |
| `ReceiverLaunches.EnrolledIsListed` | src/vpn/receiver.ts:51-62 | an enrollment that the store answers with a device leaves that device in the store's list |
| `ReceiverLaunches.ListedIsEnforced` | src/vpn/receiver.ts:42-75 | a device in the store's list is in the list of every runtime launched later, at its address, until it is revoked |
| `ReceiverLaunches.RestartIsDue` | src/vpn/receiver.ts:63-79 | once a commit is announced the restart is to come, is launching, or has launched, unless the receiver stops or the old runtime cannot be stopped |
| `ReceiverLaunches.UnaskedChangesNothing` | src/vpn/receiver.ts:51-62 | an enrollment with a route conflict, on an ended stream, or while stopping is never put to the store: nothing changes |
| `ReceiverLaunches.InviteIsStored` | src/vpn/receiver.ts:82 | an invite command whose save goes well ends with its invitation in file and memory, good for ten minutes |
| `ReceiverLaunches.StoppingForgetsRestart` | src/vpn/receiver.ts:144-148 | once stopping has begun no restart is left due, unless a commit is announced yet |
| `ReceiverGenerations.Receiver.constructor` | src/vpn/receiver.ts:134-135 | once started, one runtime enforces the opened store's list |
| `ReceiverGenerations.Receiver.OnEnrollment` | src/vpn/receiver.ts:51-62 | route conflict, ended stream and store answer, in this order; the store is asked only when the first two pass |
| `ReceiverGenerations.Receiver.OnInvite` | src/vpn/receiver.ts:82 | the invite command is one store operation |
| `ReceiverGenerations.Receiver.OnTimer` | src/vpn/receiver.ts:66-79 | the delayed restart stops the current runtime, unless the receiver is stopping |
| `ReceiverGenerations.Receiver.OnCommand` | src/vpn/receiver.ts:84-92 | a grant or revoke command is checked first and then stops the runtime before touching the store |
| `ReceiverGenerations.Receiver.ApplyChange` | src/vpn/receiver.ts:93-95 | the change is stored while nothing runs; a failure leaves nothing running |
| `ReceiverGenerations.Receiver.LaunchRuntime` | src/vpn/receiver.ts:42-75 | a new runtime enforces the list read from the store |
| `ReceiverGenerations.Receiver.FinishStopping` | src/vpn/receiver.ts:146-153 | stopping ends the last runtime |
| `EngineSessions.FirstFrameConnects` | src/vpn/engine.ts:182-195 | the first frame of a current session connects the peer if and only if it is the greeting, with or without enrollment |
| `EngineSessions.ReactSound` | src/vpn/engine.ts:153-259 | every event keeps reports alternating and in step with readiness, readiness only on current sessions, and at most one TUN write |
| `EngineSessions.ReportsAlternate` | src/vpn/engine.ts:153-259 | over every run the reports of a peer alternate starting with connected, end with disconnected after `stop`, and at most one TUN write is in flight |
| `EngineSessions.WriteFollowsGreeting` | src/vpn/engine.ts:180-202 | a packet starts toward the TUN only on the peer's current session, after that session's greeting, when no other write is in flight and the policy admits it |
| `EngineSessions.WrittenPacketsAreBound` | src/vpn/engine.ts:198-201 | such a packet carries the peer's configured address as source and the local one as destination |
| `EngineSessions.SentFollowsGreeting` | src/vpn/engine.ts:310-318 | a TUN packet is handed only to the current session of the peer that has its destination address, after that session's greeting, admitted by that session's policy, with this machine's address as source and the peer's as destination |
| `EngineSessions.BusyDropsChangeNothing` | src/vpn/engine.ts:197 | over any stretch of a run in which a write is in flight and only later frames arrive, whatever the sessions, the whole engine state is unchanged, every policy included |
| `EngineSessions.VpnEngine.AttachStream` | src/vpn/engine.ts:153-158 | a stream becomes the peer's session only if there is none and the engine runs |
| `EngineSessions.VpnEngine.FirstFrame` | src/vpn/engine.ts:182-195 | the receive callback on a first frame: enrollment, mismatch or greeting |
| `EngineSessions.VpnEngine.ReceiveFrame` | src/vpn/engine.ts:180-202 | the receive callback has exactly the specified effect on sessions, policy, reports and writes |
| `EngineSessions.VpnEngine.StreamClosed` | src/vpn/engine.ts:170-176 | closing forgets the session only if it is current and reports a disconnect only if it was ready |
| `EngineSessions.VpnEngine.SendOut` | src/vpn/engine.ts:310-318 | from the raw packet: length and version, the lookup of the peer by destination, its ready session and that session's policy, which is left as the admission leaves it |
| `EngineSessions.VpnEngine.StopEngine` | src/vpn/engine.ts:240-251 | the loop over the sessions clears every policy and reports each ready peer once |
| `EngineTraces.SessionLog` | src/vpn/engine.ts:157-202 | in every reachable engine the policy of every session is the last table of a legal run of its peer's policy, whose calls were made, in order, by events of the engine's run; so every theorem on policy runs holds for it |
| `EngineTraces.SessionPoliciesAreConsistent` | src/vpn/engine.ts:157 | every session's table and index agree, within 4096 flows, in every reachable engine |
| `EngineTraces.UngrantedWriteNeedsOutboundSyn` | src/vpn/engine.ts:196-201 | a TCP packet to a port not granted starts toward the TUN only if outbound initiation is on and an earlier packet from the TUN was a SYN on that port pair for that same session |
| `EngineTraces.PeerIsFixed` | src/vpn/engine.ts:153-158 | a session keeps its peer, and so its configured policy, for good |
| `EngineDelivery.SessionsExactly` | src/vpn/engine.ts:153-195 | a session is its peer's current one if and only if it was attached while the peer had none and the engine ran, and neither its stream closed nor the engine stopped since; it is ready if and only if, moreover, its very first frame was the greeting |
| `EngineDelivery.WritingExactly` | src/vpn/engine.ts:197-201 | the busy flag is set if and only if a write has started and not ended |
| `EngineDelivery.WritesExactly` | src/vpn/engine.ts:180-202 | a frame starts toward the TUN if and only if its session has been greeted and still serves, no write is in flight, and that session's policy admits it |
| `EngineDelivery.SendsExactly` | src/vpn/engine.ts:310-318 | a packet from the TUN is handed to a stream if and only if it is IPv4, the stream is the greeted session of the peer that has its destination address, and that session's policy admits it |
| `EngineDelivery.EstablishedDataIsWritten` | src/vpn/engine.ts:180-202 | any TCP packet the peer builds on the port pair of an established connection, other than a SYN without ACK, starts toward the TUN when it arrives on the greeted session while no write is in flight |
| `EnrollmentAdmission.NeverOverfull` | src/vpn/engine.ts:132-134 | live enrollment streams plus reservations never exceed 8, at any clock values, so the second guard on 8 streams is unreachable |
| `EnrollmentAdmission.AdmissionsAreSpaced` | src/vpn/engine.ts:268-276 | under a non-decreasing clock any two admissions 32 places apart in the whole run are at least 60 s apart |
| `EnrollmentAdmission.KnockAdmittedExactly` | src/vpn/engine.ts:268-276 | under a non-decreasing clock a stranger is let in if and only if the engine runs, fewer than 32 were in the last minute, streams and unexpired reservations are fewer than 8, and none of these is the stranger's own |
| `EnrollmentAdmission.ReservationsExactly` | src/vpn/engine.ts:270-274 | a reservation is there if and only if an admitted knock of that stranger made it and it was neither used nor purged since; it lasts ten seconds |
| `EnrollmentAdmission.StreamsExactly` | src/vpn/engine.ts:299-303 | a stranger's stream is taken on if and only if there is such a reservation and the engine runs; the reservation is used up either way |
| `EnrollmentAdmission.LiveStreamsExactly` | src/vpn/engine.ts:132-151 | a stranger's stream counts against the limit exactly from when it was taken on until it ends |
| `EnrollmentAdmission.AdmissionGate.PurgeReservations` | src/vpn/engine.ts:270 | the loop drops exactly the expired reservations |
| `EnrollmentAdmission.AdmissionGate.Firewall` | src/vpn/engine.ts:268-276 | the firewall's enrollment branch, with both purging loops, admits and refuses as specified |
| `EnrollmentAdmission.AdmissionGate.Connected` | src/vpn/engine.ts:299-303 | a connection uses up its reservation and is kept only if it had one |
| `Invitations.FormatInvertsParse` | src/vpn/invitation.ts:4-14 | `formatInvitation` and `parseInvitation` are inverse in both directions on every input |
| `Invitations.KeysHaveText` | src/vpn/invitation.ts:10-14 | an invitation has a text if and only if both parts are 64 lower-case hexadecimal digits |
| `Invitations.InvitationExactly` | src/vpn/invitation.ts:4-14 | a text is an invitation if and only if it is the scheme, a key, a colon and a secret, both of 64 lower-case hexadecimal digits |
| `Invitations.SecretOfRequest` | src/vpn/invitation.ts:19-30 | a frame yields a secret if and only if, up to the bits ASCII decoding drops, it is the request for that secret; every request yields its own secret |
| `Invitations.RequestExactly` | src/vpn/invitation.ts:16-30 | a frame asks with a secret if and only if its characters are the words of the request and that secret; it is no request if and only if it does not begin with the words |
| `Pairing.PairAttempt.constructor` | src/vpn/pair.ts:14-18 | an unparsable invitation settles the attempt as unusable before anything is sent |
| `Pairing.PairAttempt.Settle` | src/vpn/pair.ts:25-31 | only the first `finish` counts |
| `Pairing.PairAttempt.OnCut` | src/vpn/pair.ts:32-35 | timeout, close and error mean unavailable before the request was submitted and unknown after |
| `Pairing.PairAttempt.OnConnect` | src/vpn/pair.ts:36-41 | the request goes out once the authenticated key is the invitation's and the attempt is open; the frame asks with the invitation's secret |
| `Pairing.PairAttempt.OnFrame` | src/vpn/pair.ts:42-59 | each kind of reply settles the attempt as specified, the greeting not at all |
| `Pairing.PairAttempt.OnReceiveEnded` | src/vpn/pair.ts:60-61 | a stream that ends without an answer means unknown |
| `Pairing.AnswerRequest` | src/vpn/engine.ts:108-130 | the receiver's reply is its store's answer: accepted exactly when it committed, refusals with their reason, everything else unknown; a frame that is no request leaves the store alone |
| `Pairing.OneEnrollment` | src/vpn/engine.ts:139-152 | each stream carries at most one enrollment |
| `Pairing.OutcomeIsFinal` | src/vpn/pair.ts:24-31 | once done the dialer never changes its answer and never submits |
| `Pairing.RefusalSavesNothing` | src/vpn/receiver-state.ts:185-201 | an enrollment answered with a refusal or as unusable left file and memory as they were |
| `Pairing.PairedMeansCommitted` | src/vpn/pair.ts:52-57 | under every interleaving of losses, timeouts, save failures and other work, a returned configuration means that this attempt's request spent the invitation within its life and put this key with this address into the file; keys and addresses are the receiver's own |
| `Pairing.PairedIsDurable` | src/vpn/pair.ts:52-57 | and the file holds that key and address at every later step until a revocation |
| `Pairing.FailureMeansNothingCommitted` | src/vpn/pair.ts:32-51 | every failure other than unknown means that nothing this attempt asked of the store, before or after, changed file or memory |
| `Pairing.OnePairingPerInvitation` | src/vpn/receiver-state.ts:183-207 | of any attempts with one invitation against one receiver at most one device is told it is paired |
| `Pairing.CommitReadsAsPaired` | src/vpn/pair.ts:52-58 | a commit whose answer arrives never reads as unknown: the store's addresses always make a configuration |
| `Pairing.UnknownIsUnavoidable` | src/vpn/pair.ts:12 | whenever a grant is due and undecided, the run can end in unknown with the device in the file and also with the store untouched, the dialer seeing the same |
| `PairingOutcomes.OutcomeNeedsDecision` | src/vpn/pair.ts:13-35 | there is no outcome if and only if the text parses and no event has decided; a text that does not parse is unusable from the start |
| `PairingOutcomes.OutcomeExactly` | src/vpn/pair.ts:25-61 | the first deciding event settles the attempt: a break means unknown if and only if the receiver of the invitation had been reached and unavailable otherwise, a wrong receiver means unavailable, a frame means exactly what the store answered (the configuration, its refusal's reason, unusable, or unknown) |
| `PairingOutcomes.UnknownNeedsRequest` | src/vpn/pair.ts:32-41 | unknown is never said unless the request was on its way; an attempt that never reached its receiver ends in unavailable |
| `PairingOutcomes.SentAnswerIsUnderWay` | src/vpn/pair.ts:42-45 | while nothing has decided, an answer that was sent is the last of at most two frames still to be read, behind the greeting |
| `PairingOutcomes.KnownPeerIsGreeted` | src/vpn/engine.ts:132-179 | a peer the receiver knows is greeted first, a stranger is not |
| `PairingOutcomes.DroppedStreamNeverEnrolls` | src/vpn/engine.ts:132-152 | a stream that was dropped, or has carried its enrollment, never carries another |

## Left out

- Routes.CheckPoolRoutes: takes the route list as given; running `ip` and reading its output are I/O. A prefix written in one of JavaScript's other numeral forms (sign, hexadecimal, exponent, blanks) reads as no prefix, although `Number` would accept it.
- EngineSessions.VpnEngine.ReceiveFrame: a session's policy is the table value of `FlowTable` rather than a `PacketPolicy` object; `PacketPolicy.PacketPolicy.Admit` proves that the two agree, and `EngineTraces.SessionLog` that the values are those of legal policy runs. Only the decision about a frame is modelled; failures of a TUN write end in `Close`.
- EngineSessions.VpnEngine.SendOut: ends when the packet is handed to the peer's stream; the write itself, and that its failure destroys the stream (a `Close` event), are not modelled.
- ReceiverGenerations.Receiver.LaunchRuntime: starting a runtime is one step, and the first launch happened before the first state. The `failed` promise that ends the process after a storage error is not modelled; the store refuses all operations from then on.
- Pairing.AnswerRequest: a reply is a value; its JSON text, and that it fits a frame, are not modelled. A route check that fails for another reason than a conflict counts as a closed stream, since both end in an unknown reply.
- Pairing.PairAttempt.OnFrame: takes the reply as parsed, and of `parsePeerConfig` models what depends on the reply, the two addresses; the network options come from the caller.
- PacketFraming.Receive: the deliver callback is assumed not to throw; destroying the streams on failure is not modelled.
- WorkletFraming.Receive: the deliver callback is assumed not to throw; destroying the streams on failure is not modelled.
- ReceiverStore.Validate: the JSON version field, the exact key sets and the types of the values are not modelled; a file that parses is a `State`.
- ReceiverGenerations.Receiver.OnTimer: a stop of the old runtime that fails still takes that generation down, since the engine drops its sessions before any cleanup can fail (`src/vpn/engine.ts:240-250`); what fails is only the step that would follow.
- ReceiverGenerations.Receiver.OnCommand: the same for a stop that fails inside a grant or revoke command; the store is then not touched.
- PacketFraming.Sender.Send: the wait for `drain` is one flag, and its end is `Settle`.
- TunHelper.EmittedDecodes: the helper frames whatever the kernel delivers; a device packet under 20 bytes would be refused by the TypeScript reader, and the lemma says so.
- ReceiverRuns.OpenStore: file modes, owners, symbolic links, the 256000-byte limit and the JSON text of the file are not modelled; a file is either a state or absent.
- InternetChecksum.ComputeChecksum: sums are unbounded integers up to the fold, which models the 32-bit `>>>`; the double's 2^53 limit lies beyond any buffer.
- Not modelled because they are I/O or foreign calls: HyperDHT, Noise, sockets, the TUN device and its ioctls, child processes, `ip` commands, the dialer's loop of reconnections, the control socket of the receiver.
- Log throttling, log texts and acceptance diagnostics report on decisions without taking part in them, so they do not occur in the model's states.
- The handshake and connection timeouts close a stream at some moment; the model has `Close` at every moment. The limit of one admission a second for a known peer only delays when a stream is attached, and attaching is an event of the environment here.
- The Swift `WorkletOutput` is a lock and a flag around one file descriptor; what it writes is what `EncodeMessage` gives.
- The tunnel lifecycle of the apps, the configuration file, the CLI, the website and the menu bar app start, stop or display the parts modelled here and touch none of their state; they run in frameworks outside this repository.
