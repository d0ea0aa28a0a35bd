# Verification of the Basis Rust server and client

A Dafny model of the parts of this repository in which the behaviour is hard to see from one
function: the pipeline that carries an avatar pose from a client through the server to other
clients, and the state machines around it. Everything is proved for all inputs and all runs.

- **Poses.** `Bits`, `Rescale`, `SlotLayout`, `PackedSlot`, `SlotTable`, `Avatar` and `ClientPose` follow a
  quantised rotation from the client's bit-wise writer through the server's byte-chunked
  repacking to the decoder of a receiver.
- **Bundles and datagrams.** `AvatarBundle` and `BundleEmission` model compressed bundles and the greedy
  loop that emits them, `Merge` and `UnreliableBatch` the merging into datagrams, `ServerMerge` how the
  server takes them apart.
- **Reliable delivery.** `AckWindow` is the modular ack arithmetic and its refinement of unbounded
  numbers, `AckRuns` whole runs over a bad network, `AckPackets` the packets and in-place bitmaps;
  `SendWindow`, `SendFates` and `PeerSender` are the send window, what becomes of sent packets, and the
  in-place form.
- **Relay.** `Relay`, `RelayDelivery` and `AvatarRelay` (newest update wins, rate limit, what is sent when),
  `Scheduler` (slices of receivers), `SpatialGrid` (near peers first).
- **Peers.** `PeerIds`, `PeerInvariants`, `PeerFates` and `PeerTable` (ids and addresses), `P2p`,
  `P2pInvariants`, `P2pRuns`, `P2pPunch`, `P2pFates` and `P2pBroker` (peer-to-peer sessions).
- **Permissions.** `Permissions` resolves nodes through a group graph, `PermissionChecks` says what that means
  for the texts in a store, `PermissionMeaning` what the lines of any file state; `Escaping`, `PermissionLines`,
  `PermissionReader`, `PermissionCleaning` and `PermissionFile` are the text format.
- **Messages.** `ReadyCodec` and `ReadyIo` (the ready message), `Ogg` and `OggLacing` (packets in an Ogg stream).

Code that updates state in place is modelled by classes and methods; each is proved against a
specification function on values, and the guarantees are lemmas about those functions and about
runs of them. Bytes are integers below 256, bit operations are defined digit by digit, and machine
integers wrap or saturate where the code's do. Hash maps and sets are walked in arbitrary order.

Where the code falls short of what one might expect, the model keeps the code, gives a failing run and
says exactly when the guarantee holds: a stale ack after a wrap of the sequence space
(`AckRuns.StaleAckExample`, `AckRuns.DeliveryExactIff`), a reused session token (`P2pRuns.ReuseExample`,
`P2pRuns.TrackedThroughoutIff`, `P2pRuns.BackedThroughoutIff`), a retired id handed out again after the
id counter has gone round (`PeerInvariants.ReissueExample`, `PeerInvariants.RetiredReissuedExactly`), a
tick overtaken by a new configuration (`Scheduler.OvertakenTick`, `Scheduler.AdaptKeepsRangeExactly`),
packets too short for their header in a merged datagram (`ServerMerge.ShortPacketsLost`,
`ServerMerge.ServerRoundTripIff`), and strings with line breaks in the permission file
(`PermissionCleaning.LineBreakLost`, `PermissionFile.SaveAndLoad`).

Check everything with `dafny verify dfyconfig.toml`.

## Model

| member | source | states |
|---|---|---|
| `Rescale.RescaleRounds` | BasisRustServer/crates/basis-protocol/src/avatar.rs:168-178 | rescaling is true rounding: the result times the source maximum is off by at most half of (source maximum - 1), for all widths of at least 1 |
| `Rescale.RescaleNearest` | BasisRustServer/crates/basis-protocol/src/avatar.rs:168-178 | no other target code is nearer to the rescaled value |
| `Rescale.RescaleMonotone` | BasisRustServer/crates/basis-protocol/src/avatar.rs:168-178 | a larger code never becomes a smaller one |
| `Rescale.RescaleEndpoints` | BasisRustServer/crates/basis-protocol/src/avatar.rs:168-178 | zero goes to zero and the largest code to the largest code |
| `Rescale.RescaleInRange` | BasisRustServer/crates/basis-protocol/src/avatar.rs:168-178 | every source code becomes a code of the target width |
| `Rescale.RescaleUpThenDown` | BasisRustServer/crates/basis-protocol/src/avatar.rs:168-178 | widening a code and narrowing it again gives it back |
| `Rescale.RescaleFitsWord` | BasisRustServer/crates/basis-protocol/src/avatar.rs:175-177 | for the widths of the bone tables the numerator stays far inside 64 bits |
| `Bits.FieldOfField` | BasisRustServer/crates/basis-protocol/src/avatar.rs:136-140 | shifting and masking a wide field selects the narrower field inside it |
| `SlotLayout.SlotsDisjoint` | BasisRustServer/crates/basis-protocol/src/avatar.rs:156-166 | the digits of an earlier bone slot end before those of a later one begin |
| `SlotLayout.BitOffsets` | BasisRustServer/crates/basis-protocol/src/avatar.rs:156-166 | the offset loop computes for every slot the total width of all slots before it |
| `PackedSlot.ReadBits` | BasisRustServer/crates/basis-protocol/src/avatar.rs:180-199 | the byte-chunked reader returns exactly the digits of the buffer from the given position, across byte boundaries |
| `PackedSlot.WriteBits` | BasisRustServer/crates/basis-protocol/src/avatar.rs:201-224 | the byte-chunked writer ORs exactly the low digits of the value into place and changes no other digit |
| `PackedSlot.PackedBits` | BasisRustServer/crates/basis-protocol/src/avatar.rs:142-145 | which digit of the packed word holds which digit of which component |
| `PackedSlot.StoredDecodes` | BasisRustServer/crates/basis-protocol/src/avatar.rs:136-145 | a rotation written as a packed word is read back as the same rotation |
| `SlotTable.RepackWordPacks` | BasisRustServer/crates/basis-protocol/src/avatar.rs:136-145 | from the word of a slot, the packed form of its four fields: the dropped component as it is, the other three rescaled in their order |
| `SlotTable.RepackOneSlot` | BasisRustServer/crates/basis-protocol/src/avatar.rs:132-147 | the fields of one source slot, rescaled, are ORed into the slot of the same number in the target, and no digit outside it changes |
| `SlotTable.RepackSlots` | BasisRustServer/crates/basis-protocol/src/avatar.rs:132-147 | after the loop, field by field: the dropped component of every slot is copied and each of the other three is the rescaled one of its own number; bytes outside the rotation area are as before |
| `SlotTable.RepackPayload` | BasisRustServer/crates/basis-protocol/src/avatar.rs:118-153 | position and tail copied, all slots rescaled, bytes past the target length untouched, whatever the buffer held before |
| `Avatar.RotationsFit` | BasisRustServer/crates/basis-protocol/src/avatar.rs:17-65 | the 51 slots of each quality fit its rotation bytes, with less than one spare byte |
| `Avatar.MediumWrittenOut` | BasisRustServer/crates/basis-protocol/src/avatar.rs:54-57 | the table of medium widths, entry by entry |
| `Avatar.LowWrittenOut` | BasisRustServer/crates/basis-protocol/src/avatar.rs:58-61 | the table of low widths |
| `Avatar.VeryLowWrittenOut` | BasisRustServer/crates/basis-protocol/src/avatar.rs:62-65 | the table of very low widths |
| `Avatar.HighWrittenOut` | BasisRustServer/crates/basis-protocol/src/avatar.rs:50-53 | the table of high widths |
| `Avatar.RepackedBone` | BasisRustServer/crates/basis-protocol/src/avatar.rs:103-154 | every bone of a repacked payload drops the same component, and its first, second and third stored ones are those of the source bone, rescaled |
| `Avatar.RepackHighToLowerInto` | BasisRustServer/crates/basis-protocol/src/avatar.rs:103-154 | the three refusals in their order and no write on refusal; otherwise the first 12 bytes and the last 22 copied, all slots rescaled field by field, and the rest of the buffer untouched |
| `ClientPose.WritersAgree` | BasisRustClient/src/main.rs:589-612 | two writers that OR the same digits at the same place leave the same bytes, so the client's bit-wise and the server's chunked writer agree |
| `ClientPose.BitWriter.WriteBits` | BasisRustClient/src/main.rs:599-612 | the bit-wise writer ORs the digits that still fit into the buffer and stops silently at its end |
| `ClientPose.BitWriter.WriteSmallestThree` | BasisRustClient/src/main.rs:614-628 | the dropped component and the other three, in ascending order, stand packed at the current bit |
| `ClientPose.WriteHighQualityRotations` | BasisRustClient/src/main.rs:574-587 | from a dirty buffer: all bones stand packed one after the other |
| `ClientPose.ClientTableAgrees` | BasisRustClient/src/main.rs:562-565 | the client's own table of widths is the server's |
| `ClientPose.PoseReachesServer` | BasisRustClient/src/main.rs:574-629 | at the server's place for bone i stand the number of the dropped component and, in ascending order, the codes of the other three |
| `ClientPose.PoseSurvivesRepacking` | BasisRustServer/crates/basis-protocol/src/avatar.rs:103-154 | end to end: in a repacked payload each of the client's codes stands rescaled at the place of its component |
| `AckWindow.RelativeSequenceExact` | BasisRustServer/crates/basis-transport/src/lib.rs:1615-1626 | the modular comparison returns the true difference of two unbounded numbers if and only if they are less than half the space apart, or exactly half apart with the later one having the smaller wire value |
| `AckWindow.SlotStandsForOne` | BasisRustServer/crates/basis-transport/src/lib.rs:1276-1302 | an occupied slot of the 128-slot ring stands for exactly one number of the window |
| `AckWindow.QueueAckCovers` | BasisRustServer/crates/basis-transport/src/lib.rs:1276-1302 | after an arrival the ack covers what it covered and the window still holds, plus the arrival, and nothing else; for every arrival, jump or wrap |
| `AckWindow.QueueAckRefines` | BasisRustServer/crates/basis-transport/src/lib.rs:1276-1302 | within half the number space the modular bookkeeping refines the same bookkeeping over unbounded numbers |
| `AckWindow.CoversRefines` | BasisRustClient/src/main.rs:1117-1134 | a sender within the 15-bit space of everything acknowledged reads the ack as the unbounded protocol means it |
| `AckWindow.ArrivalsRefine` | BasisRustServer/crates/basis-transport/src/lib.rs:1276-1302 | for any list of arrivals, each less than half the number space from the true window start at its time, the ack folded on the wire is the wire form of the ack folded over unbounded numbers |
| `AckWindow.SpokenCovered` | BasisRustServer/crates/basis-transport/src/lib.rs:1276-1302 | for any list of arrivals at all, the ack covers the wire numbers of the arrivals it still speaks of and no others |
| `AckWindow.SpokenIsTrue` | BasisRustServer/crates/basis-transport/src/lib.rs:1276-1302 | for arrivals within half the number space, what the ack speaks of is what the unbounded ack acknowledges |
| `AckRuns.StepKeeps` | BasisRustServer/crates/basis-transport/src/lib.rs:1276-1311 | every step of a lossy, duplicating, reordering run keeps: the queued ack and every ack under way are the fold of a list of arrivals that were received, and whatever was acked shares its wire number with something received |
| `AckRuns.QueueSpeaksSinceDrain` | BasisRustServer/crates/basis-transport/src/lib.rs:1276-1311 | in every run the queued ack is the fold of the arrivals since the last drain, read off the steps: a number it covers is that of one of them |
| `AckRuns.AckSoundOnWire` | BasisRustClient/src/main.rs:1117-1134 | over every run, without any condition: a packet settled by an ack shares its wire number with one that was received |
| `AckRuns.BufferedExactly` | BasisRustClient/src/main.rs:1117-1134 | a packet is buffered after a step exactly when it was sent by it, or was buffered and neither evicted nor covered by an ack that arrived |
| `AckRuns.DeliveryExactIff` | BasisRustClient/src/main.rs:1117-1134 | delivering an ack settles exactly the buffered packets it speaks of, if and only if no buffered packet it does not speak of is a multiple of 32768 sends away from one it does |
| `AckRuns.AckSound` | BasisRustClient/src/main.rs:1117-1134 | over every run in which that holds whenever an ack is delivered, whatever left the buffer on an ack was really received |
| `AckRuns.AckSoundBeforeWrap` | BasisRustClient/src/main.rs:1117-1134 | in particular over every run whose send indices, which on the client all channels of the connection share, stay below 32768 |
| `AckRuns.StepRefines` | BasisRustServer/crates/basis-transport/src/lib.rs:1276-1311 | a step whose arrival or delivery stays within the number space is the same step of the protocol over unbounded numbers |
| `AckRuns.RunRefines` | BasisRustServer/crates/basis-transport/src/lib.rs:1276-1311 | hence a whole run of such steps is a run of the unbounded protocol: the same packets stay buffered and the same leave |
| `AckRuns.StaleAckExample` | BasisRustServer/crates/basis-transport/src/lib.rs:1276-1311 | a run in which a delayed ack settles a packet never received: the timing condition is needed |
| `AckRuns.DrainedAckSettlesIff` | BasisRustServer/crates/basis-transport/src/lib.rs:1276-1311 | whatever ack is queued, the ack drained after an arrival settles that packet if and only if the arrival is not behind the start of the queued window |
| `AckPackets.AckPacketRoundTrip` | BasisRustServer/crates/basis-transport/src/lib.rs:1251-1311 | the receiver of an ack packet reads the window start and slots the sender had |
| `AckPackets.PeerAcks.QueueAck` | BasisRustServer/crates/basis-transport/src/lib.rs:1276-1302 | the in-place bitmap of the channel becomes the specified window; other channels are unchanged |
| `AckPackets.ClearRun` | BasisRustServer/crates/basis-transport/src/lib.rs:1288-1294 | the clearing loop clears exactly the slots of the numbers the window leaves behind |
| `AckPackets.PeerAcks.DrainAcks` | BasisRustServer/crates/basis-transport/src/lib.rs:1554-1559 | all acks are taken once each, in any order, as packets |
| `AckPackets.SendAck` | BasisRustClient/src/main.rs:1081-1090 | the client's one-bit ack packet parses to a window that starts at the arrival |
| `AckPackets.OneBitAckSettlesOne` | BasisRustClient/src/main.rs:1081-1090 | such an ack settles its own sequence number and no other |
| `AckPackets.ChannelPacketRead` | BasisRustServer/crates/basis-transport/src/lib.rs:1168-1190 | the server reads from a reliable ordered packet of the client the connection number, sequence, channel and payload it was made from |
| `AckPackets.UnsettledExact` | BasisRustClient/src/main.rs:1117-1134 | a packet stays in the client's buffer exactly when the ack does not settle it |
| `AckPackets.ReliableClient.SendReliableOrdered` | BasisRustClient/src/main.rs:933-952 | off a connection nothing happens; otherwise the k-th packet made carries k modulo 32768, through every wrap of the 16-bit counter, and is buffered if the socket takes it; if not, its number is used up |
| `AckPackets.ReliableClient.ProcessAck` | BasisRustClient/src/main.rs:1117-1134 | the buffer keeps, in order, just the packets the ack does not settle |
| `SendWindow.StepKeeps` | BasisRustServer/crates/basis-transport/src/lib.rs:643-706 | every enqueue, take, record, eviction, ack and resend keeps the send-window invariant |
| `SendWindow.RunKeeps` | BasisRustServer/crates/basis-transport/src/lib.rs:1531-1613 | hence every interleaving of them does |
| `SendWindow.BufferedUntilSettled` | BasisRustServer/crates/basis-transport/src/lib.rs:1564-1598 | a sent packet stays buffered with its exact bytes until it is acked, evicted, or overwritten 32768 sends later |
| `SendFates.AckTakesExactly` | BasisRustServer/crates/basis-transport/src/lib.rs:1251-1274 | an ack on a channel takes out the packets of that channel it covers; every other packet, on this or another channel, stays as it is |
| `SendFates.ClientAckTakesOne` | BasisRustServer/crates/basis-transport/src/lib.rs:1251-1274 | the client's ack for one arrival takes out the packet with that channel and sequence, and no other |
| `SendFates.MarkedExactly` | BasisRustServer/crates/basis-transport/src/lib.rs:1251-1274 | over every run a packet counts as acked or evicted exactly when some step was an ack on its channel covering it, or its eviction, while it was buffered |
| `SendFates.LeavesOnlyWhen` | BasisRustServer/crates/basis-transport/src/lib.rs:643-706 | over every run a sent packet is still buffered, byte for byte, unless such an ack or eviction came, or 32768 more packets went out on its channel |
| `SendFates.AckedIsGone` | BasisRustServer/crates/basis-transport/src/lib.rs:1251-1274 | and after such an ack or eviction it is gone |
| `SendFates.ResendRestartsExactly` | BasisRustServer/crates/basis-transport/src/lib.rs:1592-1598 | a resend restarts the clock of the packets not sent for 150 ms, and changes nothing else |
| `SendWindow.WindowGuarantees` | BasisRustServer/crates/basis-transport/src/lib.rs:643-706 | over every run: at most 128 pending or taken per channel and 4096 in all; sent, taken and queued payloads make up the enqueued list in order; the k-th send of a channel has sequence k modulo 32768 |
| `SendWindow.RecordCounters` | BasisRustServer/crates/basis-transport/src/lib.rs:1243-1249 | numbering a packet keeps the counter of every channel at the number of packets sent on it, modulo 32768 |
| `PeerSender.CountByChannel` | BasisRustServer/crates/basis-transport/src/lib.rs:1568-1571 | the count per channel the capacity is computed from |
| `PeerSender.KeepUnsettled` | BasisRustServer/crates/basis-transport/src/lib.rs:1251-1274 | kept are the packets of other channels and those of this channel that the ack does not cover |
| `PeerSender.RestartDue` | BasisRustServer/crates/basis-transport/src/lib.rs:1592-1598 | every packet not sent for 150 ms is sent exactly once and its clock restarted, no others |
| `PeerSender.Oldest` | BasisRustServer/crates/basis-transport/src/lib.rs:647-650 | some packet that was sent longest ago |
| `PeerSender.PeerSender.EnqueueReliablePayload` | BasisRustServer/crates/basis-transport/src/lib.rs:677-689 | the in-place queue takes the enqueue step of the state machine |
| `PeerSender.PeerSender.ProcessAck` | BasisRustServer/crates/basis-transport/src/lib.rs:1251-1274 | the in-place buffer keeps the packets of other channels and those the ack does not cover, and takes the acknowledge step |
| `PeerSender.PeerSender.TakeQueued` | BasisRustServer/crates/basis-transport/src/lib.rs:1564-1584 | per channel, in any channel order, payloads leave the front of the queue until it is empty or 128 packets are under way |
| `PeerSender.PeerSender.RecordNext` | BasisRustServer/crates/basis-transport/src/lib.rs:643-706 | one taken payload is numbered and buffered, after evicting the oldest packet when the buffer is full |
| `PeerSender.PeerSender.ResendDue` | BasisRustServer/crates/basis-transport/src/lib.rs:1592-1598 | the in-place buffer takes the resend step; each due packet is sent exactly once, no others |
| `Merge.MergeRoundTrip` | BasisRustServer/crates/basis-transport/src/lib.rs:708-768 | splitting what was merged returns the packets, all of them, in order |
| `Merge.DatagramSizes` | BasisRustServer/crates/basis-transport/src/lib.rs:708-757 | every datagram for a list of packets has at most 1200 bytes, or is one of the packets, of more than 1197 |
| `Merge.MergeOptimal` | BasisRustServer/crates/basis-transport/src/lib.rs:708-757 | the number of datagrams for a list of packets is the minimum over all ways to cut the list, in order, into groups that fit |
| `Merge.BuildMergedDatagrams` | BasisRustServer/crates/basis-transport/src/lib.rs:708-757 | the sender's loop computes the specified datagrams |
| `Merge.UnpacksSingle` | BasisRustServer/crates/basis-transport/src/lib.rs:759-768 | unwrapping a datagram of one packet gives the packet |
| `Merge.SplitMerged` | BasisRustClient/src/main.rs:1021-1032 | the client's loop computes the specified split |
| `Merge.SplitExactly` | BasisRustClient/src/main.rs:1021-1032 | of any datagram at all the split takes the frames as long as there are any: framed again they are where it began, and what follows holds no frame |
| `ServerMerge.ProcessMergedPacket` | BasisRustServer/crates/basis-transport/src/lib.rs:1452-1498 | the server's loop handles, in order, those packets of the client's split that are as long as their header asks |
| `ServerMerge.ValidExactly` | BasisRustServer/crates/basis-transport/src/lib.rs:1480-1498 | the shortest packet of each property |
| `ServerMerge.BuiltPacketsValid` | BasisRustServer/crates/basis-transport/src/lib.rs:1480-1498 | unreliable, channeled and ack packets as built here pass |
| `ServerMerge.ServerRoundTripIff` | BasisRustServer/crates/basis-transport/src/lib.rs:1452-1498 | of what was merged the server gets every packet, in order, if and only if no packet that shares a datagram is too short for its header |
| `ServerMerge.ServerRoundTrip` | BasisRustServer/crates/basis-transport/src/lib.rs:1452-1498 | so packets as long as their headers ask all reach the server, in order |
| `ServerMerge.ShortPacketsLost` | BasisRustServer/crates/basis-transport/src/lib.rs:1452-1498 | two one-byte pings share a datagram and do not reach the server |
| `AvatarBundle.TryEncodeAvatarBundle` | BasisRustServer/crates/basis-protocol/src/avatar.rs:262-301 | encoding succeeds exactly for at most 255 messages whose lengths fit 16 bits, and writes the patched messages |
| `AvatarBundle.DecodeAvatarBundle` | BasisRustServer/crates/basis-protocol/src/avatar.rs:303-321 | the decoder loop computes the specified decoding, with its refusals |
| `AvatarBundle.BundleRoundTrip` | BasisRustServer/crates/basis-protocol/src/avatar.rs:262-321 | decoding a bundle gives back the messages put in, in order, for every compressor with an inverse |
| `AvatarBundle.DecodedExactly` | BasisRustServer/crates/basis-protocol/src/avatar.rs:303-321 | a bundle is accepted exactly when it decompresses to as many bytes as it says and these begin with as many records as it says, and then means these |
| `AvatarBundle.PatchIntervalBytes` | BasisRustServer/crates/basis-server-core/src/avatar_sync.rs:1466-1479 | only the interval byte changes, and only if the payload reaches that far |
| `BundleEmission.RangeRawLenExact` | BasisRustServer/crates/basis-server-core/src/avatar_sync.rs:1306-1311 | the length the emitter reckons with is the raw length of the bundle |
| `BundleEmission.ChunkMaximal` | BasisRustServer/crates/basis-server-core/src/avatar_sync.rs:1287-1304 | a chunk is the longest one within the target size, but never empty |
| `BundleEmission.PickBundleChunkEnd` | BasisRustServer/crates/basis-server-core/src/avatar_sync.rs:1287-1304 | the loop picks that chunk |
| `BundleEmission.BundledWhenItFits` | BasisRustServer/crates/basis-server-core/src/avatar_sync.rs:1145-1231 | with messages and bytes enough, the longest stretch within the target goes out as one bundle if it fits 1100 bytes compressed |
| `BundleEmission.RetriedWhenTooLarge` | BasisRustServer/crates/basis-server-core/src/avatar_sync.rs:1145-1231 | a stretch that comes out too large is tried once more, shorter |
| `BundleEmission.RetriedAtThreeQuarters` | BasisRustServer/crates/basis-server-core/src/avatar_sync.rs:1190-1196 | at three quarters of its messages if the smaller target does not shorten it |
| `BundleEmission.PlainWhenUnbundlable` | BasisRustServer/crates/basis-server-core/src/avatar_sync.rs:1145-1231 | a stretch that cannot be encoded sends everything left one by one |
| `BundleEmission.PlainWhenSmall` | BasisRustServer/crates/basis-server-core/src/avatar_sync.rs:1145-1231 | so do too few messages or too few bytes |
| `BundleEmission.TryEmitBundleRange` | BasisRustServer/crates/basis-server-core/src/avatar_sync.rs:1246-1285 | a range is sent as one bundle exactly when it can be encoded within 1100 bytes; otherwise nothing is sent |
| `BundleEmission.EmitGreedyAvatarBundles` | BasisRustServer/crates/basis-server-core/src/avatar_sync.rs:1145-1231 | the loop with its retry and its three ways out computes the specified emission, and ends |
| `BundleEmission.EmissionTransparent` | BasisRustServer/crates/basis-server-core/src/avatar_sync.rs:1145-1285 | unbundling the emission gives the messages sent without bundling: each exactly once, in order, patched; for any ratios, retries and failures |
| `BundleEmission.BundlesWithinBudget` | BasisRustServer/crates/basis-server-core/src/avatar_sync.rs:1261-1274 | every bundle is at most 1100 bytes |
| `UnreliableBatch.TrySendManyUnreliable` | BasisRustServer/crates/basis-transport/src/lib.rs:498-560 | the framing loop of the unreliable batch computes the specified datagrams |
| `UnreliableBatch.BatchRoundTrip` | BasisRustServer/crates/basis-transport/src/lib.rs:498-560 | a receiver of the batch gets its messages, all of them, in order |
| `UnreliableBatch.BatchSizes` | BasisRustServer/crates/basis-transport/src/lib.rs:498-560 | every datagram for a batch has at most 1200 bytes, or is a message too long to frame, sent bare; the batch of one message included |
| `UnreliableBatch.BundlingTransparent` | BasisRustServer/crates/basis-server-core/src/avatar_sync.rs:1121-1231 | with or without bundle compression, splitting and unbundling what is sent gives a receiver the same messages in the same order |
| `Relay.NewerExactly` | BasisRustServer/crates/basis-server-core/src/avatar_sync.rs:811-814 | for sequence numbers less than 128 apart the wrapping 8-bit test says exactly which is larger |
| `Relay.StepKeeps` | BasisRustServer/crates/basis-server-core/src/avatar_sync.rs:806-947 | updates, visits and removals keep what the two theorems below claim |
| `Relay.NewestWins` | BasisRustServer/crates/basis-server-core/src/avatar_sync.rs:806-836 | over every run: accepted sequences advance by 1 to 127 modulo 256 and the outbound sequence rises by one per accepted update |
| `Relay.ReceiversRateLimited` | BasisRustServer/crates/basis-server-core/src/avatar_sync.rs:911-947 | over every run with fixed settings: a receiver sees strictly rising generations of a sender, and each packet comes at least the default interval plus its own interval byte after those before it |
| `RelayDelivery.VisitSendsWhatIsOwed` | BasisRustServer/crates/basis-server-core/src/avatar_sync.rs:868-947 | over every run, read off the events alone: a visit sends one packet exactly when there was an accepted update since the receiver's last packet of the sender, its packets hold the receiver's quality, and the interval is over; and it is the packet at that quality of the newest build that succeeded |
| `RelayDelivery.RunFollows` | BasisRustServer/crates/basis-server-core/src/avatar_sync.rs:806-947 | in every run the relay's generations and tracking entries stand for the events they come from |
| `Relay.RunsCompose` | BasisRustServer/crates/basis-server-core/src/avatar_sync.rs:693-776 | a tick's updates and visits extend a run, so the theorems hold at every tick |
| `AvatarRelay.AvatarRelay.ProcessPendingUpdates` | BasisRustServer/crates/basis-server-core/src/avatar_sync.rs:778-866 | each waiting update is taken once, in some order, as the specified steps |
| `AvatarRelay.AvatarRelay.ProcessUpdate` | BasisRustServer/crates/basis-server-core/src/avatar_sync.rs:806-860 | one update in place: rejected, accepted, or first |
| `AvatarRelay.AvatarRelay.BuildSendsForReceiver` | BasisRustServer/crates/basis-server-core/src/avatar_sync.rs:868-966 | one receiver is served: every other sender that is not offloaded is visited in order |
| `AvatarRelay.AvatarRelay.RemovePlayer` | BasisRustServer/crates/basis-server-core/src/avatar_sync.rs:614-624 | a player disappears from every map and every receiver's tracking |
| `Scheduler.CoveredOnce` | BasisRustServer/crates/basis-server-core/src/avatar_sync.rs:999-1001 | a receiver lies in exactly one of the slices of a tick cycle |
| `Scheduler.NextCountExactly` | BasisRustServer/crates/basis-server-core/src/avatar_sync.rs:1010-1055 | exactly when adapting adds a slice and when it takes one away |
| `Scheduler.OverloadSpreads` | BasisRustServer/crates/basis-server-core/src/avatar_sync.rs:1010-1055 | ticks over their budget add a slice each, up to the most allowed, while a turn has room |
| `Scheduler.EaseGathers` | BasisRustServer/crates/basis-server-core/src/avatar_sync.rs:1010-1055 | ticks below three quarters of their budget take one away each, down to the fewest allowed |
| `Scheduler.ConfigExactly` | BasisRustServer/crates/basis-server-core/src/avatar_sync.rs:560-570 | a new configuration leaves what it allows as it is, and otherwise takes the nearest count and the remainder of the index |
| `Scheduler.TurnServesOnce` | BasisRustServer/crates/basis-server-core/src/avatar_sync.rs:993-1008 | from any state: as many consecutive ticks as there are slices serve every receiver exactly once |
| `Scheduler.AdaptKeepsRangeExactly` | BasisRustServer/crates/basis-server-core/src/avatar_sync.rs:1010-1055 | adapting keeps the index below the count exactly unless fitting to a configuration not applied before cuts it off |
| `Scheduler.RunInRange` | BasisRustServer/crates/basis-server-core/src/avatar_sync.rs:993-1055 | over every run in which no tick adapts to a configuration that allows fewer slices than there are, the index stays below the count |
| `Scheduler.UpToDateInRange` | BasisRustServer/crates/basis-server-core/src/avatar_sync.rs:693-776 | in particular over every run in which each tick adapts to the configuration in force |
| `Scheduler.OvertakenTick` | BasisRustServer/crates/basis-server-core/src/avatar_sync.rs:693-776 | a run in which a tick is overtaken by a new configuration and adapts to the old one, which leaves the index at the count |
| `Scheduler.SliceScheduler.Advance` | BasisRustServer/crates/basis-server-core/src/avatar_sync.rs:993-1008 | a tick gets the slice of the current index, and the index moves on by one in turn |
| `Scheduler.SliceScheduler.Adapt` | BasisRustServer/crates/basis-server-core/src/avatar_sync.rs:1010-1055 | the in-place state adapts as specified, for any configuration, also one replaced during the tick |
| `Scheduler.SliceScheduler.UpdateConfig` | BasisRustServer/crates/basis-server-core/src/avatar_sync.rs:560-570 | a new configuration clamps the count and brings the index below it |
| `SpatialGrid.NearIsAdjacent` | BasisRustServer/crates/basis-server-core/src/avatar_sync.rs:147-153 | over the reals: peers within the low-quality distance are in the same or adjacent cells |
| `SpatialGrid.AdjacentIsClose` | BasisRustServer/crates/basis-server-core/src/avatar_sync.rs:121-153 | peers in the same or adjacent cells are less than two cells apart in each direction |
| `SpatialGrid.SpatialGrid.constructor` | BasisRustServer/crates/basis-server-core/src/avatar_sync.rs:106-119 | every peer is listed in its own cell and in no other |
| `SpatialGrid.SpatialGrid.OrderedIndices` | BasisRustServer/crates/basis-server-core/src/avatar_sync.rs:121-145 | the result holds every peer exactly once; every peer within the low-quality distance lies in its near prefix, and no peer two cells away or more does |
| `Permissions.ResolvedExact` | BasisRustServer/crates/basis-server-permissions/src/lib.rs:295-313 | a set of rules allows a node when one allows it and none denies it; order plays no part |
| `Permissions.Resolution.ApplyRawNodes` | BasisRustServer/crates/basis-server-permissions/src/lib.rs:295-313 | applying raw nodes in any order turns the decisions for some rules into those for all of them |
| `Permissions.Resolution.ApplyGroup` | BasisRustServer/crates/basis-server-permissions/src/lib.rs:277-293 | the depth-first visit of any graph, cyclic or with missing groups, ends, and every group it finishes has its parents visited |
| `Permissions.EffectiveDecisions` | BasisRustServer/crates/basis-server-permissions/src/lib.rs:262-274 | whatever order the sets are walked in, the decisions are the specified ones |
| `Permissions.EffectiveExact` | BasisRustServer/crates/basis-server-permissions/src/lib.rs:262-313 | a node is denied if and only if the user or a reachable group denies it, and allowed if and only if one allows it and none denies it |
| `PermissionChecks.DecisionsOnText` | BasisRustServer/crates/basis-server-permissions/src/lib.rs:262-313 | on the raw texts: a node is denied exactly when the user or a reachable group holds a minus followed by it, and allowed exactly when one holds the node itself and none denies it, white space aside |
| `PermissionChecks.HasPermission` | BasisRustServer/crates/basis-server-permissions/src/lib.rs:243-332 | a known user has a permission exactly when the rule that decides is allowed and not denied on the texts: the node itself if mentioned, otherwise its longest wildcard that is, otherwise the catch-all |
| `Text.AsciiWhitespace` | BasisRustServer/crates/basis-server-permissions/src/lib.rs:295-313 | which ASCII characters are white space |
| `Text.TrimStrips` | BasisRustServer/crates/basis-server-permissions/src/lib.rs:295-313 | trimming takes white space off both ends and nothing else |
| `Permissions.CheckNode` | BasisRustServer/crates/basis-server-permissions/src/lib.rs:315-332 | the shrinking-prefix loop computes the specified lookup |
| `Permissions.LongestWildcardDecides` | BasisRustServer/crates/basis-server-permissions/src/lib.rs:315-332 | the longest matching wildcard decides |
| `Permissions.CatchAllDecides` | BasisRustServer/crates/basis-server-permissions/src/lib.rs:331-331 | without any matching wildcard the catch-all decides |
| `Permissions.DenyRuleOnlyRestricts` | BasisRustServer/crates/basis-server-permissions/src/lib.rs:243-332 | adding a text that starts with a minus to any group gives no user any permission |
| `Escaping.EscapeIsTokens` | BasisRustServer/crates/basis-server-permissions/src/lib.rs:461-467 | four replacements in a row replace each special character by its entity, independently of each other |
| `Escaping.UnescapeEscape` | BasisRustServer/crates/basis-server-permissions/src/lib.rs:461-475 | unescaping what was escaped gives the value back, for every string |
| `Escaping.EscapedContains` | BasisRustServer/crates/basis-server-permissions/src/lib.rs:461-467 | an escaped value holds no quote and no tag, and a line break exactly when the value does |
| `PermissionLines.AttributeRead` | BasisRustServer/crates/basis-server-permissions/src/lib.rs:454-459 | an escaped attribute is found and read back |
| `PermissionLines.OneQuoteNoTag` | BasisRustServer/crates/basis-server-permissions/src/lib.rs:454-459 | a line whose value breaks off before the closing quote says nothing |
| `PermissionReader.LoadPermissions` | BasisRustServer/crates/basis-server-permissions/src/lib.rs:338-420 | the loading loop is the fold of the specified reader over the lines |
| `PermissionMeaning.TextMeans` | BasisRustServer/crates/basis-server-permissions/src/lib.rs:338-420 | for any text at all: the store read holds a group, a user, a node, a parent or a membership exactly when some line states it, by its tag and by what is open where it stands |
| `PermissionReader.LeadsOnEntry` | BasisRustServer/crates/basis-server-permissions/src/lib.rs:371-416 | reading a written entry does what its tag says, or nothing at all when its value has a line break |
| `PermissionCleaning.FaithfulGroups` | BasisRustServer/crates/basis-server-permissions/src/lib.rs:428-437 | cleaning leaves groups alone exactly when keys are names and no string has a line break |
| `PermissionCleaning.LineBreakLost` | BasisRustServer/crates/basis-server-permissions/src/lib.rs:334-452 | a store whose one group has a line break in its name comes back empty |
| `PermissionFile.WriteGroup` | BasisRustServer/crates/basis-server-permissions/src/lib.rs:428-437 | reading back the written group adds its newline-free name, nodes and parents |
| `PermissionFile.WriteUser` | BasisRustServer/crates/basis-server-permissions/src/lib.rs:439-448 | reading back the written user adds its newline-free id, nodes and groups |
| `PermissionFile.SavePermissions` | BasisRustServer/crates/basis-server-permissions/src/lib.rs:423-452 | for every store and every order: reading the written text gives the cleaned store |
| `PermissionFile.SaveAndLoad` | BasisRustServer/crates/basis-server-permissions/src/lib.rs:334-452 | loading what was saved gives the same store if and only if keys match names and no string has a line break |
| `P2p.PackPairInjective` | BasisRustServer/crates/basis-server-core/src/p2p.rs:365-369 | two pairs share a key exactly when they are the same two peers, in either order |
| `P2p.OtherEnd` | BasisRustServer/crates/basis-server-core/src/p2p.rs:148-152 | the other party of a session is a party and not the peer itself |
| `P2pInvariants.TrackingKeptIff` | BasisRustServer/crates/basis-server-core/src/p2p.rs:89-337 | a signal keeps tracking equal to session membership if and only if it is not an accepted request that puts a session of other peers in the place of a live one |
| `P2pInvariants.StepKeepsParties` | BasisRustServer/crates/basis-server-core/src/p2p.rs:89-337 | any signal, also one that reuses a token, keeps the token of a live session tracked for both its parties |
| `P2pInvariants.BackingKeptIff` | BasisRustServer/crates/basis-server-core/src/p2p.rs:89-337 | a signal keeps a live session with both links up behind every offloaded pair if and only if it does not replace the only one behind a pair |
| `P2pRuns.RunFlags` | BasisRustServer/crates/basis-server-core/src/p2p.rs:160-312 | over every run the link flags say who has sent LINK_UP since the session began or last lost its link |
| `P2pRuns.TrackedThroughoutIff` | BasisRustServer/crates/basis-server-core/src/p2p.rs:89-337 | tracking is exact at every point of a run if and only if no live session gives way to one of other peers |
| `P2pRuns.BackedThroughoutIff` | BasisRustServer/crates/basis-server-core/src/p2p.rs:39-44 | every offloaded pair is backed at every point of a run if and only if no request replaces the only session behind one |
| `P2pRuns.OffloadedOnlyWhileUp` | BasisRustServer/crates/basis-server-core/src/p2p.rs:39-44 | in the latter runs two peers count as offloaded only while a session of exactly these two is live and both have sent LINK_UP since its start or last LINK_LOST |
| `P2pPunch.PunchExactly` | BasisRustServer/crates/basis-server-core/src/p2p.rs:89-139 | in every run: a live session waits until it is accepted or loses its link; the first two NAT requests after that give its four addresses, local as internal and remote as external, first end and second end; and when it is punched |
| `P2pPunch.SecondEndPunches` | BasisRustServer/crates/basis-server-core/src/p2p.rs:89-139 | after the NAT requests (l1, r1) and (l2, r2) the addresses are l1, r1, l2, r2 in this order and the session is punched |
| `P2pPunch.IntroducedIff` | BasisRustServer/crates/basis-server-core/src/p2p.rs:89-139 | in every run an introduction goes out exactly when the session may be punched and its first end is known |
| `P2pFates.LiveExactly` | BasisRustServer/crates/basis-server-core/src/p2p.rs:50-337 | a session is live after a signal exactly when it was requested by it (named, with another, authenticated peer), or was live and not ended by it |
| `P2pFates.OffloadedExactly` | BasisRustServer/crates/basis-server-core/src/p2p.rs:160-337 | in every run two peers become offloaded with the link-up that completes a session of theirs, and stay so until a session of theirs ends or loses its link |
| `P2pRuns.PunchedKnowsEndpoints` | BasisRustServer/crates/basis-server-core/src/p2p.rs:89-139 | in every run a punched session knows all four addresses |
| `P2pRuns.RemovedPeerHasNoSession` | BasisRustServer/crates/basis-server-core/src/p2p.rs:141-158 | in every run, after a peer is removed no session has it as a party and nothing is tracked for it |
| `P2pRuns.RemovedPeerOffloadedIff` | BasisRustServer/crates/basis-server-core/src/p2p.rs:141-158 | in every run, a removed peer stays offloaded with another if and only if it was and no session of the two was live |
| `P2pRuns.RemovedPeerIsGone` | BasisRustServer/crates/basis-server-core/src/p2p.rs:141-158 | so it is offloaded with no one in runs in which no request replaced the only session behind a pair |
| `P2pRuns.RemovalEndsOwnSessions` | BasisRustServer/crates/basis-server-core/src/p2p.rs:141-158 | in runs in which no session gave way to one of other peers, removing a peer ends its own sessions and no others |
| `P2pRuns.FreshKeepsBoth` | BasisRustServer/crates/basis-server-core/src/p2p.rs:206-217 | runs whose accepted requests use no token of a live session are of both these kinds |
| `P2pRuns.ReuseExample` | BasisRustServer/crates/basis-server-core/src/p2p.rs:206-217 | a run with a reused token that leaves two peers offloaded without a session, even after one of them is removed, which ends the session of two others |
| `P2pBroker.P2pBroker.HandleSignal` | BasisRustServer/crates/basis-server-core/src/p2p.rs:50-87 | every signal takes the in-place maps through the step of the event it stands for, and sends exactly these signals to these peers |
| `P2pBroker.SignalNumbers` | BasisRustServer/crates/basis-protocol/src/channels.rs:64-70 | which number is which signal |
| `P2pBroker.P2pBroker.HandleRequest` | BasisRustServer/crates/basis-server-core/src/p2p.rs:183-236 | a request opens and tracks a session and notifies both ends, or is refused |
| `P2pBroker.P2pBroker.HandleLinkUp` | BasisRustServer/crates/basis-server-core/src/p2p.rs:160-181 | a link-up of a party sets its flag and offloads the pair when both are up |
| `P2pBroker.P2pBroker.HandleLinkLost` | BasisRustServer/crates/basis-server-core/src/p2p.rs:264-291 | a lost link resets the session and ends offloading |
| `P2pBroker.P2pBroker.HandleNatIntroductionRequest` | BasisRustServer/crates/basis-server-core/src/p2p.rs:89-139 | endpoints are filled in arrival order; an introduction goes out exactly when the session may be punched and the first end is known, and tells each end, at its external address, the two addresses of the other |
| `P2pBroker.P2pBroker.RemovePeer` | BasisRustServer/crates/basis-server-core/src/p2p.rs:141-158 | all sessions of the peer end, in any order; the other party of each is told once, and no one else |
| `PeerInvariants.StepKeepsAddresses` | BasisRustServer/crates/basis-transport/src/lib.rs:350-420 | every entry of the address table points to a live peer with that address, through accept, kick, timeout, remote disconnect and reconnect |
| `PeerInvariants.StepKeepsIds` | BasisRustServer/crates/basis-transport/src/lib.rs:350-420 | reusable ids stay distinct and neither live nor retired, at any time; and until the 16-bit counter has gone round, live, retired and reusable ids part everything issued |
| `PeerInvariants.RunKeeps` | BasisRustServer/crates/basis-transport/src/lib.rs:350-420 | all of this holds over every run |
| `PeerInvariants.RetiredReissuedLast` | BasisRustServer/crates/basis-transport/src/lib.rs:381-394 | at any time of any run an allocated id is not live, and a retired one only if none is reusable |
| `PeerInvariants.RetiredReissuedExactly` | BasisRustServer/crates/basis-transport/src/lib.rs:381-394 | within the first round it is a retired one if and only if every id was issued and none is reusable |
| `PeerInvariants.ReissueExample` | BasisRustServer/crates/basis-transport/src/lib.rs:381-394 | a run of 65536 accepted peers, the first of which leaves: its retired id is the next one handed out |
| `PeerFates.LiveExactly` | BasisRustServer/crates/basis-transport/src/lib.rs:858-946 | a peer is live after an event exactly when it was accepted by it, or was live and not ended by it: by a kick, a timeout, a newer connect request from its address, or a disconnect packet with its own connection number and time |
| `PeerFates.RestsExactly` | BasisRustServer/crates/basis-transport/src/lib.rs:396-420 | an id rests exactly when its peer was ended, until it is recycled |
| `PeerFates.ReusableExactly` | BasisRustServer/crates/basis-transport/src/lib.rs:381-420 | recycled ids wait in line in order, and accepting takes the first |
| `PeerFates.WaitingExactly` | BasisRustServer/crates/basis-transport/src/lib.rs:858-918 | a connect request waits unless its address has a peer at least as new, or the same or a newer request waits |
| `PeerFates.AddressedExactly` | BasisRustServer/crates/basis-transport/src/lib.rs:350-420 | an accepted peer is entered under its address, and the address of an ended one is taken out |
| `PeerIds.Allocation` | BasisRustServer/crates/basis-transport/src/lib.rs:381-394 | at any time, also after the counter has gone round, the id handed out is not that of a live peer |
| `PeerIds.CounterReaches` | BasisRustServer/crates/basis-transport/src/lib.rs:389-392 | the counter reaches a free id within one round, so allocation ends whenever one exists |
| `PeerTable.PeerTable.AllocatePeerId` | BasisRustServer/crates/basis-transport/src/lib.rs:381-394 | the loop ends and takes the oldest reusable id that is not live, or the next free one of the counter |
| `PeerTable.PeerTable.Accept` | BasisRustServer/crates/basis-transport/src/lib.rs:350-379 | the accepted peer is entered under its new id and address |
| `PeerTable.PeerTable.RecyclePeerId` | BasisRustServer/crates/basis-transport/src/lib.rs:409-420 | only a retired id that is not live becomes reusable, once |
| `PeerTable.PeerTable.Disconnect` | BasisRustServer/crates/basis-transport/src/lib.rs:591-608 | a live peer leaves both tables and its id is retired |
| `PeerTable.PeerTable.OnConnectRequest` | BasisRustServer/crates/basis-transport/src/lib.rs:858-918 | a newer request from a known address replaces its peer; older and repeated ones go no further |
| `PeerTable.PeerTable.OnDisconnectPacket` | BasisRustServer/crates/basis-transport/src/lib.rs:924-946 | a disconnect counts only with matching connection number and time; otherwise both tables are restored |
| `PeerTable.PeerTable.OnTimeout` | BasisRustServer/crates/basis-transport/src/lib.rs:1500-1529 | a sweep disconnects each peer given to it |
| `PeerTable.SweepKeeps` | BasisRustServer/crates/basis-transport/src/lib.rs:1516-1527 | a sweep keeps both invariants |
| `PeerTable.SweepExactly` | BasisRustServer/crates/basis-transport/src/lib.rs:1516-1527 | a sweep ends the live peers it is given, whose ids then rest, and no others |
| `Ogg.Parse` | BasisRustClient/src/main.rs:1359-1415 | the nested loops compute the specified outcome, and the outer one always advances |
| `Ogg.ReassembleJoin` | BasisRustClient/src/main.rs:1387-1404 | reassembling page after page is reassembling all segments at once |
| `OggLacing.ReassembleLacingAll` | BasisRustClient/src/main.rs:1388-1402 | packets laced as in section 6 of RFC 3533 are given back, in order, with nothing left over |
| `OggLacing.PageBreaksIgnored` | BasisRustClient/src/main.rs:1359-1415 | wherever the stream is cut into pages, the parser returns exactly the playable packets in order, or reports that there are none |
| `OggLacing.HeadersSkipped` | BasisRustClient/src/main.rs:1387-1420 | from the stream of an Opus file, two headers and then audio, the parser returns the audio |
| `OggLacing.PlayableExactly` | BasisRustClient/src/main.rs:1418-1420 | playable are the packets that are neither empty nor begin with one of the two header names |
| `OggLacing.PartialPageRefused` | BasisRustClient/src/main.rs:1359-1386 | a stream that ends within a page is refused for want of the header, the table or the data, as the case may be |
| `OggLacing.CaptureNeeded` | BasisRustClient/src/main.rs:1364-1368 | bytes that do not begin with the capture pattern are refused |
| `OggLacing.Unlaced` | BasisRustClient/src/main.rs:1388-1402 | any segments are the lacing of the packets taken from them plus full segments of an unfinished one |
| `OggLacing.TruncatedExactly` | BasisRustClient/src/main.rs:1407-1409 | a stream of whole pages is refused as truncated if and only if its last segment is a full one |
| `ReadyCodec.StringRead` | BasisRustServer/crates/basis-protocol/src/io.rs:216-227 | a length-plus-one string is read back, the empty one included |
| `ReadyCodec.FailureSpelled` | BasisRustServer/crates/basis-protocol/src/messages.rs:83-124 | the text that stands for an empty one |
| `ReadyCodec.AdditionalRead` | BasisRustServer/crates/basis-protocol/src/messages.rs:127-153 | additional data come back cut to 255 bytes, without an index when empty |
| `ReadyCodec.SyncRead` | BasisRustServer/crates/basis-protocol/src/messages.rs:185-222 | the avatar sync part is read back and consumes exactly its own bytes |
| `ReadyCodec.ReadyRoundTrip` | BasisRustServer/crates/basis-protocol/src/messages.rs:65-247 | for every message in range and any trailing bytes, reading the written form gives the normalised message and leaves just the trailing bytes |
| `ReadyCodec.CutShortRefused` | BasisRustServer/crates/basis-protocol/src/messages.rs:65-247 | a message cut short anywhere is refused |
| `ReadyCodec.AcceptedInRange` | BasisRustServer/crates/basis-protocol/src/messages.rs:65-247 | whatever bytes a message is read from, its texts are valid and its pose has the length of its quality |
| `ReadyCodec.NormalIsStable` | BasisRustServer/crates/basis-protocol/src/messages.rs:83-153 | a normalised message is its own normal form |
| `ReadyCodec.ClientReadyAccepted` | BasisRustClient/src/main.rs:326-428 | the server reads what the client's own writer of strings, metadata, avatar change and first pose writes |
| `ReadyIo.NetWriter.PutReady` | BasisRustServer/crates/basis-protocol/src/messages.rs:231-237 | the growing writer appends the specified bytes |
| `ReadyIo.NetReader.TakeReady` | BasisRustServer/crates/basis-protocol/src/messages.rs:239-247 | the advancing reader takes what the specified parser takes, or reports failure |
| `ReadyIo.SendAndReceive` | BasisRustServer/crates/basis-protocol/src/messages.rs:231-247 | writing and then reading a message through both |

## Left out

- Sockets, tasks, locks, event channels, thread priority and clocks: time is an integer, every handler is one atomic step, and the network is the set of everything ever sent.
- LZ4 and DEFLATE: any functions of which decompressing undoes compressing.
- Floating point: quaternion normalisation, bundle ratios, tick smoothing and distance-to-interval conversion are arbitrary values; the spatial grid is over the reals, without the saturating conversion of cell numbers to 32 bits.
- Wire sequence numbers of 32768 and above: no peer of this repository writes them, so the type of wire numbers leaves them out.
- In-order or exactly-once delivery, and acks for reliable-sequenced channels: the code does not provide them.
- The bytes of strings: permission texts are sequences of Unicode scalar values, the ready message carries UTF-8 bytes with validity as a parameter.
- AckRuns.AckSound: one channel and one direction, for runs without aliased deliveries, which AckRuns.StaleAckExample shows to be needed; channels share no ack state, and the other direction sends one-bit acks, which AckPackets covers.
- SendWindow.BufferedUntilSettled: a packet that stays pending for 32768 further sends of its channel is overwritten by the code; the statement says so instead of excluding such runs.
- PeerSender.PeerSender.RecordNext: the phases of one resend tick are separate steps that acks and enqueues may come between, as the locks of the code allow; ping packets and grouping by address are not modelled.
- ServerMerge.ProcessMergedPacket: what handling a split packet does, and the walk over a merged packet inside a merged one.
- PeerInvariants.RunKeeps: two queued requests from one address can both be accepted, so live peers without an address entry remain possible, as in the code.
- PeerTable.PeerTable.AllocatePeerId: with all 65536 ids live the code would loop forever; the model asks for one that is free.
- PeerTable.PeerTable.Accept: asks for a free id for the same reason; the two inserts and the reply to the client are one step.
- P2pRuns.OffloadedOnlyWhileUp: for runs in which no request replaces the only session behind an offloaded pair; P2pRuns.BackedThroughoutIff says that it cannot hold throughout any others.
- P2pBroker.P2pBroker.RemovePeer: the awaits between sending the cancel signals are not points where other signals are handled.
- Relay.ReceiversRateLimited: for as long as the receiver tracks the sender and the default interval stays the same.
- PermissionFile.SavePermissions: the exact text (header, indentation, order of entries) is fixed only as far as reading it back depends on it; a missing or unreadable file is left out.
- Ogg.Parse: packet durations and the ffmpeg fallback.
- Byte-pool reuse, profiling counters, parallel iteration over receivers, and the choice of small or large sender ids in a packet.
- Editing the permission store in memory (adding, renaming and deleting nodes, groups and users): single set operations.
- Server routing, console, health endpoint, JSON storage, XML configuration, moderation files, content sharing, ownership and net-id tables: map operations and I/O that would add only easy members.
- Server-info queries, NAT packet hashing, Ed25519 identity and random spawn: foreign calls or randomness.
