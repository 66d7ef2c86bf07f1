# A verified model of a JavaScript Reticulum / LXMF stack

This project models the parts of the stack whose logic is written by hand, and
proves what they promise. Dafny 4.11; `dafny verify dfyconfig.toml` checks it all.

Each imperative part of the program appears twice: as functions and state machines
about which the theorems are proved, and as methods and classes, with the program's
own fields and loops, whose contracts tie the new state to those functions.

| files | part of the stack |
|---|---|
| `Resource*.dfy` | chunked, multi-segment resource transfers: receiver, sender, the octets they exchange, delivery over a bag of packets, progress, completion |
| `Channel*.dfy`, `Envelope.dfy` | sequenced messages over a link: ring, acceptance test, sender window, both ends over a bag of packets, behaviour at sequence wraps |
| `Stream*.dfy`, `RawChannel.dfy` | byte streams over a channel |
| `Mesh*.dfy` | one node, and a network of them: announces, path tables, discovery, forwarding, path responses |
| `LinkRelay*.dfy`, `PacketCodec.dfy` | relaying one link across a tree of nodes; packet headers and hashes |
| `LinkState.dfy`, `LinkSignals.dfy`, `LinkLifecycle.dfy` | establishment, watchdog, what a link sends, teardown |
| `MsgPack*.dfy`, `Hdlc.dfy` | the MessagePack codec and the HDLC stream decoder |
| `Propagation*.dfy`, `Stamp.dfy` | the store-and-forward node, its sync protocols, proof of work |
| `Bytes.dfy` | octets and big-endian numbers |

Networks are bags of packets: a step may deliver any packet sent so far, so loss,
repetition and reordering need no steps of their own. In `LinkRelay.dfy` a copy is
delivered at most once, since there the count of copies is the point. Timers are
steps that may happen at any time; where durations matter they carry the time.
Hashes are only compared. Hypotheses on them, on encryption and on compression stand
in the `requires` of the theorems that use them: map hashes pairwise distinct,
resource hashes distinct, opening what was sealed, inflating what was deflated, no
two envelopes with one hash.

What the code does not keep:

- Across sequence wraps a channel can hand out an old message in place of a new one
  although every copy is timely (`ChannelWrapLimit.TimelyIsNotEnough`): right after a
  wrap the insertion scan stops in front of a larger sequence and never meets the copy
  already in the ring. `ChannelWrapExact.RunExact` says which timely runs stay in
  order, `ChannelWrapBreaks.InadmissibleCanBreak` that every other one can go wrong,
  and `ChannelWrapExact.OrderlyDelivers` gives a condition on the arrivals alone under
  which none does.
- The echo check can drop a packet that has only followed path entries, when its
  forwarder has since learnt a route shorter by two or more
  (`MeshRouting.OvertakenPacketIsDropped`); `MeshRouting.RoutedPacketGoesOn` says
  exactly when.
- Reading a packed text removes a leading byte order mark, and a map loses a key named
  "__proto__"; `MsgPackObject.RoundTripIffFaithful` is exact.
- A tagged advertisement of a long transfer does not fit one packet;
  `ResourceWire.TaggedAdvertisementLimit` is exact for full-size segments.
- Teardown does not settle a resource segment that is registered after it
  (`LinkRuns.LateSegmentWaits`); `LinkRuns.AllSettledIff` is exact.
- A message whose stamp the peer does not accept counts as handled by it all the same, and
  is never offered again; `PropagationSync.PeerSyncConverges` says exactly what arrives.
- The client sync that fetches and purges in one request loses the messages if the
  reply is lost (`PropagationSync.LostReply`).
- `windowMin` can exceed `window` in a channel (`ChannelFloor.FloorCanPassWindow`);
  `ChannelFloor.FloorHeldIff` says exactly when.

## Model

| member | source | states |
|---|---|---|
| `ResourceDeliveryProof.DeliveredAsGiven` | shared/rns/index.js:879-947 | in every run of both ends over a bag of packets that may be lost, repeated and reordered (each advertisement delivered at most once), what the receiver emits for a transfer is nothing or, once, exactly the data given to `sendResource`; the promise resolves only after that |
| `ResourceDeliveryProof.DeliveredWhole` | shared/rns/index.js:1173-1328 | the same per transfer, with the segments in order |
| `ResourceDeliveryProof.NeverOutOfSequence` | shared/rns/index.js:1132-1166 | a hashmap-exhausted request under way never meets the sender's sequencing error and is answered with the parts wanted and the very next piece of hashes |
| `ResourceDeliveryProof.RowsAgree` | shared/rns/index.js:1007-1024 | in every run a receiver's known hashes are a prefix of the sender's list, whole or a multiple of 74 long, its parts are the sender's, and its counters are right |
| `ResourceDeliveryProof.WritePiece` | shared/rns/index.js:1016-1020 | a late or repeated hashmap piece changes nothing; the next piece extends the known prefix by exactly itself |
| `ResourceDeliveryProof.StepInv` | shared/rns/index.js:879-1347 | every step of sender, receiver and network keeps the delivery invariant |
| `ResourceDeliveryProof.ProofStep` | shared/rns/index.js:1331-1347 | a completion proof under way for the segment being sent starts the next segment, or resolves the promise if it was the last, never rejects it, and keeps the delivery invariant |
| `ResourceCompletion.ArrivingPartIsKept` | shared/rns/index.js:1173-1328 | in every run a part that fills a searched missing position of a row is held from then on, refills the retries and touches no other row; the last one removes the row, its proof is sent, the segment counted, and after the last segment exactly the data of the transfer is emitted |
| `ResourceCompletion.NeverStuck` | shared/rns/index.js:879-1347 | in every run, whatever was lost, repeated or late, a transfer that neither end has given up can still be carried through to a resolved promise and exactly its data emitted once |
| `ResourceGivenUp.ResolvableIff` | shared/rns/index.js:879-1347 | in every run a transfer can still be carried through if and only if neither end has given it up: it has not been rejected, and the receiver has proved the segment under way, has a row for it or has yet to take its advertisement |
| `ResourceCompletion.FinishSegment` | shared/rns/index.js:1032-1216 | from any state in which a segment is being received, its latest requests and what they call for, delivered, complete it |
| `ResourceCompletion.StepReady` | shared/rns/index.js:1032-1328 | every step keeps the latest request of every row and the proof of every proved segment under way |
| `ResourceAsking.RequestNamesExactly` | shared/rns/index.js:1032-1060 | a request names exactly the missing known parts with fewer missing ones than the window in front of them, in order, and repeats the last known hash exactly if the window reaches past what is known |
| `ResourceAsking.AnswersExactly` | shared/rns/index.js:1132-1150 | the answer to a request for some positions is their parts, in the order asked |
| `ResourceAsking.RoundAnswered` | shared/rns/index.js:1200-1216 | a round answered in full opens the window and is followed by the next request; before that nothing is asked |
| `ResourceAsking.FastRounds` | shared/rns/index.js:1223-1253 | on a fast link the ceiling rises to 75 with the fourth round and the window follows it, one a round, with the floor three behind |
| `ResourceAsking.OtherRounds` | shared/rns/index.js:1223-1253 | at other rates the ceiling stays at 10; on a very slow link it falls to 4 with the second round and the window stops at 6 |
| `ResourceAsking.DeadlinesClose` | shared/rns/index.js:1099-1113 | deadlines close a new window from 4 to 2 and its ceiling from 10 to 6 |
| `ResourceAsking.OnlyCheckedIsProved` | shared/rns/index.js:1258-1328 | whatever the parts are, a segment is proved, counted or emitted only if it opens to a plaintext with the advertised hash |
| `ResourceProgress.NeverStalls` | shared/rns/index.js:1032-1060 | a live incomplete transfer has a retry armed and either waits for hashes or has asked for a part it still lacks |
| `ResourceProgress.PartLive` | shared/rns/index.js:1173-1216 | storing any part, new or repeated, leaves the transfer complete or live, with the received count and the longest full prefix exact |
| `ResourceProgress.NewLive` | shared/rns/index.js:957-999 | a freshly advertised transfer is live |
| `ResourceProgress.HashmapUpdateLive` | shared/rns/index.js:1007-1024 | a hashmap update leaves the transfer live and always sends a request |
| `ResourceProgress.ExpireLive` | shared/rns/index.js:1092-1120 | an expired deadline with retries left sends a request, spends exactly one retry and leaves the transfer live |
| `ResourceProgress.GivesUpAfterRetries` | shared/rns/index.js:1092-1120 | n deadline expiries without inbound traffic give one re-request each as long as retries are left (16 after any arrival), and the transfer is discarded exactly when n exceeds them |
| `ResourceProgress.WindowsStayOk` | shared/rns/index.js:1223-1253 | 2 <= windowMin <= window <= 75 and windowMax <= 75 survive growth at any measured rate and shrinking |
| `ResourceTransfer.JoinCut` | shared/rns/protocol.js:886-912 | cutting into pieces and joining them is the identity |
| `ResourceTransfer.CutCount` | shared/rns/protocol.js:890-909 | the number of pieces is the length over the piece size, rounded up and at least one; no piece is longer |
| `ResourceLink.Segments` | shared/rns/index.js:882-886 | the segmenting loop computes the cut used by the delivery theorem |
| `ResourceLink.ResourcePrepare` | shared/rns/protocol.js:886-912 | the parts are the cut of the ciphertext and entry k is the map hash of part k |
| `ResourceLink.OnResourceRequest` | shared/rns/index.js:1132-1166 | the loops send exactly the parts and the hashmap piece the specification of a request names, or report it out of sequence |
| `ResourceLink.ResourceLink.OnResourceAdvertisement` | shared/rns/index.js:957-999 | the new table row and first request, or nothing for no parts or too many |
| `ResourceLink.ResourceLink.OnHashmapUpdate` | shared/rns/index.js:1007-1024 | the row's hashes after the piece is written in place, its refilled retries and the next request |
| `ResourceLink.ResourceLink.RequestNextResourceParts` | shared/rns/index.js:1032-1060 | the request names the first missing known parts of the window, and says when the known hashes ran out |
| `ResourceLink.ResourceLink.OnResourcePart` | shared/rns/index.js:1173-1216 | the first row that recognises the part takes it; assembly, the next request or nothing follows as specified |
| `ResourceLink.ResourceLink.StorePart` | shared/rns/index.js:1191-1199 | the loop moves the height to the longest full prefix |
| `ResourceLink.ResourceLink.GrowResourceWindow` | shared/rns/index.js:1223-1253 | the window, its bounds and the round counters after a round answered in full |
| `ResourceLink.ResourceLink.ResourceRetryTick` | shared/rns/index.js:1092-1120 | discard without retries; otherwise shrink, spend one and ask again |
| `ResourceLink.ResourceLink.AssembleResource` | shared/rns/index.js:1258-1328 | the row is gone; an opened segment is proved and appended, and the last one emits the whole transfer |
| `ResourceWire.LinkMduIsLargest` | shared/rns/protocol.js:806-806 | a plaintext of n octets seals into a packet of at most 500 octets if and only if n <= 431 |
| `ResourceWire.SegmentNeverTooLong` | shared/rns/protocol.js:830-835 | every segment up to 1 MiB - 1 octets slices into at most RESOURCE_MAX_PARTS parts |
| `ResourceWire.RequestRoundTrip` | shared/rns/protocol.js:983-1002 | every part request parses back to itself |
| `ResourceWire.ParseResourceRequest` | shared/rns/protocol.js:988-1002 | the parser's loop computes the parse the round trip is about |
| `ResourceWire.RequestFits` | shared/rns/index.js:1032-1060 | whatever a transfer asks for, the first request and the one after each round included, is at most 75 hashes and fits one packet |
| `ResourceFits.PacketsFit` | shared/rns/index.js:879-1347 | in every run every packet ever under way, requests, hashmap pieces, parts and proofs and every advertisement untagged or of fewer than 128 segments, is at most 500 octets on the wire |
| `ResourceWire.HmuRoundTrip` | shared/rns/protocol.js:1009-1017 | a hashmap update parses back to its resource, number and hashes |
| `ResourceWire.HmuFits` | shared/rns/protocol.js:1009-1011 | every hashmap piece of an allowed segment fits one packet |
| `ResourceWire.AdvertisementRoundTrip` | shared/rns/protocol.js:934-971 | an advertisement parses back to every one of its fields and flag bits, whatever follows it |
| `ResourceWire.AdvertisementLength` | shared/rns/protocol.js:934-951 | the length of an advertisement, to the octet |
| `ResourceWire.AdvertisementFits` | shared/rns/protocol.js:934-951 | an advertisement without request id, or of a transfer of fewer than 128 segments, fits one packet |
| `ResourceWire.TaggedAdvertisementLimit` | shared/rns/protocol.js:934-951 | for a tagged full-size segment the exact limit: it fits if and only if there are fewer than 128 segments, or fewer than 256 and this is one of the first 127 |
| `ChannelSystem.ExactlyOnceInOrder` | shared/rns/channel.js:217-266 | in every run of fewer than 65488 sends, under any loss, repetition, reordering and retransmission, the messages handled are a prefix of those sent, the ring is strictly sorted above `nextRxSequence`, and every proved message is handled or in the ring |
| `ChannelSystem.OctetsDeliver` | shared/rns/channel.js:106-129 | in every run the octets a send puts on the wire do to the receiver, whenever they arrive, what delivering that message does |
| `ChannelSystem.Ledger` | shared/rns/channel.js:95-211 | in every run of any length: each sequence sent is in exactly one of `txRing` and the proved set, `_pendingProofs` indexes exactly `txRing`, the window stays within its bounds, at most 48 messages are out, each transmitted at most 5 times |
| `ChannelRetry.TransmittedPerTimer` | shared/rns/channel.js:106-160 | in every run of any length a message has been transmitted once and once more for each of its first four retry timers, and the link has been closed exactly if some message had a fifth |
| `ChannelRetry.TimerTransmits` | shared/rns/channel.js:142-160 | in every run a timer with tries left sends that very packet again, counts the try and takes one off a window above its floor; without, it closes the link and leaves nothing unproved |
| `ChannelRetry.ProofFrees` | shared/rns/channel.js:167-191 | in every run an awaited proof takes exactly its message out of the ring and opens the window by one, up to its ceiling |
| `ChannelRetry.RetriesClose` | shared/rns/channel.js:142-160 | retries close a full window one by one to its floor, and the ceiling with it until it is within the flexibility of the floor |
| `ChannelWrap.DeliveredIsPrefixAcrossWraps` | shared/rns/channel.js:217-266 | across any number of sequence wraps delivery is a prefix of what was sent, for timely copies that are not inserted in front of another copy of themselves |
| `ChannelWrap.ArrivalExact` | shared/rns/channel.js:255-266 | an arrival within the window keeps the ring in order if and only if its insertion point does not come before a copy of it already there |
| `ChannelWrapExact.RunExact` | shared/rns/channel.js:217-266 | a timely run of any length keeps the receiver in order after each of its events if and only if no arrival in it is inserted before a copy of itself |
| `ChannelWrapExact.OrderlyDelivers` | shared/rns/channel.js:217-266 | with a condition on the arrivals alone, timely copies of which the new ones come in order while the window reaches past the modulus: no arrival is misplaced, and what has been handed out is exactly everything up to the first message that has not arrived |
| `ChannelWrapBreaks.MisplacedBreaks` | shared/rns/channel.js:217-266 | every misplaced arrival, in whatever state, has a timely continuation after which what was delivered is no prefix of what was sent, unless the message one wrap later is the same |
| `ChannelWrapBreaks.InadmissibleCanBreak` | shared/rns/channel.js:217-266 | every timely run from the start with a misplaced arrival has a beginning that can be continued so that the order breaks, messages 65536 apart being different |
| `ChannelWrap.OrderedNeverMisplaces` | shared/rns/channel.js:255-266 | a ring in message order never misplaces an arrival |
| `ChannelWrap.AheadIsAccepted` | shared/rns/channel.js:221-231 | every sequence at most WINDOW_MAX ahead is accepted, wherever `nextRxSequence` stands |
| `ChannelWrap.LateIsRejected` | shared/rns/channel.js:221-231 | a stale copy is refused when `nextRxSequence` lies in [its lateness, 65488) |
| `ChannelWrapLimit.TimelyIsNotEnough` | shared/rns/channel.js:255-266 | a concrete run in which timely copies alone make the channel hand out an old message in place of a new one, one wrap later |
| `ChannelOrder.RefusedIffFound` | shared/rns/channel.js:255-266 | an arrival is refused by the ring exactly when the scan meets its sequence before its insertion point |
| `ChannelOrder.DrainInOrder` | shared/rns/channel.js:238-253 | draining keeps the ring in order and loses nothing that is not delivered |
| `ChannelSender.WindowBounded` | shared/rns/channel.js:182-211 | 1 <= window <= windowMax <= 48 and windowMin <= windowMax survive every delivery and timeout |
| `ChannelFloor.FloorHeldIff` | shared/rns/channel.js:182-211 | in every run windowMin stays within window if and only if no awaited proof that ends the tenth medium round under windowMax 12 leaves a window below 5, and none that ends the tenth fast round under windowMax 48 one below 16 |
| `ChannelFloor.FloorCanPassWindow` | shared/rns/channel.js:193-210 | on a new channel ten messages sent, delivered and proved at 0.1 s leave windowMin 16 above window 5 |
| `Channel.Channel.constructor` | shared/rns/channel.js:55-80 | a new channel is the initial sender and receiver for its link's round-trip time |
| `Channel.Channel.Send` | shared/rns/channel.js:106-129 | not ready, too big, or exactly one new outstanding entry under the next sequence, and the envelope with that sequence, the type and the data on the wire |
| `Channel.Channel.OnTimeout` | shared/rns/channel.js:142-160 | the last retry closes the link and empties both rings; an earlier one retransmits and shrinks the window |
| `Channel.Channel.OnPacketProof` | shared/rns/channel.js:167-191 | an awaited proof removes exactly its entry and grows the window; any other changes nothing |
| `Channel.Channel.OnReceive` | shared/rns/channel.js:217-253 | parsing, the acceptance test, the ring and the drain together are the receive function the theorems are about |
| `Channel.Channel.EmplaceRx` | shared/rns/channel.js:255-266 | the insertion loop places or refuses as specified |
| `Envelope.EnvelopeRoundTrip` | shared/rns/protocol.js:1061-1079 | an envelope parses back to itself, whatever follows it |
| `StreamOverChannel.StreamIsRefined` | shared/rns/buffer.js:25-86 | over any channel run of fewer than 65488 messages, any interleaving of streams and any read sizes, what the reads returned plus what is buffered is a prefix of what the writer accepted on that stream, and the end is seen only with everything accepted before the close held |
| `Stream.ReaderHoldsOctets` | shared/rns/buffer.js:34-86 | what the reads returned plus what is buffered is exactly the stream's octets in the messages handled; the end is seen exactly if one of them ends the stream |
| `Stream.ReadKeepsOctets` | shared/rns/buffer.js:73-86 | a read of any size, negative ones included, neither loses nor repeats an octet |
| `Stream.ReadReturns` | shared/rns/buffer.js:73-86 | what a read returns is what leaves the front of the buffer: null only if nothing is buffered and the end not seen, else the first `size` octets or all there are, and for a negative size all but that many |
| `StreamOverChannel.WrittenArrives` | shared/rns/protocol.js:1128-1145 | a chunk arrives at its own stream as written, compressed or not, and at no other |
| `Stream.NeverTooBig` | shared/rns/buffer.js:122-133 | no chunk a writer sends is too big for the channel |
| `Envelope.StreamMessageRoundTrip` | shared/rns/protocol.js:1128-1145 | a stream message parses back to itself |
| `RawChannel.RawChannelReader.HandleMessage` | shared/rns/buffer.js:34-56 | the buffer, its length and the end mark after a message; taken exactly when it is for this stream |
| `RawChannel.RawChannelReader.Read` | shared/rns/buffer.js:73-86 | the octets returned, or null, and the chunk left; returned and left together are what was buffered |
| `RawChannel.ConcatChunks` | shared/rns/buffer.js:93-101 | the array filled by the loop is the chunks one after the other |
| `RawChannel.RawChannelWriter.Write` | shared/rns/buffer.js:122-133 | one whole chunk is accepted and the envelope of its stream message sent under the next sequence, or nothing when the channel is not ready; never too big |
| `RawChannel.RawChannelWriter.Close` | shared/rns/buffer.js:138-145 | the end mark stays set; the final message goes out only if the channel is ready |
| `MeshRouting.EntriesDescend` | shared/rns/index.js:103-133 | in every run on any mesh, floods and cached path responses in flight, a node's hop count is at least one more than its recorded next hop's |
| `MeshDiscovery.RequestAnswered` | shared/rns/index.js:263-279 | in every run a path request that reaches the owner or a node with an entry puts an announce at that node's distance on the way to each of its neighbours |
| `MeshDiscovery.AnnounceHeeded` | shared/rns/index.js:103-133 | a node that takes an announce knows the destination at most one hop further, through that neighbour if that is at least as near as before, and every other neighbour is to hear of it one hop further |
| `MeshDiscovery.AnnounceReaches` | shared/rns/index.js:103-133 | whatever has happened so far, an announce can reach every node that a chain of links joins to the owner, and then each knows the owner at most as many hops away as the chain has links |
| `MeshDiscovery.RequestFinds` | shared/rns/index.js:263-299 | a path request to a neighbour that knows the destination, and its answer, leave the asking node at most one hop further |
| `MeshRouting.RouteReaches` | shared/rns/index.js:197-202 | following the entries reaches the owner in at most `hops` forwards, meets no node twice and never a node whose next hop is the one it came from |
| `MeshRouting.WithinBudget` | shared/rns/index.js:197-202 | while tables change, a packet is forwarded at most as often as the hop count its first forwarder had |
| `MeshRouting.RoutedPacketGoesOn` | shared/rns/index.js:151-202 | in every run a forwarded packet is dropped if and only if the receiver is not its end, awaits no proof of it and has the forwarder as next hop, and then the forwarder's own hop count has since fallen by at least two; otherwise it is consumed or passed on |
| `MeshRouting.OvertakenPacketIsDropped` | shared/rns/index.js:197-202 | a concrete run on a ring in which the echo check drops a packet that only followed entries |
| `MeshRouting.NoMutualNextHops` | shared/rns/index.js:108-117 | two nodes never have each other as next hop |
| `MeshRouting.StepDescends` | shared/rns/index.js:91-202 | every step keeps the routing invariant, and hop counts only fall |
| `Reticulum.Reticulum.OnPacketReceived` | shared/rns/index.js:91-175 | the tables and the packets sent for any packet from any neighbour are those of the node function |
| `Reticulum.Reticulum.RelayLinkTraffic` | shared/rns/index.js:232-245 | traffic goes to the other remembered neighbour or nowhere; a close erases the entry |
| `Reticulum.Reticulum.BroadcastExcept` | shared/rns/index.js:181-190 | one copy to every neighbour but the one it came from |
| `LinkRelayProof.AcceptedExactlyOnce` | shared/rns/index.js:135-148 | on an acyclic mesh the broadcast link request is accepted by the owner exactly once, when its last copy on the path has arrived, and by nobody else |
| `LinkRelayProof.StaysOnPath` | shared/rns/index.js:212-245 | link requests, proofs and traffic run along the path between the ends; a copy off it changes nothing and is not passed on; relays sit only between the ends and point along the path |
| `LinkRelayProof.TrafficConserved` | shared/rns/index.js:232-245 | until a close is sent, every packet an end put on the link is on its way along the path or consumed once at the other end |
| `LinkRelayProof.CloseErasesRelays` | shared/rns/index.js:244-244 | once a close has arrived at an end, no node relays the link any more |
| `LinkRelayProof.StepInv` | shared/rns/index.js:91-245 | every step keeps the relaying invariant, other traffic included |
| `LinkRelayProof.PathFrom` | shared/rns/index.js:197-202 | every node other than the owner has such a path |
| `PacketCodec.RelaysHashAlike` | shared/rns/protocol.js:56-66 | after any number of relays the octets hashed for a packet and for its link id are the same, and the packet unpacks the same but for its hop count |
| `PacketCodec.LinkIdCovers` | shared/rns/protocol.js:311-319 | two link requests have the same hashed octets if and only if they agree on type bits, destination, context and keys |
| `PacketCodec.UnpackPack` | shared/rns/protocol.js:125-175 | packing and unpacking is the identity on well-formed packets |
| `PacketCodec.PackUnpack` | shared/rns/protocol.js:125-175 | unpacking and packing gives the octets back but for the top flag bit |
| `MsgPackRoundTrip.ParsePack` | shared/rns/msgpack.js:30-212 | reading a packed value followed by any suffix gives the raw value and stops exactly where it ends, for every nested value |
| `MsgPackRoundTrip.PrefixFree` | shared/rns/msgpack.js:30-116 | no packed value is a prefix of another |
| `MsgPackRoundTrip.OtherTags` | shared/rns/msgpack.js:139-181 | single-precision numbers are read as well, and the tags outside the subset give no value |
| `MsgPackRoundTrip.PackInjective` | shared/rns/msgpack.js:30-116 | equal octets if and only if equal values |
| `MsgPackObject.RoundTripIffFaithful` | shared/rns/msgpack.js:193-212 | what reading returns as a program value is the value packed if and only if no text or key begins with a byte order mark and the keys of every map are distinct texts other than "__proto__" |
| `MsgPackObject.MarkAndProtoAreLost` | shared/rns/msgpack.js:193-212 | the two losses, for every text and every value |
| `MsgPackStream.PackThenUnpack` | shared/rns/msgpack.js:30-133 | packing, appending anything and reading gives the value back exactly when it is faithful, and consumes exactly the packed octets |
| `MsgPackStream.Writer.WriteValue` | shared/rns/msgpack.js:36-50 | the writer appends exactly the packed octets |
| `MsgPackStream.Writer.PushBE` | shared/rns/msgpack.js:52-56 | the shifting loop appends the big-endian field |
| `MsgPackStream.Writer.WriteMap` | shared/rns/msgpack.js:105-116 | header and entries are appended in order |
| `MsgPackStream.Reader.ReadValue` | shared/rns/msgpack.js:139-181 | the value returned and the new offset are those of the parse, for every octet string |
| `MsgPackStream.Reader.ReadBE` | shared/rns/msgpack.js:127-131 | the loop reads the big-endian number |
| `MsgPackStream.Reader.ReadMap` | shared/rns/msgpack.js:205-212 | the object the loop builds is the one the entries assign |
| `Hdlc.StreamRoundTrip` | node/hdlc.js:9-62 | whatever flagless octets come first and however the framed payloads are cut into chunks, the decoder puts out exactly the payloads that are not empty, so all of them if none is |
| `Hdlc.DecodeContinues` | node/hdlc.js:43-62 | feeding a and then b gives the frames and the state of feeding a followed by b |
| `Hdlc.CuttingIsFree` | node/hdlc.js:43-62 | how a stream is cut into chunks does not matter |
| `Hdlc.EscapeRoundTrip` | node/hdlc.js:9-30 | escaped data holds no flag and unescapes to the data |
| `Hdlc.HdlcFrame` | node/hdlc.js:9-17 | the loop frames as specified |
| `Hdlc.HdlcUnescape` | node/hdlc.js:19-30 | the loop unescapes as specified, a lone final escape kept |
| `Hdlc.HdlcFrameDecoder.Push` | node/hdlc.js:43-62 | the frames returned and the buffer left are those of decoding the buffer and the chunk |
| `PropagationSync.PeerSyncConverges` | shared/rns/propagation.js:487-547 | with uploads on both sides in between, after a sync the peer has an offered message exactly if it had it or accepts its stamp, exactly what it lacked was uploaded, nothing else changed, and all offered count as handled |
| `PropagationPeers.UploadedOnce` | shared/rns/propagation.js:487-547 | over any sequence of syncs with one peer, failing ones and changes of either store in between included, no message whose upload was confirmed is uploaded or offered again |
| `PropagationPeers.SyncedIsNumberLacked` | shared/rns/propagation.js:503-546 | `synced` is the number of offered messages the peer lacked |
| `PropagationSync.OffersAreDistinct` | shared/rns/propagation.js:503-506 | offered keys are distinct |
| `PropagationSync.BothWaysUnite` | shared/rns/propagation.js:487-547 | a sync each way leaves both stores with the union of keys |
| `PropagationSync.SameKeySameEnvelope` | shared/rns/propagation.js:138-152 | one key means one envelope in both stores, unless hashes collide |
| `PropagationSync.SyncLosesNothing` | shared/rns/propagation.js:373-388 | whatever is uploaded between the two requests, every listed message is fetched once, in listing order, and exactly the listed ones of the requester are purged |
| `PropagationSync.RealSyncLosesNothing` | shared/rns/propagation.js:444-460 | the same for list by size, fetch, and purge in three requests |
| `PropagationSync.LostReply` | shared/rns/propagation.js:373-388 | if the reply to the joint fetch-and-purge request is lost, its messages are gone from the node |
| `PropagationSync.LimitHolds` | shared/rns/propagation.js:267-286 | a non-empty limited response satisfies 24 + sum(length + 48) <= limit |
| `PropagationSync.OnlyMisfitsSkipped` | shared/rns/propagation.js:267-286 | a wanted message of the owner is left out only if it would not have fitted |
| `PropagationSync.OnlyWantedServed` | shared/rns/propagation.js:279-286 | a response holds whole envelopes of wanted messages of the owner and nothing else |
| `PropagationSync.AlwaysFiledByHash` | shared/rns/propagation.js:126-156 | under any uploads and purges each message stays filed once under the hash of its envelope |
| `PropagationSync.AlwaysStamped` | shared/rns/propagation.js:126-156 | under any uploads and purges nothing comes into the store without a stamp good enough for it |
| `PropagationSync.AdmittedIff` | shared/rns/propagation.js:126-156 | an entry long enough ends up stored if and only if its stamp is good enough or its message is there already, and a new one is stored as it came |
| `PropagationSync.ListingLists` | shared/rns/propagation.js:190-198 | a listing names every message of the owner exactly once |
| `PropagationSync.BySizeKeys` | shared/rns/propagation.js:246-255 | sorting by size loses and repeats no key, and sorts |
| `PropagationSync.BySizeStable` | shared/rns/propagation.js:246-255 | messages of one size stay in the order listed |
| `PropagationStore.PurgedItems` | shared/rns/propagation.js:256-265 | a purge removes exactly the listed items of that owner |
| `PropagationStore.AdmitAllKeeps` | shared/rns/propagation.js:126-156 | uploads only add, and keep every key the hash of its envelope |
| `PropagationNode.PropagationNode.OnUpload` | shared/rns/propagation.js:126-156 | the store after an upload: long enough, well stamped and new entries are appended |
| `PropagationNode.PropagationNode.OnGetRequest` | shared/rns/propagation.js:174-223 | list, or fetch from the old store and then purge |
| `PropagationNode.PropagationNode.OnRealGetRequest` | shared/rns/propagation.js:236-289 | refusal, list by size, or purge and then a limited fetch from the purged store |
| `PropagationNode.PropagationNode.FetchWithin` | shared/rns/propagation.js:276-286 | the skipping loop computes the limited response |
| `PropagationNode.PropagationNode.OnOfferRequest` | shared/rns/propagation.js:303-319 | refused without identity or valid key; none wanted exactly if all offered keys are stored, all exactly if there are some and none is stored, and otherwise exactly those not stored, in the order offered |
| `PropagationNode.PropagationNode.SyncToPeer` | shared/rns/propagation.js:487-547 | unless the key is rejected, which changes nothing, the peer gains of the messages not handled exactly those whose stamps it accepts, the numbers reported are those not handled and those of them it lacked, and all of them are handled |
| `LinkRuns.TimeoutNeedsSilence` | shared/rns/index.js:1525-1565 | in every run, timers late or not, an established link is timed out only after inbound silence of at least 2 keepalive + 4 rtt + 5 s, and an unestablished one exactly when its establishment time is over |
| `LinkRuns.SilentLinkTimesOut` | shared/rns/index.js:1525-1565 | with exact timers a silent link goes stale at exactly two keepalive intervals and is closed exactly 4 rtt + 5 s later |
| `LinkRuns.InboundRevives` | shared/rns/index.js:1505-1510 | any inbound packet returns a stale link to active and restarts its silence |
| `LinkSignals.SilentLinkPings` | shared/rns/index.js:1536-1565 | with exact timers the initiator of a silent link pings after one keepalive interval and after two, and the close notice goes out when it gives up; the other end sends only the notice |
| `LinkSignals.NoticeOnce` | shared/rns/index.js:1536-1578 | in every run at most one close notice is sent, none before the link is closed, and from a closed link nothing at all |
| `LinkSignals.NoticeExactly` | shared/rns/index.js:1536-1578 | the events that send a close notice, exactly: closing a link past its request, and the timer of a stale one; both close it |
| `LinkSignals.ProofActivates` | shared/rns/index.js:737-768 | in every run the owner's proof activates a pending initiator with the time since its request as round-trip time, its keepalive interval and its next check |
| `LinkSignals.ReportActivates` | shared/rns/index.js:820-826 | in every run the round-trip report activates an owner's link that is not closed, with the larger of measured and reported time |
| `LinkSignals.PromiseKept` | shared/rns/index.js:1580-1601 | in every run a request waits on an active link and is settled at once on any other, and the answer to what waits settles it |
| `LinkSignals.ClosesAll` | shared/rns/index.js:1573-1578 | closing locally closes any link for that reason, and the peer's notice any link with a key to read it |
| `LinkState.KeepaliveMs` | shared/rns/index.js:1485-1492 | the keepalive interval is 360 seconds at a round-trip time of 1.75, proportional below, and within 5 and 360 seconds |
| `LinkRuns.ClosedForever` | shared/rns/index.js:1525-1601 | a closed link stays closed |
| `LinkRuns.PromisesAreSettled` | shared/rns/index.js:1580-1601 | in every run each promise is settled at most once and waits exactly as long as it is not; on a closed link only a segment registered after the close can wait |
| `LinkRuns.AllSettledIff` | shared/rns/index.js:1580-1601 | on a closed link every promise is settled if and only if each segment registered after the close has been answered since |
| `LinkRuns.CloseSettlesAll` | shared/rns/index.js:1580-1601 | the step that closes the link, whichever it is, leaves no promise waiting and settles each exactly once |
| `LinkRuns.LateSegmentWaits` | shared/rns/index.js:907-947 | a segment whose compression ends after the close is registered and keeps waiting |
| `LinkLifecycle.Link.WatchdogTick` | shared/rns/index.js:1525-1565 | the whole state after a watchdog tick, in every status |
| `LinkLifecycle.Link.NoteInbound` | shared/rns/index.js:1505-1510 | the whole state after an inbound packet |
| `LinkLifecycle.Link.ActivateWatchdog` | shared/rns/index.js:1494-1499 | the whole state after activation |
| `LinkLifecycle.Link.Teardown` | shared/rns/index.js:1580-1601 | the loops settle every waiting promise, resources first |
| `LinkLifecycle.Link.Close` | shared/rns/index.js:1573-1578 | a close notice goes out unless pending or closed, and the link is torn down |
| `LinkLifecycle.Link.OnProof` | shared/rns/index.js:737-768 | a valid proof activates a pending initiator |
| `LinkLifecycle.Link.OnRttReport` | shared/rns/index.js:820-826 | a round-trip report activates a responder with the larger of measured and reported time |
| `Stamp.StampValid` | shared/rns/stamp.js:70-72 | a digest meets a cost from 0 to 256 if and only if, read as a big-endian number, it is below 2^(256 - cost) |
| `Stamp.StampValue` | shared/rns/stamp.js:54-68 | the two loops count the leading zero bits of the digest as a number |
| `Stamp.ZerosMeanSmall` | shared/rns/stamp.js:54-72 | at least `cost` leading zeros if and only if below 2^(bits - cost), at any width |

## Left out

- Cryptography, compression, random numbers and stamp search: functions with the laws stated in the theorems that use them.
- WebRTC, TCP, storage, the browser user interface and the `msgpackr` package: an interface is a set of numbered neighbours.
- Announce contents, signatures and ratchets, announce rates, path-request throttling, path expiry and restart: an announce is authentic or not.
- Opaque packets (top flag bit set) and wrapping of the hop octet: routing theorems assume neither; `PacketCodec.PackUnpack` says what becomes of the bit.
- Handlers that throw, close the link or send from inside a callback; overlapping asynchronous writes on one stream.
- Request and response payloads and LXMF messages: which event an assembled resource raises is not modelled, only its data.
- Resource rows survive a closing link in the delivery model; teardown of both tables is `LinkLifecycle.Link.Teardown` for outgoing ones only.
- The rate measured for a round and the retry deadline are inputs of the steps; a retry tick before its deadline only re-arms and is not a step.
- A hashmap update beyond the known entries leaves holes in the program's array; here it is ignored. An honest sender never sends one (`ResourceDeliveryProof.NeverOutOfSequence`).
- ResourceDeliveryProof.DeliveredAsGiven: each advertisement is delivered at most once; a repeated one starts the segment afresh, which the program does not guard against.
- ChannelWrap.DeliveredIsPrefixAcrossWraps: assumes that no arrival is misplaced, because without it delivery can break (`ChannelWrapBreaks.InadmissibleCanBreak`).
- ChannelWrapBreaks.MisplacedBreaks: copies more than WINDOW_MAX ahead, or later than `nextRxSequence`, are outside the timely runs it is about.
- MeshRouting.RoutedPacketGoesOn: never dropped is false of the echo check (`MeshRouting.OvertakenPacketIsDropped`), so the exact condition is stated.
- LinkRelayProof.AcceptedExactlyOnce: one link at a time, no announce of its destination delivered meanwhile; an end keeps the id of a closed link.
- Channel.Channel.OnPacketProof: ring entries are values, not shared objects, so aliasing of an entry between ring and index is not captured; an entry's delivered flag is its absence from the ring.
- MsgPackStream.Reader.ReadValue: octets that end early give no value, where the program returns shortened or undefined parts; keys other than texts and integers give no value.
- MsgPackObject.RoundTripIffFaithful: texts are their UTF-8 octets, doubles their eight octets; malformed UTF-8, lone surrogates, negative zero and the order in which objects enumerate integer-like keys are not modelled.
- RawChannel.RawChannelReader.Read: the size is an integer; read() without a size, which repeats data in the program, and the reader's events are not modelled.
- PropagationNode.PropagationNode.OnGetRequest: requests are already parsed and authenticated, and ids are keys; malformed ids are not modelled.
- PropagationNode.PropagationNode.SyncToPeer: key generation and the failure of the upload itself are not modelled; failing uploads are, in `PropagationPeers.UploadedOnce`, uploads in between in `PropagationSync.PeerSyncConverges`.
- LinkLifecycle.Link.OnProof: which packets are valid, and what other packets do on a link, is left to the other parts.
