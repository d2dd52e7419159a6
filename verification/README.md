# Verified models of the camera server and its UDP library

Models, in Dafny, of the algorithms in this repository that are hardest to get right, and proofs of what
they promise. Loops, arrays and fields that the C code updates are loops, arrays and fields here; each
such method is proved to do what a function says, and the lemmas are about the functions.

- **Compression** (`enet-1.3.3/compress.c`): the carry-less range coder (RangeCoder), the symbol trees
  (SymbolTree), the order-2 model (PpmModel) and what it is in terms of the input alone (PpmMeaning), the
  shared array of 4096 nodes (Arena, ArenaTrees, ArenaBooks, ArenaLookup), both coders as functions
  (Coders, EncoderProof, DecoderProof) and as the program runs them (SymbolArray, Compression). The
  coders put their nodes at different indices; both arrays represent the same map from contexts to
  trees. What the decompressor does with bytes that no compressor wrote is in KeyedTrees and
  DecoderSafety: it can decode a value that is not in the order of the tree, so its trees are ordered by
  keys that the proof chooses as nodes are made.
- **Reliable transport** (`peer.c`, `protocol.c`, `host.c`, `packet.c`, `list.c`): fragmentation and
  numbering (ReliableChannel), the receiver (IncomingChannel) and its circular linked lists
  (IntrusiveList, IncomingPeer), delivery over every run of the network (DeliveryProof, ReliableLink) and
  a run that shows why its condition is needed (LateDuplicate), sending, acknowledging, timing out and the
  references to packets (OutgoingQueues, Retransmission), and the bandwidth allocator (BandwidthThrottle).
- **MPEG audio layer II** (`mpegaudio.c`, `mpegaudio.h`): the bit writer and a reader (BitFields), the
  tables (Mp2Tables), the greedy allocator (Mp2Allocation), scale factors and quantisation
  (Mp2ScaleFactors, Mp2Quantise), the frame writer (Mp2Frame) and what a decoder reads out of a frame
  (Mp2ReadBack).
- **Frame plumbing** (`frame.c`, `stream.c`): the exchanger under every interleaving of its two threads
  (FrameExchanger) and the recycled, counted frames (FrameHeap).
- **Connections and packets** (`tcp.c`, `pmsg.c`, `md5.c`, `rtp-h264.c`, `rtp-mpeg4.c`): base64 in pieces
  (Base64), incremental MD5 (Md5), the output ring (SendBuffer), messages printed and parsed (Messages),
  and RTP payloads (Packetisers).

Numbers holds the widths and the few facts of arithmetic that several of them need.

`dafny verify dfyconfig.toml` checks the whole project. Constants are those of the ENet 1.3.3 headers.
Where something promised holds only under a condition, the condition is exact, and can be checked before
the call:

- a duplicate is told apart from a command of the next lap exactly up to the age in
  `DeliveryProof.TimelyIsExact`, and one number older is delivered twice (`LateDuplicate.LateDuplicateIsDelivered`);
- the slave of an exchanger gets a frame exactly when it was given one that is not NULL
  (`FrameExchanger.GetStays`);
- a connected peer is told a limit of 0, which the protocol reads as no limit, exactly when its own
  bandwidth or the host's is 0, or the host's is less than the number of peers that name one
  (`BandwidthThrottle.Host.LimitIncoming`);
- a printed response, and a well-formed request, is read back exactly when it has no more than 32 headers;
  with more, the parser writes behind its array (`Messages.ResponseReadBack`, `Messages.RequestReadBack`);
- the host's throttle divides by zero exactly when its bandwidth, in 32 bits, lets nothing through and no
  peer sent anything (`BandwidthThrottle.Host.ThrottleOutgoing`);
- the search for a scale factor stays in its table exactly when the loudest sample of no part is 1
  (`Mp2Quantise.ScaleIndex`), and a sample gets a level on its scale exactly when it is `Representable`
  (`Mp2Quantise.LevelExactly`);
- the H.264 loop ends exactly when the unit fits whole, is a header alone, or a packet takes three bytes
  (`Packetisers.LoopEndsExactly`).

## Model

| member | source | states |
|---|---|---|
| RangeCoder.BitTests | enet-1.3.3/compress.c:128-131 | the exclusive-or test and the negate-and-mask of the normalisation loop, taken bit by bit, are the integer definitions that all else uses: the leading bytes differ, and the distance to the next 2^16 boundary |
| RangeCoder.RoundStaysInside | enet-1.3.3/compress.c:126-136 | shrinking to a 2^16 boundary never empties or widens the interval, and shifting out the common leading byte loses nothing of it |
| RangeCoder.NormaliseKeepsInterval | enet-1.3.3/compress.c:126-136 | after the loop range >= 2^16, low + range <= 2^32, and equality only when low >= 2^24; the loop ends |
| RangeCoder.SliceStaysInside | enet-1.3.3/compress.c:121-125 | taking (under, count) of total keeps the new interval inside the old one and not empty |
| RangeCoder.WordBeforeNormalise | enet-1.3.3/compress.c:126-136 | bytes that point into the interval after a normalisation point, with the emitted bytes before them, into the one before: no later step changes an emitted byte |
| RangeCoder.OutputPointsInside | enet-1.3.3/compress.c:121-146 | for every list of slots, the whole output, with zeros after it, points into the interval it came from |
| RangeCoder.FlushSpellsLow | enet-1.3.3/compress.c:139-146 | the flush, which stops at the first all-zero rest, still spells the low end of the interval once the missing bytes read as zeros |
| RangeCoder.SeedIsInStep | enet-1.3.3/compress.c:344-350 | seeding from the output puts the decoder's code inside the encoder's interval |
| RangeCoder.StepRecoversSlot | enet-1.3.3/compress.c:352-371 | 0 <= code - low < range is kept, the scaled code falls into the slot that was coded, and decoding that slot keeps the registers in step |
| RangeCoder.RunRecoversEverySlot | enet-1.3.3/compress.c:121-146 | for every agreed list of (under, count, total), every code read back lies in the slot that was coded |
| RangeCoder.EndReadsZero | enet-1.3.3/compress.c:352-371 | once all slots are read every further read gives zero, whatever total it is read with, and reading an escape keeps it so: the implicit end of the stream |
| SymbolTree.AtNode | enet-1.3.3/compress.c:170-196 | what one comparison decides about the counts below a value in a search tree |
| SymbolTree.BumpCounts | enet-1.3.3/compress.c:159-199 | coding a value raises its count by the update, adds it if it was missing, keeps the search tree and every `under` field right, and changes no other count |
| SymbolTree.BumpBound | enet-1.3.3/compress.c:159-199 | no count grows by more than the update, so 8-bit counts do not overflow between rescales |
| SymbolTree.HalveKeepsSymbols | enet-1.3.3/compress.c:90-105 | the rescale halves the count of every symbol rounding up, keeps the same symbols and the search order, and recomputes every `under` |
| SymbolTree.CodesAreDisjoint | enet-1.3.3/compress.c:159-199 | the code intervals of different values do not overlap |
| SymbolTree.CodeGoesWithValue | enet-1.3.3/compress.c:373-413 | the comparisons of the decoding walk at one node send a code of a value the way the value itself would go |
| SymbolTree.LookInverts | enet-1.3.3/compress.c:373-438 | the decoding walk, given any code from the interval of a value, finds that value with the same under and count, seen or unseen |
| PpmModel.LearnKeepsGood | enet-1.3.3/compress.c:293-314 | coding a byte in a context, with its rescale, keeps total = escapes + counts + 256*minimum and every 8- and 16-bit field in range |
| PpmModel.TrainKeepsGood | enet-1.3.3/compress.c:282-325 | going down the chain of contexts keeps every context of the model good, and every context's lower order present |
| PpmModel.SlotsValid | enet-1.3.3/compress.c:301-323 | every slot that coding a byte asks for fits its total, so no division by zero and no empty slot |
| PpmModel.LearningCommutes | enet-1.3.3/compress.c:598-614 | learning in two different contexts gives the same model in either order |
| PpmModel.PatchEqualsTrain | enet-1.3.3/compress.c:598-614 | the decoder's order, coding context first and the higher orders patched later, ends with the same contexts as the encoder's order |
| PpmModel.StepKeepsGood | enet-1.3.3/compress.c:282-334 | one whole byte keeps the model good, including the arena reset at 4096 - 2 nodes |
| PpmModel.AllSlotsValid | enet-1.3.3/compress.c:263-336 | over any input, every slot that is coded is valid |
| PpmMeaning.ContextIsLastBytes | enet-1.3.3/compress.c:330-335 | the context the next byte is coded in is that of the last two bytes since the last reset, or of as many as there are; and the model depends on the bytes since the last reset alone |
| PpmMeaning.ResetsExactly | enet-1.3.3/compress.c:148-157 | everything starts afresh if and only if, with the byte learned, at least 4094 of the 4096 nodes are used |
| PpmMeaning.TwoBytesLater | enet-1.3.3/compress.c:330-335 | from any model whose nodes are counted right, two bytes without a reset lead to their context |
| PpmMeaning.SlotsOfNext | enet-1.3.3/compress.c:263-336 | what is coded for one more byte are its slots in the context of the last bytes, in the model of the input so far |
| PpmMeaning.CodedInLongest | enet-1.3.3/compress.c:282-325 | a byte is coded in the longest context, with the oldest bytes dropped one by one, that knows it, or in the root |
| PpmMeaning.WhoLearns | enet-1.3.3/compress.c:282-325 | it is learned by exactly the contexts from the longest to the one it is coded in; every other context stays as it was, and the new contexts of the byte are empty |
| PpmMeaning.SlotsTile | enet-1.3.3/compress.c:293-323 | the slots of a context lie side by side from 0 to its total: the escape, then the values in order |
| PpmMeaning.LearnsExactly | enet-1.3.3/compress.c:293-323 | learning adds 2 to a byte's count, 3 in the root, and 5 to the escapes for a new byte, and changes no other count; then every count and the escapes are halved, rounding up, exactly when the byte's count was above 251, in the root 249 besides its minimum of 1, or the total is above 65280 |
| PpmMeaning.ThreeBytes | enet-1.3.3/compress.c:263-336 | the slots of three equal bytes, from a fresh model |
| PpmMeaning.KnownAnswer | enet-1.3.3/compress.c:246-341 | the coded form of "aaa" is the bytes 62 01 4C A3 |
| ArenaTrees.WalkRefines | enet-1.3.3/compress.c:159-199 | the pointer walk over the shared array does to the tree stored there what the tree function does, and touches nothing else |
| ArenaTrees.RescaleRefines | enet-1.3.3/compress.c:90-105 | the recursive rescale over the array does to the stored tree what halving does, without 16-bit overflow |
| ArenaBooks.LearnInArena | enet-1.3.3/compress.c:284-314 | one context of the chain, with its walk, the parent link and the counters, leads from an array that represents the contexts to one that represents them after learning |
| ArenaBooks.ContextRescaleRefines | enet-1.3.3/compress.c:107-112 | rescaling a context in the array is rescaling it in the model |
| ArenaLookup.LookUpFollows | enet-1.3.3/compress.c:373-413 | on the array, the decoder's walk visits and changes the nodes the encoder's walk for the same value would |
| ArenaLookup.ContextDecodeFollows | enet-1.3.3/compress.c:415-438 | in a whole context, a code from a value's slot makes the decoder leave the array as the encoder's coding of that value would |
| EncoderProof.EncodeChainRefines | enet-1.3.3/compress.c:282-325 | one byte down the chain: the array follows the model and exactly the byte's slots are written |
| EncoderProof.EncodeByteRefines | enet-1.3.3/compress.c:282-334 | the same for the whole byte with `nextInput` and the arena reset |
| EncoderProof.CompressorWritesCodedForm | enet-1.3.3/compress.c:246-341 | the compressor never leaves its 4096 nodes, never divides by zero and never spins: whatever the arena held before, it writes the coded form of its input |
| DecoderProof.DecodeChainRefines | enet-1.3.3/compress.c:529-597 | in step, the decoder finds the byte that was coded, in the context where it was coded |
| DecoderProof.EndIsFound | enet-1.3.3/compress.c:529-580 | at the end of the coded stream every context reads an escape and the root ends the loop |
| DecoderProof.PatchRefines | enet-1.3.3/compress.c:598-615 | the patch loop brings the decoder's array, whose nodes have other indices, to represent the same contexts as the encoder's |
| DecoderProof.OutputIsNotEmpty | enet-1.3.3/compress.c:246-341 | the coded form is empty if and only if the input is |
| DecoderProof.DecompressorInverts | enet-1.3.3/compress.c:498-626 | for every non-empty input, decompressing its coded form gives the input back, whatever the arena held before; without room for all of it the result is 0 |
| DecoderProof.CompressionRoundTrip | enet-1.3.3/compress.c:246-341 | compress, then decompress, over two arenas with unrelated contents: the concatenated input comes back exactly |
| DecoderSafety.RenormaliseEnds | enet-1.3.3/compress.c:360-371 | the decoder's loop ends from any registers with a range that is not zero, and leaves range >= 2^16 |
| KeyedTrees.DecodeWalkCounts | enet-1.3.3/compress.c:373-438 | whatever the code is, the walk over a well-built tree stays inside the array; it finds a symbol, makes one, or, where none may be made, says that there is none; and it raises the counts of just that tree by what it reports |
| KeyedTrees.RescaleHalves | enet-1.3.3/compress.c:90-105 | the recursive rescale of such a tree ends, stays inside the array, and keeps the tree well-built with every count halved |
| DecoderSafety.DecompressorIsTotal | enet-1.3.3/compress.c:498-626 | for all bytes from the network, any room and any old array, the decompressor ends, never divides by zero and never leaves its 4096 nodes |
| SymbolArray.RescaleSymbols | enet-1.3.3/compress.c:90-105 | the recursive method over the array computes the specified rescale and its 16-bit sum |
| SymbolArray.EncodeInContext | enet-1.3.3/compress.c:159-199 | the loop over the array equals the specified walk, including the new node |
| SymbolArray.DecodeInContext | enet-1.3.3/compress.c:373-438 | the decoding loop equals the specified walk; not finding a symbol is the early `return 0` |
| Compression.Compressor.Encode | enet-1.3.3/compress.c:121-137 | the encode step on the registers and the output cursor; not ok exactly when the output is full |
| Compression.Compressor.EncodeValue | enet-1.3.3/compress.c:282-325 | the chain loop equals the specified encoder step |
| Compression.Decompressor.DecodeValue | enet-1.3.3/compress.c:529-597 | the chain loop equals the specified decoder step |
| Compression.Decompressor.PatchContexts | enet-1.3.3/compress.c:598-615 | the patch loop equals the specified patching |
| Compression.RangeCoderContext.Compress | enet-1.3.3/compress.c:246-341 | the whole method over several buffers: 0 when there is nothing or no room, otherwise exactly the coded form of the concatenated buffers |
| Compression.RangeCoderContext.Decompress | enet-1.3.3/compress.c:498-626 | the whole method equals the specified decoder on every input, malformed streams included; it ends and stays inside the array on all of them |
| Compression.SendCompressed | enet-1.3.3/compress.c:246-341 | end to end through both classes: what one peer compresses the other decompresses to the concatenation of the buffers |
| ReliableChannel.CommandsTilePacket | enet-1.3.3/peer.c:110-185 | the fragments of a packet tile it: in order, without gap or overlap |
| ReliableChannel.CommandsAreFull | enet-1.3.3/peer.c:110-185 | a packet that fits is one command; one that does not is cut into full pieces and a last one that is not empty, numbered one after the other modulo 2^16 |
| ReliableChannel.OutgoingChannel.CutPacket | enet-1.3.3/peer.c:138-172 | the cutting loop makes exactly ceil(length / fragmentLength) pieces, each where it belongs |
| ReliableChannel.OutgoingChannel.Send | enet-1.3.3/peer.c:100-216 | sending queues exactly the packet's commands with consecutive 16-bit numbers |
| DeliveryProof.CompareIsByDistance | enet-1.3.3/peer.c:739-755 | the three-way comparison of the backward search is the comparison of forward distances on the 2^16 circle |
| DeliveryProof.WindowIsDistance | enet-1.3.3/peer.c:728-735 | the window test accepts exactly the numbers less than seven windows ahead of the current one |
| DeliveryProof.TimelyIsExact | enet-1.3.3/peer.c:728-735 | within one lap, a number is read as what it is, or refused, if and only if it is at most 0x9000 old plus the offset into the current window: one older, and a duplicate can pass for a command of the next lap |
| DeliveryProof.CompleteEntryIsPacket | enet-1.3.3/protocol.c:581-599 | reassembly: when no fragment is missing the buffer is the packet, for any order of arrival with duplicates |
| DeliveryProof.SearchFinds | enet-1.3.3/peer.c:739-758 | on a sorted queue the backward search finds the packet, or the one place that keeps the queue sorted |
| DeliveryProof.DispatchKeeps | enet-1.3.3/peer.c:675-705 | dispatching moves exactly the next packets, in order, and leaves nothing that could be dispatched |
| DeliveryProof.StoreAtKeeps | enet-1.3.3/protocol.c:579-599 | storing a fragment keeps fragmentsRemaining equal to the missing fragments and every piece received in place; the packet is dispatched only when all are there |
| DeliveryProof.ReliableDelivery | enet-1.3.3/peer.c:674-862 | over every run of loss, duplication and reordering in which no command arrives so early or late that its number is read as another lap's: what is dispatched is a prefix of what was queued, each packet once, in order and with its own bytes, across the wrap-around; the queue is strictly sorted by forward distance |
| DeliveryProof.RunStaysSound | enet-1.3.3/peer.c:674-862 | every step of every run keeps the receiver's state standing for packets of the sender, and never takes a dispatched packet back |
| DeliveryProof.ArrivedIsDispatched | enet-1.3.3/peer.c:674-862 | once every command of the next packet has arrived, in any order and among any others, that packet is dispatched |
| LateDuplicate.LateDuplicateIsDelivered | enet-1.3.3/peer.c:728-758 | a run where one duplicate arrives a single number too old, and more packets are dispatched than were queued: the bound on its age cannot be relaxed |
| IntrusiveList.Insert | enet-1.3.3/list.c:20-32 | relinking puts the node in its place in the circular list, both ways round, and moves no other |
| IntrusiveList.Remove | enet-1.3.3/list.c:34-41 | relinking takes exactly that node out of the list |
| IntrusiveList.Move | enet-1.3.3/list.c:43-59 | a whole run of nodes leaves one circular list and stands in another, in its order |
| IntrusiveList.Size | enet-1.3.3/list.c:61-73 | the walk back to the sentinel ends and counts the nodes |
| IntrusiveList.HoldsOneThing | enet-1.3.3/include/enet/list.h:10-32 | the pointers alone determine which nodes a list holds, and in which order |
| IncomingPeer.ReliableReceiver.DispatchReliable | enet-1.3.3/peer.c:674-710 | the dispatch loop over the linked nodes, with the move to the other list, equals the specified dispatch |
| IncomingPeer.ReliableReceiver.FindPlace | enet-1.3.3/peer.c:739-758 | the backward loop over the `previous` pointers, with its continue and break, equals the specified search |
| IncomingPeer.ReliableReceiver.QueueIncomingCommand | enet-1.3.3/peer.c:712-862 | a command is queued, silently dropped or refused exactly as specified |
| IncomingPeer.ReliableReceiver.HandleSendFragment | enet-1.3.3/protocol.c:496-602 | a fragment is stored, opens a packet, is dropped or refused exactly as specified |
| IncomingPeer.ReliableReceiver.Take | enet-1.3.3/peer.c:217-241 | the application gets every dispatched packet once, in the order of dispatch, and nothing exactly when none is left |
| ReliableLink.WireAt | enet-1.3.3/peer.c:535-599 | command n of packet k sits in the sender's list where its unwrapped number says |
| ReliableLink.Transfer | enet-1.3.3/peer.c:100-862 | a run of both classes, with a network between them that loses, repeats and reorders commands at will as long as no number is read as another lap's, delivers a prefix of the packets sent |
| OutgoingQueues.LeaveIsCollected | enet-1.3.3/protocol.c:226-235 | a packet is destroyed exactly when the last command that points at it leaves |
| Retransmission.Peer.Find | enet-1.3.3/protocol.c:177-206 | the early exit of the acknowledgement lookup never hides a command that was sent, because resent commands come first |
| Retransmission.Peer.RemoveSentReliableCommand | enet-1.3.3/protocol.c:170-247 | the acknowledged command leaves its list and nothing else does; transit, windows, used bits, the next timeout and reference counts stay exact |
| Retransmission.Peer.CheckTimeouts | enet-1.3.3/protocol.c:1341-1392 | what timed out goes to the front of the waiting list, oldest first, with doubled timeout; the peer is given up exactly when some late command is hopeless; the earliest timeout and all counters stay exact |
| OutgoingQueues.TimedOutExactly | enet-1.3.3/protocol.c:1358-1359 | a command sent less than a day ago times out if and only if its timeout has passed since |
| OutgoingQueues.GivenUpExactly | enet-1.3.3/protocol.c:1361-1374 | for commands sent less than a day ago, and not at 0 of the clock, the peer is given up if and only if some command times out by when the oldest one that did is 30 seconds old, or 5 seconds with the command's own timeout at its limit |
| Retransmission.Peer.SendReliable | enet-1.3.3/protocol.c:1394-1516 | a command seen is sent if and only if neither a window nor the data in transit holds it back, and the pass stops only at a command that is not held back and does not fit the datagram; commands keep their old order; transit and the datagram's size, commands and buffers grow by exactly what was sent, and continueSending and the ping are exact; once data is sent, transit is within max(throttled window, mtu); the window counters and used bits stay exact; the datagram stays within mtu, 32 commands and 65 buffers |
| Retransmission.CountsDown | enet-1.3.3/protocol.c:210-219 | taking out a once-sent command lowers exactly its own window counter, and clears the used bit exactly at zero |
| Retransmission.CountsUp | enet-1.3.3/protocol.c:1464-1468 | the first sending of a command raises exactly its own window counter |
| Retransmission.Peer.QueueCommands | enet-1.3.3/peer.c:174-185 | all commands of a packet take their references and go to the end of the list; the counters stay exact |
| Retransmission.Peer.SendUnreliable | enet-1.3.3/protocol.c:1240-1339 | unreliable commands leave from the front, sent or dropped just as the throttle's counter says, a dropped packet as a whole, and its last reference frees it; the pass stops only at a command that does not fit, and the datagram grows by exactly what was sent |
| Retransmission.ThrottleShare | enet-1.3.3/protocol.c:1269-1274 | of any 32 packets in a row exactly throttle + 1 are sent, and all of them from a throttle of 31 on |
| Retransmission.Peer.ResetOutgoing | enet-1.3.3/peer.c:243-262 | emptying a list destroys exactly the packets that lose their last reference |
| Retransmission.Peer.ResetQueues | enet-1.3.3/peer.c:298-337 | after a reset every list is empty, and exactly the packets they pointed at are gone |
| Retransmission.Peer.ReceivePacket | enet-1.3.3/peer.c:217-241 | the application takes over a packet, which is not destroyed whatever its count is then |
| Retransmission.Peer.DispatchHeld | enet-1.3.3/peer.c:695-700 | dispatching moves held packets behind those dispatched before; no reference is gained or lost |
| Retransmission.Peer.CreatePacket | enet-1.3.3/packet.c:19-47 | a new packet has no references, and all counters stay exact |
| Retransmission.Peer.DestroyPacket | enet-1.3.3/packet.c:52-60 | the application may destroy a packet that no command points at: just that one goes, and nothing is left pointing at it |
| BandwidthThrottle.ThrottleBounds | enet-1.3.3/host.c:359-362 | the common throttle is at most 32 and throttle * data <= 32 * bandwidth, although its product wraps at 32 bits |
| BandwidthThrottle.PassStaysPositive | enet-1.3.3/host.c:364-395 | within a pass neither bandwidth nor dataTotal underflows, both are positive once a peer was settled, and dataTotal covers the data of the unsettled peers: no division by zero after the first pass |
| BandwidthThrottle.ThrottleFallsExactly | enet-1.3.3/host.c:355-395 | over all that a pass may settle, the common throttle never rises, if and only if the data is less than the bandwidth, or the bandwidth is below 2^27, or the throttle is already as high as where its product just fits 32 bits again |
| BandwidthThrottle.ShareIsExact | enet-1.3.3/host.c:376 | what the throttle lets through is computed exactly if and only if throttle * data fits 32 bits |
| BandwidthThrottle.Host.SettlePass | enet-1.3.3/host.c:364-395 | one pass settles exactly the peers whose own bandwidth is below their share, or finds none |
| BandwidthThrottle.Host.ThrottleOutgoing | enet-1.3.3/host.c:333-411 | in 32-bit arithmetic: the loop ends; it divides by zero exactly when the wrapped budget is 0 and no connected peer sent anything; otherwise every peer is limited by its own bandwidth or by the common throttle; the common throttle is the largest for the data and the bandwidth that are left, 32 when the data is less, and where nothing wraps the peers limited by their own bandwidth are just those that cannot take their share of the whole; the throttled data of all peers together is within the budget, limits bumped up to 1 included |
| BandwidthThrottle.Host.LimitIncoming | enet-1.3.3/host.c:413-467 | the share is the bandwidth left divided by the peers that wait for it, and exactly the peers that can do with less keep their own; the limits announced add up to no more than the host takes in; a connected peer is told 0, which means no limit, if and only if the bandwidth of the host or of the peer is 0, or that of the host is less than the number of connected peers whose own is not 0 |
| BitFields.PutBitContext.PutBits | mpegaudio.h:135-174 | after any sequence of writes the buffer and the low bits of the accumulator are the fields one after the other, high bit first, despite stale high bits |
| BitFields.PutBitContext.Flush | mpegaudio.c:277-292 | flushing writes ceil(bits / 8) bytes in all, zeros at the end |
| BitFields.ShiftIn | mpegaudio.h:152-168 | a field shifted in from the right: what falls out of the 32 bits on the left was not meant |
| BitFields.GetField | rtp-mpeg4.c:126-148 | the bytewise and bitwise reading loop gives the number that the bits spell, modulo 2^32 |
| BitFields.WriteAndRead | mpegaudio.h:135-174 | fields written, flushed and read back with the same widths have their values |
| Mp2Tables.TablesAreGood | mpegaudio.c:101-221 | the five allocation tables have as many lines as sblimit_table says, each with 2^bits entries, rising quantiser indices below 17 |
| Mp2Tables.QuantisedFit | mpegaudio.c:84-97 | three clipped samples fit the field they share, and each fits its own |
| Mp2Allocation.MpegAudioContext.FindLargest | mpegaudio.c:801-820 | the search finds the first open subband with the largest ratio, or that none is open |
| Mp2Allocation.MpegAudioContext.ComputeBitAllocation | mpegaudio.c:766-865 | for every input whose base size fits, the greedy loop ends; every step went to the first open subband of largest ratio and lowered its ratio as the quantiser table says; the padding is exactly what the allocation leaves of the frame, and no subband could take one step more |
| Mp2Allocation.RatiosFollow | mpegaudio.c:822-853 | in every state of a greedy run the ratio of a subband is the first one less that of the quantiser it has reached, in 16 bits, and what is left is what the allocation reached has not taken |
| Mp2Allocation.Grows | mpegaudio.c:841-853 | one step of one subband changes the frame's size by exactly the increment that was added |
| Mp2Frame.FrameIsFull | mpegaudio.c:871-1010 | what the writer writes for an allocation is as many bits as the allocator counted for it, plus the padding |
| Mp2Frame.EncodeFrame | mpegaudio.c:871-1013 | header, allocation, scale codes, factors, twelve groups of samples quantised in 32-bit arithmetic, and padding are written in that order, to the bit; all of it exactly when every level is on its scale |
| Mp2Frame.EncodeWholeFrame | mpegaudio.c:1015-1040 | a frame is written exactly when the search for a scale stays in its table and every level is on its scale; then the returned length is frame_size / 8, plus one with padding, and those bytes are exactly the fields of the frame with the given header, the factors found for the samples, their levels, and the allocation that the greedy run from the given ratios ends with |
| Mp2ReadBack.FrameReadBack | mpegaudio.c:871-1010 | a decoder that adds up widths, as ISO/IEC 11172-3, 2.4.1 lays a frame out, reads back every field: the header, each allocation, scale code and factor that is sent, the level of every sample with the factor of its part, three in one number taken apart by division, and zeros as padding |
| Mp2Frame.LevelsFitExactly | mpegaudio.c:942-1001 | the assertion commented out at line 979 holds for a whole frame if and only if every sample that is sent is representable |
| Mp2Quantise.LevelExactly | mpegaudio.c:955-979 | for a sample no louder than its scale, 0 <= level < steps holds in 32-bit arithmetic if and only if it is not in the last rounding step of a scale 2 mod 3, and not positive after normalisation at 65535 steps |
| Mp2Quantise.LevelIsNear | mpegaudio.c:955-978 | for a representable sample, steps * (sample + scale) lies between 2 * scale * level and 2 * scale * (level + 1), up to a rounding of at most steps * scale / 2^15 below and 4 * steps * scale / 2^15 above |
| Mp2Quantise.LevelsOffScale | mpegaudio.c:955-979 | two samples for which the assertion fails: full scale at the third factor gets level -1, a small positive one on the finest scale a large negative level |
| Mp2Quantise.LevelsKeepOrder | mpegaudio.c:955-978 | among representable samples of one scale a louder one never gets a lower level |
| Mp2Quantise.FactorIsRoot | mpegaudio.c:410-415 | every scale factor i is 2^(21 - i/3) rounded down: the largest number whose cube is at most 2^(63 - i) |
| Mp2Quantise.MultipliersAreRoots | mpegaudio.c:419-421 | the multipliers are 2^15 times the cube roots of 1, 2 and 4, rounded down |
| Mp2Quantise.AvLog2 | mpegaudio.h:257-273 | the position of the highest bit |
| Mp2Quantise.ScaleIndex | mpegaudio.c:652-668 | the search finds the smallest factor that covers the loudest sample, up to 2^21; it runs off the table exactly for a loudest sample of 1 |
| Mp2Quantise.ComputeScaleFactors | mpegaudio.c:633-741 | every part of every subband gets the finest factor that covers all its samples, evened out among close parts to the loudest one's, and the code from which a decoder restores them; off the table exactly when some part has a loudest sample of 1 |
| Mp2ScaleFactors.SelectScaleCode | mpegaudio.c:678-741 | in all 25 cases the code follows from which neighbouring factors are three steps or more apart, parts that share a factor get the loudest one's, and the factors left are those a decoder restores from what is sent |
| FrameExchanger.Exchanger.ExchangeFrame | frame.c:301-320 | refused exactly when the slot to write still holds a frame, which then stays; otherwise the frame is the next one given to the slave; a master that keeps to the give-back discipline is never refused and the whole invariant is kept |
| FrameExchanger.Exchanger.GetNextFrame | frame.c:322-369 | the slave gets the oldest frame given that it has not delivered, and none exactly when there is none or it was NULL |
| FrameExchanger.Exchanger.DeliverFrame | frame.c:371-394 | a frame delivered comes behind those delivered before, in a slot that is empty |
| FrameExchanger.Exchanger.ReadFrame | frame.c:199-207 | the master takes the oldest frame delivered that it has not read |
| FrameExchanger.Exchanger.ReadAll | frame.c:187-220 | the reading loop ends, with every frame delivered handed to the master once, in order, and none NULL |
| FrameExchanger.ExchangeStays | frame.c:301-320 | under the give-back discipline an exchange never finds the slot taken |
| FrameExchanger.GetStays | frame.c:322-369 | the slave gets a frame if and only if one was given for its slot and was not NULL |
| FrameExchanger.DeliverStays | frame.c:371-394 | a delivery never overwrites a slot that holds a frame |
| FrameExchanger.TakeFrameStays | frame.c:187-212 | the master reads the next frame delivered |
| FrameExchanger.ExchangerIsSafe | frame.c:187-394 | every interleaving of master and slave: read <= slave <= write <= read + slots, a pipe byte for every frame to read, frames come out in delivery order, once, and never NULL, and no exchange is refused |
| FrameExchanger.NullStopsTheSlave | frame.c:301-369 | a NULL frame given to the exchanger, as when `new_frame` fails, stops the slave for good |
| FrameHeap.Heap.NewFrame | frame.c:88-118 | a new frame fails exactly when none is free; otherwise the oldest free frame comes out with one reference |
| FrameHeap.Heap.PutBack | frame.c:174-184 | there is always an empty slot to put a frame back: the branch that finds one there is never taken |
| FrameHeap.Heap.UnrefFrame | frame.c:151-184 | a frame goes back to the heap exactly with its last reference; free, used and returning frames always add up |
| FrameHeap.Heap.DeliverToStream | stream.c:76-96 | delivery leaves exactly the references that the destinations keep |
| Base64.Unbase64 | tcp.c:347-377 | in place, the buffer becomes the decoded groups and the characters left over, and nothing is written beyond what was read |
| Base64.DecodeInPieces | tcp.c:408-415 | decoding may stop after any character and go on with what was left over |
| Base64.Connection.Receive | tcp.c:392-415 | whatever pieces arrive, the buffer is what one call on all of them would give |
| Base64.DecodeUndoesEncode | tcp.c:347-377 | decoding undoes the encoding of section 4 of RFC 4648, with any other bytes interspersed, and nothing is left over |
| Md5.MD5Context.Update | md5.c:73-115 | after any pieces the state is that of all full blocks of the message, the buffer its rest, and the two count words its length modulo 2^64 |
| Md5.CarryIsRight | md5.c:78-82 | the carry between the two count words |
| Md5.MD5Context.Final | md5.c:121-160 | the hashed blocks are those of the message padded as in sections 3.1 and 3.2 of RFC 1321 |
| Md5.PaddedIsRight | md5.c:121-160 | the padded message is the message, a byte 0x80, the fewest zeros, and its length in bits modulo 2^64, low byte first |
| Md5.DigestOfPieces | md5.c:73-160 | however a message is cut up, the digest is that of the padded message |
| SendBuffer.Connection.SendData | tcp.c:111-125 | all bytes go behind those that wait, or none when they do not fit |
| SendBuffer.Connection.ConnWrite | tcp.c:78-102 | what is written is what waited longest, in order, across the wrap of the ring, and as much of it as the calls take |
| SendBuffer.TwoCallsTakeAll | tcp.c:78-102 | a socket that takes all it is offered empties the ring in two calls |
| SendBuffer.EveryCallTakes | tcp.c:78-102 | while the socket takes something at each call, so do the bytes written grow, up to all that wait |
| Messages.SendMessage | tcp.c:127-150 | the status line, the headers in order and the length are queued as a whole behind what waits; nothing of it when it does not fit together with its body, or when the message is a request |
| Messages.DecimalSpells | tcp.c:132-142 | a number is printed as the digits that spell it, with no zero in front |
| Messages.Buffer.ParseMessage | pmsg.c:60-161 | the parser, which writes NULs into the message as it goes, finds what the specification finds in the message as it came |
| Messages.HeaderReadBack | pmsg.c:123-160 | a printed header line is read back |
| Messages.ResponseReadBack | pmsg.c:60-161 | every well-formed response that is printed is parsed back to the same protocol, code, reason and headers in order, and to its full length, if and only if it has no more than 32 headers; with more the parser writes past its last field |
| Messages.RequestReadBack | pmsg.c:60-161 | a well-formed request is parsed to its method, URI, protocol and headers in order, and to its full length, if and only if it has no more than 32 headers |
| Packetisers.H264Send | rtp-h264.c:95-134 | whenever the loop ends at all, it sends the fragments of the unit in order, up to the first failure |
| Packetisers.LoopEndsExactly | rtp-h264.c:106-132 | the index reaches the end of a unit that does not fit whole if and only if a packet takes three bytes, or the unit is its header alone |
| Packetisers.H264IsRight | rtp-h264.c:95-134 | every packet fits and all but the last are full; the receiver of section 5.8 of RFC 6184 rebuilds the unit; by their bits, the type is 28, start is only on the first fragment, end and the marker only on the last, never both |
| Packetisers.Mpeg4Send | rtp-mpeg4.c:317-350 | the loop ends although a step may send without taking a byte; the payloads are the list, each fits, all but the last are full, and only the last has the marker |

## Left out

- Compression.RangeCoderContext.Compress: buffers after the first are not empty, as lines 275-284 of compress.c take for granted.
- Context exclusion: compiled out at line 40 of compress.c.
- ReliableLink.Transfer: one channel, one direction and a fixed fragment length; the DISCONNECT_LATER state is not modelled.
- IncomingPeer.ReliableReceiver.HandleSendFragment: the fragment bitmap is a sequence of booleans rather than 32-bit words, offset plus length does not wrap at 2^32, and the buffer of a new packet, which C leaves uninitialised, is zeros.
- Retransmission.Peer.SendReliable: a full window before it, or a used one of the eight from its own on, must stop the first command of a window; whether another one may is a free choice, since the second mask at lines 1420-1421 of protocol.c shifts by a window's size. Fewer than 2^16 commands are queued, so that 16-bit counters are exact; loss statistics are dropped.
- OutgoingQueues.GivenUpExactly: a command sent at 0 of the clock is out, since the C code takes an earliest timeout of 0 for none.
- Retransmission.Peer.CheckTimeouts: giving up the peer stops there; the disconnect notification is not modelled.
- Retransmission.Peer.HoldPacket: incoming queues are lists of packets; which unreliable commands are dropped, and their order, is not modelled.
- BandwidthThrottle.Host.ThrottleOutgoing: the bytes of all peers in one round are below 2^32, so that the counter of them is exact; no connected peer carries the current time as its epoch beforehand.
- Mp2Frame.EncodeFrame: with a level off its scale the C code writes a negative number and goes on, and nothing is said about that frame; flushing a full accumulator shifts by 32 in C, with no effect on what is written.
- Mp2Frame.EncodeWholeFrame: the filter and the psychoacoustic model are not modelled, their samples and ratios are parameters; nothing is said about a frame whose search for a scale left the table.
- FrameExchanger.ExchangerIsSafe: each critical section is one step; the wait on the condition variable is a `Get` that may find nothing; a destination that delivers without a get is outside the discipline.
- FrameHeap.Heap.UnrefFrame: frames without destructor or clone.
- Base64.Connection.Receive: the request parser, which empties the buffer between requests, is not part of this model.
- Md5.MD5Context.Final: the block transform and the byte order of the host are parameters; clearing the context is left out.
- Messages.Buffer.ParseMessage: strings are the text a pointer points at; where the C code would read or write the byte after the message it refuses it just the same, and the write past the 32nd header is a result of its own.
- Messages.SendMessage: the response is shorter than the 2048-byte buffer on the stack, as the sprintf calls of tcp.c take for granted.
- Connection set-up, wire structures and byte order, unreliable and unsequenced ordering, sockets, events, devices, codecs, and the configuration scanner.
