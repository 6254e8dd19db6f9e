# Verified model of the QTV proxy and the model compiler's mesh tools

These modules model the parts of the repository whose correctness is spread over many steps, and prove
properties of every run or every input. The first 42 rows of the table under "Model" are the main results; the
other rows are the operations they are about and the steps that lead to them.

- the reliable network channels and the viewer queue on top of them (`Netchan`, `NetchanRun`, `ViewerQueue`,
  `ViewerRun`, `ViewerDrain`, `NqNetchan`, `NqRun`);
- the entity delta codec, the frame codec and the ring of 64 delta references (`Delta`, `DeltaCodec`,
  `PacketEntities`, `CutFrame`, `FrameCodec`, `DeltaRun`);
- the input stream and its two parsers, the cyclic output buffer of a downstream proxy, and the snapshot with which
  a late proxy joins (`StreamInput`, `StreamParse`, `ProxyBuffer`, `ProxyFeed`, `Snapshot`);
- the senders that page a large state through small messages, and their receivers (`Prespawn`, `PrespawnParse`,
  `NameList`);
- the conservative visibility test (`Bsp`);
- the triangle reorderer and the bone weights (`VertexOrder`, `VertexCache`, `LosingMesh`, `BlendCombo`);
- MD4, the table CRC and info strings (`Mdfour`, `Crc`, `InfoString`);
- the message buffer that the codecs rest on (`Msg`).

An operation of the source appears twice: as a function on values, which the theorems are about, and as a method that
works as the source does, on buffers, arrays and fields, and is proved equal to the function. Modules whose names end in
`Run` (and `ProxyFeed` and `StreamParse`) are state machines: a run is any sequence of steps, and the network may lose,
repeat and reorder whatever was sent.

Bytes are integers from 0 to 255. Coordinates, weights and scores are reals; the rounding of the wire format is modelled,
that of floating point is not, but scores that are not numbers are. Integer widths are explicit where the code relies on
them. Check everything with `dafny verify dfyconfig.toml`.

Where the code does not do what it is for, a lemma gives an input or a run from the start, and a theorem says exactly
when it does:

- The triangle reorderer loses triangles exactly when its cache holds a vertex at rank 33 or 34 when it is scored,
  where the score is the power 3/2 of a negative number: the vertex is never scored again and its triangles are never
  chosen. This takes at least 34 vertices; `LosingMesh` has a mesh of 37. Whether it happens can be
  computed from the mesh and the scores (`VertexOrder.OrderOf`, `VertexCache.MakeTriangles`).
- A NetQuake message of 8000 bytes or more, which its buffer of 8192 takes, ends the connection
  (`NqRun.NqReliableDelivery`, `NqRun.NqSizeLimit`).
- A reliable payload that the message buffer takes but a datagram has no room for is acknowledged and lost
  (`NetchanRun.PayloadArrivesIfItFits`).
- An entity frame that does not fit its message is stored whole by the server but arrives cut; later deltas repeat the
  error until the client asks for a full frame (`DeltaRun.CutFrameStaysWrong`, `DeltaRun.CutStaysWrong`). It is read
  right exactly if every byte that is cut is a zero (`FrameCodec.FrameInRoom`, `DeltaRun.FramesAreExact`): the one
  half for all frames, the other for frames and baselines that came off the wire themselves, as a proxy's do.
- A delta against a frame 64 packets old loses the whole frame (`DeltaRun.SixtyFourIsTooLate`).
- A proxy that joins while forwarding is late misses what was forwarded early before, and one that resynchronises
  when a packet is forwarded as it is parsed gets it twice (`ProxyFeed.LateJoinSkips`, `ProxyFeed.LateResyncRepeats`,
  `ProxyFeed.GaplessExactlyWhen`). The latter also happens after a change from late to early forwarding.
- Proxy data that arrives while forwarding is late is never parsed (`StreamParse.LateDataIsLost`).
- Paging the start-up state never ends if some player's user info is longer than 768 bytes, which its buffer of 1024
  allows (`Prespawn.PrespawnEnds`).
- Paging a name list never ends if no name after the first is empty, and the page after the last name wipes the
  receiver's first name (`NameList.ListPagingEnds`, `NameList.FullListWipesFirstName`).
- A refused change of an info string removes the old value all the same, exactly in the two cases of
  `InfoString.RefusedSetLosesKey`.
- A buffer is lost between the viewer's message and its back buffers exactly when it exceeds a back buffer
  (`ViewerRun.QueueKeepsBytes`).
- A baseline with effects, alpha, scale or a model index above 255 does not arrive, nor does that of entity 0
  (`DeltaRun.BaselinesArrive`, `PrespawnParse.MapArrives`).
- A proxy message of type 3, for several players, would carry its length where the parsers look for the player mask; no
  caller sends one (`StreamInput.MessageIsPacket`).
- The padding of MD4 is the standard one exactly below 2^29 bytes (`Mdfour.TailIsPadding`).

## Model

| member | source | states |
|---|---|---|
| NetchanRun.ReliableDelivery | fteqtv/netchan.c:603-642 | in every run each end has accepted the payloads sent in order, none twice, none skipped, with at most one outstanding, and repeats one only when it was not accepted; they are a prefix byte for byte if and only if each of them had room in a datagram |
| NetchanRun.PayloadArrivesIfItFits | fteqtv/netchan.c:638-646 | of the payloads that the message buffer of Netchan_Setup takes, one arrives if and only if a datagram has room for it; a larger one is acknowledged and lost, which the smaller buffer of fteqtv/qw.c:944 rules out for a viewer |
| NetchanRun.RecoveryCompletes | fteqtv/netchan.c:606-642 | after every run one exchange that arrives completes the pending payload: the channel never gets stuck |
| ViewerRun.EndToEndDelivery | fteqtv/qw.c:4171-4325 | bytes delivered, under way, collected and in back buffers are exactly the bytes given, in every run of a viewer that is not dropped, and no sequence number is used twice |
| ViewerRun.QueueKeepsBytes | fteqtv/parse.c:29-62 | a buffer joins the message of 1450 bytes or the end of the back buffers of 1000, or the viewer is dropped at the sixteenth, except exactly when it exceeds the back buffer that is opened for it |
| ViewerDrain.QueueDrains | fteqtv/qw.c:4171-4325 | after every run, whatever was lost before, a few round trips that arrive empty the queue: the client of a viewer that is not dropped then has accepted exactly the bytes given; three round trips, one for the message and two for each back buffer are enough |
| NqRun.NqReliableDelivery | fteqtv/netchan.c:695-773 | in every state of every execution each end that is not dropped has a prefix of the messages, byte for byte, and the sequence numbers differ by one at most; an end is dropped only for a message of 8000 bytes or more, and always once that is acknowledged |
| NqRun.NqSizeLimit | fteqtv/netchan.c:517-773 | for every message that the buffer takes there is an execution from the start, without loss, in which it is acknowledged; the receiver has dropped the connection exactly if it has 8000 bytes or more, and else has the message |
| Delta.DeltaRoundTrip | fteqtv/qw.c:1288-1419 | for all pairs of states and numbers 1 to 511 the reader recovers number, flags and quantised target, and stops where the record ends |
| Delta.RecordLayout | fteqtv/qw.c:1293-1418 | a record byte by byte, for all pairs of states: the number and the flags by their weights in the protocol, the extension bytes that are needed, and each field exactly when it differs, in the order of the protocol |
| PacketEntities.MergeRoundTrip | fteqtv/parse.c:1060-1136 | the records turn the quantised old frame into the quantised new one |
| FrameCodec.FrameInRoom | fteqtv/qw.c:1422-1489 | a frame that the message cuts gives the quantised new frame if every byte that is cut is a zero; and only if, for frames and baselines that came off the wire themselves and a message with room for the slot of the reference |
| DeltaRun.FramesAreExact | fteqtv/parse.c:993-1136 | in every run an accepted frame is exactly the quantised frame that was sent, if nothing but zeros of the answer is cut and it has no reference, or its reference is exact and at most 64 packets were sent since, whatever went wrong before; on an exact reference it is so only then, for frames and baselines that came off the wire |
| DeltaRun.ErrorsNeverAccumulate | fteqtv/parse.c:993-1136 | while answers are whole and in time, the frame accepted last is exact |
| DeltaRun.BaselinesArrive | fteqtv/qw.c:507-542 | the client has the quantised baselines if and only if each has a model index of one byte and no effects, alpha or scale |
| DeltaRun.SixtyFourIsTooLate | fteqtv/source.c:2070-2083 | in a run from the start, the frame after 64 packets without an answer arrives empty although the world is unchanged |
| DeltaRun.CutFrameStaysWrong | fteqtv/qw.c:4194-4210 | in a run from the start, a frame of which the message cuts the last entity stays without it, although the next answer is whole and in time |
| DeltaRun.CutStaysWrong | fteqtv/qw.c:4194-4210 | in a run from the start, every frame of which a byte that is not zero is cut is wrong, and stays so after the next answer unless nothing of it arrived |
| StreamInput.ForwardedExactlyOnce | fteqtv/source.c:2314-2448 | over every interleaving each whole packet is handed on exactly once and in order, before its bytes are destroyed |
| StreamParse.ParsedOnce | fteqtv/source.c:1078-1081 | in every run no packet is parsed twice, and none of types 0, 2 and 7 at all; a destroyed one of types 1, 3, 4, 5 and 6 was parsed exactly once, except proxy data (type 6 with a bit above the type) that was not forwarded before it was due, which never is unless a demo is played |
| StreamParse.EarlyParsesAll | fteqtv/source.c:1078-1144 | without late forwarding every destroyed packet of a type that is parsed at all was parsed exactly once, whatever the sizes of the reads |
| StreamParse.LateDataIsLost | fteqtv/source.c:2405-2420 | under late forwarding a packet of proxy data is destroyed without having been parsed |
| ProxyBuffer.ProxyRefinesQueue | fteqtv/forward.c:178-383 | what was accepted is what was sent and what is pending, whatever the socket takes, and the counters never wrap |
| ProxyFeed.GaplessExactlyWhen | fteqtv/forward.c:573-689 | in every run, with the setting changed at will, a connection that does not lag has the snapshot of what had been parsed and every later byte once if and only if it was last synchronised by a read, or at its join under early forwarding or with no byte ahead of the parser |
| ProxyFeed.SnapshotThenStream | fteqtv/forward.c:510-584 | in every run with early forwarding it has the snapshot of what had been parsed and then every byte from the first packet that was not due on, with no gap and no repeat |
| ProxyFeed.RoomForAll | fteqtv/forward.c:510-701 | in every run a connection whose socket does not fail never lags and is never dropped, however slow it is, as long as greeting, snapshot and stream fit its buffer of 2^17 bytes |
| Snapshot.JoinedProxyHasState | fteqtv/forward.c:510-584 | in every run with early forwarding a connection that does not lag has a stream of well-formed packets, of which the first, beginning with the server data, bring its receiver exactly the lists, map, entities and other messages that had been parsed, proxy data included, whatever it held before, and the others are the stream from there on |
| ProxyFeed.LateJoinSkips | fteqtv/forward.c:573-574 | in a run from the start, a connection that joins under late forwarding never gets what was forwarded before |
| ProxyFeed.LateResyncRepeats | fteqtv/forward.c:652-689 | in a run from the start, a connection that resynchronises when a packet is forwarded as it is parsed gets the packet twice |
| Prespawn.PrespawnEnds | fteqtv/forward.c:545-551 | for a server state: if and only if no user info or light style exceeds 768 bytes, and then the pages are one pass over everything |
| PrespawnParse.MapArrives | fteqtv/forward.c:545-551 | when the loop has ended the receiver has every player, light style, static sound and static entity, and every baseline in use except that of entity 0, as the wire carries them: frags and ping in 16 bits, a model index of one byte, no effects, alpha or scale; a player is unchanged if and only if its numbers fit |
| NameList.ListIsRebuilt | fteqtv/qw.c:606-632 | all pages in turn rebuild the list exactly, in spite of overlap and interim terminators |
| NameList.ListPagingEnds | fteqtv/forward.c:529-541 | the loop ends if and only if a name after the first is empty |
| Bsp.CullingIsConservative | fteqtv/bsp.c:373-477 | if an entity is found invisible after the buffer was set up for the position of a viewer, no point within its radius lies in a leaf that is marked by the row which the visibility lump has at the offset of the viewer's own leaf |
| VertexCache.MakeTriangles | iqm/iqm.cpp:924-1005 | the triangles come out in the order that the mesh and the scores determine, each at most once with its corners in order; with the scores of the source all that are not degenerate do if and only if in that order the cache never holds more than 33 vertices when it is scored, so always up to 33 vertices; what is left over had no score above the floor |
| LosingMesh.LoseTriangles | iqm/iqm.cpp:924-1005 | with the scores of the source the optimiser emits fewer triangles than that mesh has, although none is degenerate |
| BlendCombo.KeepsFourLargest | iqm/iqm.cpp:209-228 | over every sequence of additions the weights kept are the first four of all accepted weights in descending order |
| BlendCombo.Combo.Serialize | iqm/iqm.cpp:240-253 | the bytes sum to exactly 255, each within 3/2 of its share, and zero weights stay zero; both correction loops end |
| Mdfour.Checksum | fteqtv/mdfour.c:214-229 | the digest for every message, the one of section 3.5 of RFC 1320 below 2^29 bytes, and for the empty message the one of section A.5 |
| Crc.ChecksumIsDivision | fteqtv/crc.c:84-94 | for every byte string the table gives the remainder of the bitwise division |
| InfoString.LookupAfterSet | fteqtv/rcon.c:174-237 | lookup after a set, for every key and value: a string is left untouched when the key or the value has a backslash, a quote or 64 characters, or it would be too long; otherwise the new value is found and other keys are unchanged, an empty value deletes, and control characters are left out |
| InfoString.RefusedSetLosesKey | fteqtv/rcon.c:200-223 | a refused set has removed the old value exactly when that is empty and the new one does not fit, or when the key leads without a backslash and one is missing |
| Msg.ShortRoundTrip | fteqtv/msg.c:20-27 | a 16-bit value read after it was written is the value, and nothing else is consumed |
| Msg.LongRoundTrip | fteqtv/msg.c:28-35 | the same for 32 bits |
| Msg.UpToNulRoundTrip | fteqtv/msg.c:77-93 | a string without zeros is read back up to its terminator |
| Msg.NetMsg.constructor | fteqtv/msg.c:3-9 | an empty message over the whole of its buffer |
| Msg.NetMsg.WriteByte | fteqtv/msg.c:109-114 | the contents grow by the byte, or stay when the buffer is full |
| Msg.NetMsg.WriteShort | fteqtv/msg.c:115-119 | the low byte first, cut at the end of the buffer |
| Msg.NetMsg.WriteLong | fteqtv/msg.c:120-126 | four bytes, the lowest first, cut at the end of the buffer |
| Msg.NetMsg.WriteString2 | fteqtv/msg.c:151-155 | the characters without a terminator |
| Msg.NetMsg.WriteString | fteqtv/msg.c:156-161 | the characters and a terminator |
| Msg.NetMsg.WriteData | fteqtv/msg.c:162-173 | a block is appended whole or not at all |
| Msg.NetMsg.ReadByte | fteqtv/msg.c:11-19 | the next unread byte; zero, and the read position beyond the end, when there is none |
| Msg.NetMsg.ReadShort | fteqtv/msg.c:20-27 | what the reading function yields, and what is left unread |
| Msg.NetMsg.ReadLong | fteqtv/msg.c:28-35 | the same for 32 bits |
| Netchan.WireRoundTrip | fteqtv/netchan.c:620-646 | the receiver recovers both sequence words with their flags, the acknowledgements and the payload from the bytes |
| Netchan.DatagramArrives | fteqtv/netchan.c:603-646 | what the receiver reads of a datagram: the sequence numbers and flags, the block under way or collected if one is sent and has room, and all of the unreliable data if it has room after that, as it always does for a viewer |
| Netchan.NetChan.constructor | fteqtv/netchan.c:445-461 | a channel that has sent and received nothing |
| Netchan.NetChan.LoadMessage | fteqtv/netchan.c:610-618 | collected data moves to an empty reliable buffer and the parity flips |
| Netchan.NetChan.Datagram | fteqtv/netchan.c:620-646 | the bytes of the datagram, with blocks that do not fit left out |
| Netchan.NetChan.Transmit | fteqtv/netchan.c:594-673 | bytes and new state are those of the protocol step; an overflowed message drops the connection and sends nothing |
| Netchan.NetChan.ReadHeader | fteqtv/netchan.c:792-806 | the header fields as the parsing function reads them |
| Netchan.NetChan.Process | fteqtv/netchan.c:787-877 | stale and duplicate packets and foreign ports change nothing; others update the state as the protocol step, and the payload is what is left unread |
| NetchanRun.ResendIsSafe | fteqtv/netchan.c:603-608 | when the sender decides to repeat a payload, the receiver has not accepted it and no copy on the wire can still be accepted |
| NetchanRun.SenderSends | fteqtv/netchan.c:603-642 | sending keeps the agreement of the two ends |
| NetchanRun.ReceiverSends | fteqtv/netchan.c:603-642 | an answer of the receiver keeps it too |
| NetchanRun.ReceiverReceives | fteqtv/netchan.c:820-862 | so does accepting any datagram that was ever sent |
| NetchanRun.SenderReceives | fteqtv/netchan.c:848-862 | so does any acknowledgement, however late; the buffer is cleared only after acceptance |
| NetchanRun.ActKeepsInv | fteqtv/netchan.c:509-673 | every action of either end keeps the invariant |
| NetchanRun.RunKeepsInv | fteqtv/netchan.c:787-877 | so does every run, with loss, duplication and reordering |
| NetchanRun.BytesActLikePackets | fteqtv/netchan.c:792-862 | a receiver acts on the bytes of a datagram as on the packet they stand for |
| ViewerQueue.ViewerConn.constructor | fteqtv/parse.c:29-62 | an empty queue on a fresh channel |
| ViewerQueue.ViewerConn.SendBuffer | fteqtv/parse.c:29-62 | the new message, back buffers and drop flag are those of the queue function, for every size of buffer |
| ViewerQueue.ViewerConn.WriteNotice | fteqtv/parse.c:29-62 | the overflow notice replaces the contents of the message |
| ViewerQueue.ViewerConn.ShiftBuffers | fteqtv/qw.c:4223-4240 | the oldest back buffer becomes the message and the others move down by one |
| ViewerQueue.ViewerConn.SendPackets | fteqtv/qw.c:4171-4241 | the packet that leaves, and the queue afterwards |
| ViewerQueue.ViewerConn.ProcessPacket | fteqtv/qw.c:4302-4325 | an accepted packet resets the outgoing sequence number and allows at most one packet |
| ViewerQueue.AcceptPermits | fteqtv/qw.c:4315-4325 | an accepted packet lets the viewer have one answer, with the number of that packet, unless answers are choked and it has had one |
| ViewerRun.ShiftKeepsBytes | fteqtv/qw.c:4223-4240 | moving the back buffers changes nothing in the bytes that are queued |
| ViewerRun.GiveIsSound | fteqtv/parse.c:29-62 | queueing keeps the conservation of bytes and the channel invariant |
| ViewerRun.PollIsSound | fteqtv/qw.c:4171-4241 | so does a transmission |
| ViewerRun.AcceptIsSound | fteqtv/qw.c:4302-4325 | so does the reset of the sequence number after an accepted packet |
| ViewerRun.EventsAreSound | fteqtv/qw.c:4152-4325 | so does every run |
| ViewerDrain.RoundProgress | fteqtv/qw.c:4171-4325 | a round trip that arrives: what was accepted stays so, the queue gets shorter once the sender knows what was accepted, and otherwise it repeats what was lost as soon as its acknowledgement is late |
| ViewerDrain.DatagramIsWhole | fteqtv/netchan.c:638-646 | in every run the body of a datagram for a viewer is the block that is sent, if any, and then all of the unreliable data |
| NqNetchan.NqWireRoundTrip | fteqtv/netchan.c:533-576 | every packet is recovered from its bytes |
| NqNetchan.NqDatagramsArrive | fteqtv/netchan.c:517-584 | what the receiver reads of a transmission: the next 1024 bytes at most of the message under way, marked at its end, and the unreliable data whole in a datagram of its own |
| NqNetchan.NqNetChan.constructor | fteqtv/netchan.c:445-461 | a channel that has sent and received nothing |
| NqNetchan.NqNetChan.Datagram | fteqtv/netchan.c:536-552 | the datagram, with its length in the header |
| NqNetchan.NqNetChan.LoadMessage | fteqtv/netchan.c:525-531 | the collected message becomes the one under way |
| NqNetchan.NqNetChan.Transmit | fteqtv/netchan.c:517-587 | the datagrams and the new state are those of the protocol step |
| NqNetchan.NqNetChan.HandleAck | fteqtv/netchan.c:695-716 | only the acknowledgement of the fragment under way moves on |
| NqNetchan.NqNetChan.HandleData | fteqtv/netchan.c:739-773 | the expected fragment joins the message, the last one completes it, and one too many drops the connection |
| NqNetchan.NqNetChan.Process | fteqtv/netchan.c:678-776 | reply, payload and new state for every datagram, also for malformed ones |
| NqRun.NqSenderSends | fteqtv/netchan.c:525-553 | sending keeps the agreement of the two ends |
| NqRun.NqReceiverReceives | fteqtv/netchan.c:748-768 | so does every fragment, expected or repeated |
| NqRun.NqSenderReceives | fteqtv/netchan.c:695-716 | so does every acknowledgement, current or stale |
| NqRun.NqActKeepsInv | fteqtv/netchan.c:517-776 | every action keeps the invariant |
| NqRun.NqExecutionKeepsInv | fteqtv/netchan.c:517-776 | so does every execution |
| NqRun.NqRoundTripAdvances | fteqtv/netchan.c:695-709 | a round trip that arrives advances to the next fragment or message |
| Delta.CoordRoundTrip | fteqtv/msg.c:137-143 | a coordinate is read as its quantised value |
| Delta.AngleRoundTrip | fteqtv/msg.c:144-150 | an angle is read as its quantised value |
| Delta.CoordError | fteqtv/msg.c:137-143 | within 16 bits quantising moves a coordinate by less than an eighth |
| Delta.QuantiseKeeps | fteqtv/msg.c:137-150 | what a state loses on the wire: nothing but the rounding of coordinates, by less than an eighth, and of angles, by less than a step of 1/256 or 1/65536 of a turn between zero and a whole turn, and less than one and a half otherwise |
| Delta.AngleError | fteqtv/msg.c:144-150 | up to whole turns an angle moves by less than a step with 16 bits and by 0.51 of one at most with 8, or 1.49 below zero, where the conversion rounds up |
| Delta.CoordIdempotent | fteqtv/msg.c:94-143 | a quantised coordinate is a fixed point; of a float exactly if its bits are the same number after they were read and written again |
| Delta.AngleIdempotent | fteqtv/msg.c:101-107 | a quantised angle is a fixed point |
| Delta.QuantiseIdempotent | fteqtv/msg.c:94-150 | a state that was relayed once changes no further, in either format of coordinates |
| Delta.HeaderRoundTrip | fteqtv/parse.c:841-873 | the entity number, of up to eleven bits, and the full flag word are recovered over up to three extension bytes, and exactly the header is consumed |
| Delta.FieldRoundTrip | fteqtv/parse.c:875-946 | reading one field sets it to the quantised target and leaves the others alone |
| Delta.PresentIffDifferent | fteqtv/qw.c:1293-1385 | a field is sent exactly when it differs |
| Delta.FieldsRoundTrip | fteqtv/parse.c:875-946 | all fields sent hold the quantised target, the others are kept |
| Delta.IgnoredSkipped | fteqtv/parse.c:905-940 | fields that the reader does not keep change nothing and take the bytes that the protocol gives them |
| DeltaCodec.WriteCoord | fteqtv/msg.c:137-143 | appends the coordinate |
| DeltaCodec.WriteAngle | fteqtv/msg.c:144-150 | appends the angle |
| DeltaCodec.ReadCoord | fteqtv/msg.c:94-100 | reads a coordinate |
| DeltaCodec.ReadAngle | fteqtv/msg.c:101-107 | reads an angle |
| DeltaCodec.WriteHeader | fteqtv/qw.c:1347-1356 | number and flags in the first two bytes, then each extension byte that is announced, as far as they fit |
| DeltaCodec.WriteDelta | fteqtv/qw.c:1288-1419 | appends the record as far as it fits |
| DeltaCodec.WriteEntityState | fteqtv/qw.c:507-519 | the record of a baseline is appended as far as it fits |
| DeltaCodec.ParseExtensions | fteqtv/parse.c:841-873 | reads the extension bytes that are announced |
| DeltaCodec.ParseHeader | fteqtv/parse.c:841-873 | number, flags and what is left unread are those of the reading function |
| DeltaCodec.ParseDelta | fteqtv/parse.c:875-946 | the state and what is left unread are those of the reading function |
| DeltaCodec.BaselineRoundTrip | fteqtv/qw.c:507-519 | a baseline arrives as its quantised value if and only if its model index fits a byte and it has no effects, alpha or scale |
| PacketEntities.RemoveRoundTrip | fteqtv/qw.c:1422-1489 | a removal is read back as one |
| PacketEntities.UnchangedIsEmpty | fteqtv/qw.c:1422-1489 | entities that have not changed cost nothing |
| PacketEntities.FromBaseline | fteqtv/qw.c:1463-1478 | a new entity travels as its difference to the baseline of its number: one that is as its baseline is sent as its number alone, and read as the baseline |
| FrameCodec.FrameRoundTrip | fteqtv/qw.c:1422-1489 | with the quantised reference and baselines the parser ends with exactly the quantised new frame |
| CutFrame.CutBreaks | fteqtv/parse.c:1044-1136 | records of which a byte that is not zero is cut never give the new frame |
| CutFrame.AlikeEnts | fteqtv/msg.c:11-19 | records that differ in zeros at the end give the same frame |
| CutFrame.RecordCut | fteqtv/parse.c:841-946 | a record that is cut after its number at a byte that is not zero gives another state |
| CutFrame.HeaderCut | fteqtv/parse.c:841-873 | a record that is cut within its flag bytes gives another state |
| CutFrame.OneByteDiffers | fteqtv/parse.c:841-873 | half an entity number never gives the new frame, whichever entity it stands for |
| FrameCodec.InitialIsFullFrame | fteqtv/qw.c:1491-1503 | the snapshot is a frame without reference |
| FrameCodec.InitialRoundTrip | fteqtv/qw.c:1491-1503 | parsed onto an empty frame it gives the current frame |
| FrameCodec.EmitRecords | fteqtv/qw.c:1440-1486 | the loop appends the records of the merge |
| FrameCodec.EmitPacketEntities | fteqtv/qw.c:1422-1489 | appends the bytes of the frame as far as they fit, for every pair of frames |
| FrameCodec.SendInitialEnts | fteqtv/qw.c:1491-1503 | appends the bytes of the snapshot |
| FrameCodec.FrameBuf.constructor | fteqtv/parse.c:959-991 | a frame without entities |
| FrameCodec.FrameBuf.Expand | fteqtv/parse.c:959-991 | there is room for the entity, and what was stored is kept |
| FrameCodec.FrameBuf.Put | fteqtv/parse.c:1111-1115 | one entity is stored and the others are kept |
| FrameCodec.CopyRemaining | fteqtv/parse.c:1067-1077 | the rest of the old frame is carried over |
| FrameCodec.CopyBefore | fteqtv/parse.c:1085-1100 | the old entities before the record are carried over |
| FrameCodec.TakeRecord | fteqtv/parse.c:1081-1132 | one record has the effect of one step of the merge |
| FrameCodec.ParsePacketEntities | fteqtv/parse.c:1044-1136 | the new frame and what is left unread are those of the parsing function |
| DeltaRun.ClientSendsSound | fteqtv/source.c:2070-2085 | a request of the client keeps the invariant of both rings |
| DeltaRun.ServerReceivesSound | fteqtv/qw.c:4302-4325 | so does its arrival |
| DeltaRun.ServerSendsSound | fteqtv/qw.c:4195-4210 | so does an answer, in a message of 1450 bytes of which some are taken |
| DeltaRun.ReconstructsFrame | fteqtv/parse.c:1023-1136 | a whole answer on an exact reference that is still held yields the frame that was meant |
| DeltaRun.ClientReceivesSound | fteqtv/parse.c:1023-1136 | accepting an answer keeps the invariant |
| DeltaRun.RunSound | fteqtv/parse.c:993-1136 | so does every run |
| DeltaRun.LateDeltaOnNothing | fteqtv/source.c:2070-2083 | the records of a delta that is too late are applied to an empty frame |
| DeltaRun.LateAnswerRefills | fteqtv/source.c:2070-2083 | in a run from the start, a request asks for a delta against a frame more than 64 packets old |
| ProxyBuffer.FlushSound | fteqtv/forward.c:178-229 | a flush takes a prefix of the queue, and the counters stay below twice the size of the buffer |
| ProxyBuffer.FlushTakes | fteqtv/forward.c:178-229 | what a flush does with each answer of the socket: it removes the bytes that were taken, as many as were offered up to the end of the buffer, or waits, or drops the connection |
| ProxyBuffer.FlushesDrain | fteqtv/forward.c:178-229 | a socket that takes something at every flush empties the queue |
| ProxyBuffer.QueuedIfRoom | fteqtv/forward.c:315-334 | data is queued if it fits 2^17 bytes with what is pending, at once or after a flush, and else the connection starts to lag |
| ProxyBuffer.SendAllOrNothing | fteqtv/forward.c:315-334 | a raw send queues all of the data or none |
| ProxyBuffer.MessageAllOrNothing | fteqtv/forward.c:358-383 | a message is queued with its header and its body or not at all |
| ProxyBuffer.EventsSound | fteqtv/forward.c:178-383 | this holds over every sequence of operations |
| ProxyBuffer.OProxy.constructor | fteqtv/forward.c:178-229 | an empty cyclic buffer |
| ProxyBuffer.OProxy.Normalise | fteqtv/forward.c:178-229 | the queue is the same after the position is brought back into the buffer |
| ProxyBuffer.OProxy.Write | fteqtv/forward.c:178-229 | one write offers the queue up to the end of the buffer and removes what is taken |
| ProxyBuffer.OProxy.TryFlush | fteqtv/forward.c:178-229 | the new queue, position and drop flag are those of the flush function |
| ProxyBuffer.OProxy.Append | fteqtv/forward.c:315-334 | the data joins the queue across the end of the cyclic buffer |
| ProxyBuffer.OProxy.ProxySend | fteqtv/forward.c:236-356 | the new state is that of the send function, including the refusal of data that does not fit |
| ProxyBuffer.OProxy.SendMessage | fteqtv/forward.c:358-383 | the new state is that of the message function |
| StreamInput.WholePacketFound | fteqtv/source.c:1037-1088 | both parsers find a whole packet, whatever follows it |
| StreamInput.TruncatedPacketWaits | fteqtv/source.c:2316-2395 | neither takes a truncated packet for a whole one |
| StreamInput.MessageIsPacket | fteqtv/forward.c:358-383 | what Prox_SendMessage makes of a message of at most 8192 bytes is a packet to its own parsers, except exactly for type 2, and for type 3 unless the player mask is the same number as the length, as the two stand in the wrong order |
| StreamInput.WellFormedExactly | fteqtv/source.c:1041-1077 | the packets that both parsers take: ten bytes for type 2, and otherwise a header of six bytes, or ten for type 3, and at most 8192 bytes of message |
| StreamInput.OversizedIsRefused | fteqtv/source.c:2367-2385 | a packet with more than 8192 bytes empties the buffer |
| StreamInput.WholeIsComplete | fteqtv/source.c:1037-1088 | the early parser stops at the last boundary that has arrived |
| StreamInput.EarlyReading | fteqtv/source.c:1134-1147 | one early reading hands on the packets up to that boundary |
| StreamInput.RunFindsPacket | fteqtv/source.c:2329-2395 | the late parser finds exactly the packet at its boundary |
| StreamInput.ReadOnTrack | fteqtv/source.c:1090-1177 | a read of any size keeps the forward point on a common boundary within the buffer |
| StreamInput.ParseOnTrack | fteqtv/source.c:2432-2448 | so does a parsed packet, which is handed on before it is destroyed |
| StreamInput.StreamBuf.constructor | fteqtv/source.c:1090-1177 | an empty input buffer |
| StreamInput.StreamBuf.EarlyPacket | fteqtv/source.c:1040-1076 | the size of the packet at the front, or 0, as the framing says |
| StreamInput.StreamBuf.EarlyParse | fteqtv/source.c:1037-1088 | how many bytes of whole packets there are from the given place on, and the packets of proxy data among them |
| StreamInput.StreamBuf.Receive | fteqtv/source.c:1090-1133 | the bytes that arrived are appended |
| StreamInput.StreamBuf.ReadStream | fteqtv/source.c:1134-1147 | buffer, forward point, the block that is handed on and the packets that are parsed at once are those of the read function |
| StreamInput.StreamBuf.Discard | fteqtv/source.c:2445-2447 | the packet leaves the buffer and the rest moves down |
| StreamInput.StreamBuf.PacketDue | fteqtv/source.c:2316-2395 | the packet due, incomplete or oversized, as the framing says |
| StreamInput.StreamBuf.RunPacket | fteqtv/source.c:2327-2448 | buffer, forward point and block are those of the parse function, also for incomplete and oversized packets and ones forwarded in part; and whether the packet is parsed |
| StreamParse.UrgentOfBlock | fteqtv/source.c:1078-1085 | the packets parsed early are those of proxy data in the block that is handed on |
| ProxyFeed.AllOrLagged | fteqtv/forward.c:652-689 | a connection that does not lag has been given every byte |
| ProxyFeed.ConnectionComplete | fteqtv/forward.c:510-584 | a connection that joins without lag has the snapshot and the unparsed part of the stream |
| ProxyFeed.ForwardComplete | fteqtv/forward.c:652-689 | a forwarded block reaches every connection that does not lag, after a whole snapshot if it resynchronised |
| ProxyFeed.ForwardWilling | fteqtv/forward.c:652-689 | a block for which there is room is forwarded, and a connection that lags with an empty queue is cured by a snapshot for which there is room |
| ProxyFeed.ArriveFollowed | fteqtv/source.c:1139-1146 | after a read a connection that does not lag has its snapshot and the stream from a known packet on |
| ProxyFeed.ParseFollowed | fteqtv/source.c:2432-2448 | so it has after a packet that is forwarded as it is parsed |
| ProxyFeed.JoinFollowed | fteqtv/forward.c:510-584 | so it has when it joins, under either setting |
| ProxyFeed.NextFollowed | fteqtv/forward.c:632-701 | so it has after every event |
| ProxyFeed.FeedIsParsing | fteqtv/source.c:1078-1144 | the stream is read and parsed as it is without the connection |
| Snapshot.SnapshotArrives | fteqtv/forward.c:510-561 | whoever reads the messages of a snapshot, whatever it held before, ends up with the lists, the start-up state and the entities it was taken of and nothing else, and has been given the server data, the players and the command for the skins, in this order |
| Snapshot.SnapshotIsPackets | fteqtv/forward.c:358-383 | the bytes of a snapshot are the packets of its messages |
| Snapshot.ListRead | fteqtv/forward.c:529-541 | after any number of turns the receiver has the names up to the cursor |
| Snapshot.PagesRead | fteqtv/forward.c:545-551 | after any number of pages it has the entries before the cursor |
| Snapshot.SendListPages | fteqtv/forward.c:529-541 | the loop sends the pages of a list, one message each, and ends |
| Snapshot.SendStatePages | fteqtv/forward.c:545-551 | the loop sends the pages of the start-up state, one message each, and ends |
| Snapshot.SendConnection | fteqtv/forward.c:510-584 | the connection has been sent the messages of the snapshot, built page by page, and then the part of the stream that is not due; nothing happens before a map is loaded; what the messages bring is `SnapshotArrives` |
| Snapshot.ForwardTo | fteqtv/forward.c:652-689 | one connection is in the state of the forwarding function, with the snapshot built if it needs one |
| Snapshot.ForwardStream | fteqtv/forward.c:632-701 | dropped connections leave the list and each of the others is served once |
| Prespawn.StopSplits | fteqtv/qw.c:2386-2420 | a page is filled section by section, each where the one before stopped |
| Prespawn.PagesAreOnePass | fteqtv/qw.c:2386-2420 | after any number of pages exactly the entries before the cursor were sent, once and in order |
| Prespawn.PagingEnds | fteqtv/forward.c:545-551 | the loop ends if and only if every entry fits an empty page |
| Prespawn.NeverStopsAtSkipped | fteqtv/qw.c:425-506 | no page ends at the entry that is only stepped over |
| Prespawn.EverythingFits | fteqtv/forward.c:510-551 | the state of a server fits the message buffer of the caller |
| Prespawn.SendSection | fteqtv/qw.c:520-542 | sends entries from the cursor on until one does not fit |
| Prespawn.SendEntry | fteqtv/qw.c:425-604 | one entry is written, field by field, if it passes the check of its sender |
| Prespawn.Send | fteqtv/qw.c:520-604 | a sender does nothing outside its own section of the cursor |
| Prespawn.SendCurrentUserinfos | fteqtv/qw.c:425-506 | sends the players from the cursor on and steps over one entry at the end |
| Prespawn.Prespawn | fteqtv/qw.c:2386-2420 | sends exactly the page that starts at the cursor, and returns the next cursor or -1 |
| PrespawnParse.EntryParsed | fteqtv/parse.c:1206-1366 | the parser takes one entry into the state that the sender meant, and leaves what follows |
| PrespawnParse.EntityArrives | fteqtv/parse.c:656-669 | a baseline or static entity arrives with its frame, colour map, skin and place; its model index if that fits a byte |
| PrespawnParse.SoundArrives | fteqtv/parse.c:671-700 | each static sound in use arrives in its turn, with its index, volume, attenuation and place |
| PrespawnParse.StaticArrives | fteqtv/parse.c:1211-1226 | so does each static entity |
| PrespawnParse.PagesParsed | fteqtv/parse.c:1700-2051 | after any number of pages the receiver has exactly the entries before the cursor |
| NameList.NamesRoundTrip | fteqtv/parse.c:636-654 | what the parser makes of a page: the names sent, an interim terminator at most, and the index at which the page ends |
| NameList.PageRoundTrip | fteqtv/forward.c:529-541 | one turn of the loop makes strict progress or finishes, and the receiver has what was sent |
| NameList.FullListWipesFirstName | fteqtv/parse.c:636-654 | the page that follows a full list wipes the first name |
| NameList.SendNames | fteqtv/qw.c:606-632 | appends the names of the page and returns the cursor |
| NameList.SendList | fteqtv/qw.c:606-632 | the whole page with its command byte and first index |
| NameList.ReadString | fteqtv/msg.c:77-93 | the string cut to its destination; the rest of it is skipped |
| NameList.ParseList | fteqtv/parse.c:636-654 | the list, the next index and what is left unread are those of the parsing function |
| Bsp.SideMovesLittle | fteqtv/bsp.c:384-391 | within the radius the side of a plane changes by the radius at most |
| Bsp.LeafIsTouched | fteqtv/bsp.c:373-415 | the leaf of every point of the sphere is touched, unless it is leaf 0 |
| Bsp.SidesSearched | fteqtv/bsp.c:373-415 | nothing is searched in vain: a side of a plane exactly when the sphere has a point there |
| Bsp.SideIsHeight | fteqtv/bsp.c:445-447 | the side of a plane is the height above it, and points above it lie in its front child |
| Bsp.AxialSides | fteqtv/bsp.c:445-447 | on planes across the axes it is the coordinate |
| Bsp.ExpandedLength | fteqtv/bsp.c:95-121 | expansion yields the bytes asked for and at most 254 more |
| Bsp.RowRoundTrip | fteqtv/bsp.c:95-121 | a coded row expands to the bits it stands for, whatever follows |
| Bsp.RowInLump | fteqtv/bsp.c:469-477 | so does a row at an offset of the lump |
| Bsp.BitOfRow | fteqtv/bsp.c:463-464 | the bit of a leaf is the one at its place, counted from the lowest bit of the first byte |
| Bsp.VisibleExactlyWhen | fteqtv/bsp.c:452-467 | an entity is culled exactly when its leaves fitted the list and none is marked; -1 stands for more leaves than fit |
| Bsp.BspModel.SphereLeafNumsFrom | fteqtv/bsp.c:373-415 | result and list are those of the leaves touched, also when they do not fit |
| Bsp.SphereLeafNums | fteqtv/bsp.c:424-431 | the same from the root; nothing is listed without a map |
| Bsp.LeafNum | fteqtv/bsp.c:433-450 | the leaf of the point, where a point on a plane lies behind it |
| Bsp.DecompressVis | fteqtv/bsp.c:95-121 | the buffer starts with the expansion and is otherwise unchanged |
| Bsp.SetupForPosition | fteqtv/bsp.c:469-477 | the buffer starts with the row that the lump has at the offset of the viewer's leaf, one bit for each leaf, and is unchanged behind what was written |
| Bsp.TestVisible | fteqtv/bsp.c:452-467 | true without a map, for a negative count, and when some listed bit is set |
| Bsp.ShownPlayers | fteqtv/qw.c:2083-2133 | the viewer's own player and the tracked one are shown, others when they are active and visible from where the viewer is |
| VertexCache.RemoveUse | iqm/iqm.cpp:914-921 | the triangle leaves the use list, the last one takes its place, and no other leaves |
| VertexCache.Optimiser.constructor | iqm/iqm.cpp:926-948 | degenerate triangles count as used, and every use list is exactly the unused triangles at its vertex |
| VertexCache.Optimiser.FirstBest | iqm/iqm.cpp:949-958 | all scores are set and the first of the best triangles is chosen |
| VertexCache.Optimiser.AddVertex | iqm/iqm.cpp:968 | the vertex joins the map unless it has a number |
| VertexCache.Optimiser.MoveToFront | iqm/iqm.cpp:971-975 | the vertex heads the cache, or leaves it without uses |
| VertexCache.Optimiser.EmitCorner | iqm/iqm.cpp:965-976 | one corner of the triangle: number, use list and cache |
| VertexCache.Optimiser.EmitTriangle | iqm/iqm.cpp:963-976 | one triangle with its three corners in order; all invariants hold again |
| VertexCache.Optimiser.Rescore | iqm/iqm.cpp:977-982 | each vertex in the cache has its place as rank, and its score |
| VertexCache.Optimiser.PickFromCache | iqm/iqm.cpp:983-993 | the first of the best triangles at the vertices of the cache |
| VertexCache.Optimiser.Trim | iqm/iqm.cpp:994 | the cache keeps its first 32 vertices, and the others have no rank |
| VertexCache.Optimiser.PickAny | iqm/iqm.cpp:995-999 | the first of the best of all unused triangles |
| VertexCache.Optimiser.PickNext | iqm/iqm.cpp:983-999 | the next triangle is an unused one, or none has a score above the floor |
| VertexCache.NextIs | iqm/iqm.cpp:983-999 | the triangle picked is the first of the best in the order of the cache and the use lists, or else of all that are left |
| VertexCache.Optimiser.Step | iqm/iqm.cpp:961-1000 | one turn of the loop keeps all invariants, uses up the triangle, and tells whether triangles are lost from now on |
| VertexCache.MapIsExact | iqm/iqm.cpp:968 | the map gets each vertex of an emitted triangle once, and no other |
| VertexOrder.CalcScoreShape | iqm/iqm.cpp:903-912 | the scores are numbers up to rank 32 and none beyond |
| VertexOrder.FollowedOrder | iqm/iqm.cpp:961-1000 | an order in which each triangle is the one that the scores determine, and none is left, is the computed order |
| VertexOrder.SmallNeverOverfull | iqm/iqm.cpp:977-994 | 33 vertices cannot fill the cache too far |
| VertexOrder.CachedAreOpen | iqm/iqm.cpp:970-975 | a vertex in the cache has triangles left |
| VertexOrder.FirstMaxIsFirst | iqm/iqm.cpp:951-1001 | the triangle that is picked is the first of those that no other exceeds, among numbers above -1e16 |
| VertexOrder.ScoreIsSum | iqm/iqm.cpp:956-990 | a triangle scores the sum of its corners, and no number if one of them has none |
| VertexOrder.RemovedUse | iqm/iqm.cpp:914-921 | the last use takes the place of the one that goes |
| LosingMesh.ChainOverfull | iqm/iqm.cpp:961-999 | on a given mesh of 37 vertices the scores of the source fill the cache with 34 of them |
| BlendCombo.SortedIsSorted | iqm/iqm.cpp:209-228 | the reference order is a descending permutation |
| BlendCombo.AcceptedExactly | iqm/iqm.cpp:209-212 | exactly the weights above a thousandth count, each with the low byte of its bone |
| BlendCombo.RoundedSum | iqm/iqm.cpp:242-243 | the rounded bytes sum to 254 to 257 |
| BlendCombo.Combo.constructor | iqm/iqm.cpp:205 | no weights |
| BlendCombo.Combo.Reset | iqm/iqm.cpp:207 | no weights again |
| BlendCombo.Combo.ShiftFrom | iqm/iqm.cpp:214-218 | the weights from a place on move up by one and the fourth is lost |
| BlendCombo.Combo.PutAt | iqm/iqm.cpp:214-222 | the weight stands before the ones that follow |
| BlendCombo.Combo.AddWeight | iqm/iqm.cpp:209-228 | the weights are those of the insertion |
| BlendCombo.Combo.Finalize | iqm/iqm.cpp:230-238 | weights keep their proportion and sum to one, unused ones are zero |
| Mdfour.TailIsPadding | fteqtv/mdfour.c:165-193 | the buffer of the tail completes the padding of sections 3.1 and 3.2 of RFC 1320 exactly below 2^29 bytes, over the boundary between one and two blocks |
| Mdfour.MixBits | fteqtv/mdfour.c:71-73 | at every place F selects, G is the majority and H the parity of the three bits |
| Mdfour.PlusWraps | fteqtv/mdfour.c:80-82 | addition is that of the numbers modulo 2^32 |
| Mdfour.ShiftTurns | fteqtv/mdfour.c:74-78 | the shift multiplies by a power of two, and what is carried out of the top comes in at the bottom |
| Mdfour.WordBytes | fteqtv/mdfour.c:138-145 | a word holds the bytes of the message from its lowest eight bits up |
| Mdfour.EmptyDigest | fteqtv/mdfour.c:85-229 | the padding, the 48 steps and the output give the empty message the digest of section A.5 of RFC 1320 |
| Mdfour.FourLines | fteqtv/mdfour.c:98-123 | four lines of the unrolled rounds are four steps of the table |
| Mdfour.Md.FirstRound | fteqtv/mdfour.c:98-105 | the first sixteen lines are the first sixteen steps |
| Mdfour.Md.SecondRound | fteqtv/mdfour.c:107-114 | the next sixteen are round 2 |
| Mdfour.Md.ThirdRound | fteqtv/mdfour.c:116-123 | the last sixteen are round 3 |
| Mdfour.Md.Mdfour64 | fteqtv/mdfour.c:85-136 | one block changes the registers as section 3.4 says |
| Mdfour.Copy64 | fteqtv/mdfour.c:138-145 | the words of a block, lowest byte first |
| Mdfour.Copy4 | fteqtv/mdfour.c:147-153 | the bytes of a word, lowest first |
| Mdfour.Md.Begin | fteqtv/mdfour.c:155-162 | the initial registers of section 3.3 |
| Mdfour.Md.TailBlocks | fteqtv/mdfour.c:165-193 | the registers are hashed with the one or two blocks of the tail |
| Mdfour.Md.Update | fteqtv/mdfour.c:195-211 | the registers are hashed with the message and its tail, which below 2^29 bytes is the padded message |
| Mdfour.Result | fteqtv/mdfour.c:214-220 | the registers in order, the lowest byte of each first |
| Crc.TableIsRemainder | fteqtv/crc.c:33-67 | each of the 256 entries is the remainder of its index |
| Crc.ProcessIsDivision | fteqtv/crc.c:74-77 | a byte through the table is its eight bits through the register |
| Crc.Block | fteqtv/crc.c:84-94 | the block function is the fold of the byte function from 0xffff, and the remainder; two values are given outright |
| Crc.CheckValue | fteqtv/crc.c:84-94 | the checksum of the digits from 1 to 9 is 0x29b1, and that of nothing 0xffff |
| InfoString.ValueOfJoined | fteqtv/rcon.c:67-123 | lookup finds the value of the first pair with the key |
| InfoString.RemovedFromJoined | fteqtv/rcon.c:125-172 | removal takes out that pair and nothing else |
| InfoString.SetRefinesList | fteqtv/rcon.c:174-237 | on a well-formed string a set is the update of the list for every key and value, and the string stays within the size; without control characters the list stays well formed and distinct |
| InfoString.UpdatedIsMapUpdate | fteqtv/rcon.c:174-237 | the list behaves as a map with distinct keys; a key or value with a backslash, a quote or 64 characters changes nothing |
| InfoString.RefusedSetExample | fteqtv/rcon.c:213-223 | a string that a refused set empties |
| InfoString.InfoBuffer.ValueForKey | fteqtv/rcon.c:67-123 | the value is that of the lookup function, with the limits of its buffers |
| InfoString.InfoBuffer.MoveDown | fteqtv/rcon.c:162-166 | the characters between the two places are cut out |
| InfoString.InfoBuffer.RemoveKey | fteqtv/rcon.c:125-172 | the string is that of the removal function |
| InfoString.InfoBuffer.SetValueForStarKey | fteqtv/rcon.c:174-237 | the string is that of the set function and within the size |
| InfoString.InfoBuffer.Append | fteqtv/rcon.c:225-236 | the characters above code 13 join the end |

## Left out

- Sockets, `select`, addresses, files, clocks, rate limits and printing: what arrives, what a socket takes and when a viewer may send are inputs.
- Viewers that control the stream, whose sequence numbers are those of the upstream channel, and direct writes to `netchan.message` that bypass the viewer queue.
- Websocket framing in the senders and receivers.
- Sequence numbers from 2^31 on, where the flag bits of the header would be lost.
- The answers of the server in `DeltaRun` always carry an entity frame; player states and the client's other messages count as bytes of the message that are taken.
- LateDeltaOnNothing: speaks of requests sent at most 64 packets after their reference; a later one arises when an answer arrives after the client has reused its slot (`LateAnswerRefills`).
- Entity numbers of 512 and more, baselines outside the table, and corrupt lengths other than the oversized packet that the parser refuses, among them lengths that are negative as 32-bit integers.
- The straight-line order of the optional delta fields is a table that a loop walks through in the same order.
- Failures of `malloc`.
- The entity numbers and the entities of a frame are one array of pairs instead of two arrays.
- The back buffers of a viewer are sequences of bytes; their allocation is not modelled.
- The flush of the input by a disconnect, the times at which packets are due, and the header phase of a connection.
- JoinedProxyHasState: takes the server data and the players of the snapshot as blocks of bytes, which arrive unchanged but are not looked into, except that the server data makes the receiver forget what it held; speaks of states whose lists end, whose user infos fit a page, whose baselines the wire carries, and whose messages have at most 8192 bytes each. The source also puts the statistics of the players into a buffer at this point, but sends none of it.
- SnapshotThenStream: is about every snapshot, as a function of the packets that were parsed; `JoinedProxyHasState` is about the one that is sent.
- GaplessExactlyWhen: is about every snapshot in the same way.
- SendConnection: requires that the lists end and that user infos fit a page, without which the loops of the source do not end; is given the server data and the players as blocks of bytes.
- ForwardStream: does not read the commands that connections send.
- FrameInRoom: supposes in its second half, for the format with float coordinates, that no smaller bit pattern stands for the same number, which holds for the patterns that a finite number is converted to.
- FramesAreExact: does not say when an answer is right in spite of a cut that reaches the slot of its reference, or one on a reference that is wrong.
- The visibility list that `ParseEntityDelta` computes; the list itself is modelled in `Bsp`.
- SendSection: is one loop for the five senders, which choose what to write by the section of the entry; the field-by-field writes and checks of each are in `SendEntry`.
- The user info of the proxy's own spectator is one string, and the delta variants of baselines and static entities are left out of the parser.
- Prespawn: requires room for a page and one entry beyond it, as the source checks only afterwards; `EverythingFits` shows that the caller's buffer has it.
- SetupForPosition: requires that the viewer's leaf has a visibility row that is complete in the lump and fits the buffer, because the source checks neither.
- Maps whose nodes form a cycle have no tree, and loading of maps is not modelled.
- MakeTriangles: adds scores as reals; the rounding of `powf` and of sums is not modelled, and choices in `LosingMesh` differ by a fifth or more.
- The use lists of the vertex cache are one sequence per vertex instead of slices of a common array.
- The shifts that take a word apart into bytes in MD4 are divisions.
- The case folding, quoting and display of info strings, and strings of 1024 characters or more.
- Menus, web pages, remote console, chat, the importers of the model compiler and everything else that only formats text.
