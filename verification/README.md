# zn-tunnel: a verified model

zn-tunnel is a UDP tunnel server. Clients speak a small RPC protocol to connect, then send
encrypted IP packets, which the server translates (NAPT) and puts on a raw socket; packets
that come back are translated and sent to the client they belong to. This project models
four cores of it in Dafny and proves what they keep over all inputs and all runs.

`dafny verify dfyconfig.toml` checks everything.

## What is modelled

- **Checksums and packet edits** (`Bytes`, `OnesComplement`, `Ip4`, `Tcp`, `Rewrite`). The
  two checksum loops with their deferred carries, and the in-place edits of outbound
  packets, over real byte arrays. The reference is word-by-word ones'-complement addition
  (section 2 of RFC 1071) and the checksums of section 3.1 of RFC 791 and section 3.1 of
  RFC 9293.
- **The translation table** (`Napt`, `NaptRuns`). Two indexes over the same connections, the
  port scan, and removal by walking the ordered index.
- **The server** (`Session`, `TunnelServer`, `TunnelRuns`). The session slots, outbound and
  inbound packets, and where a returning packet is delivered while clients come and go.
- **Buffers** (`Buffer`, `BufferPool`). The window as a queue of length-prefixed records, and
  the pool of slots.
- **RPC** (`Frame`, `RpcSteps`, `Rpc`, `RpcRuns`, `RpcEffects`, `RpcLedger`,
  `RpcQuiescence`, `RpcIds`, `RpcProtocol`, `Network`, `Exchange`, `Genuine`, `Timing`,
  `AtMostOnce`). `RpcSteps` is the machine of one
  endpoint as functions on a state: control blocks by handle, both tables, and the callbacks
  registered with the I/O context, each of which the environment may fire with or without an
  error. `Rpc` is the object whose methods are those steps. The other modules prove what all
  runs keep, for one endpoint and for a network of them. Every packet ever sent may be
  delivered at any time, any number of times, or never.

Where the code changes state in place the model is a class or works on an array, and each
such method is proved against a function or an outright property.

## Where the code does not do what it seems meant to do

The model follows the code. In these places a property holds only under a condition, which
is proved to be exact, or fails for a given input.

- **Outbound source port.** `server/TunnelServer.cc:76` and `:83` store the connection's
  *client* port, not its local port, so a packet leaves under the port it came with
  (`OutboundKeepsSourcePort`, for TCP and UDP). A reply to that port comes back to the client
  exactly when the client gets its own port from the scan or holds it already, and else goes
  to whichever client holds it, or to none: `ReplyLookup` says which from the table before the
  packet, and `ReplyDelivered` what that means for the packets and the endpoints. `ReplyLost`
  is the unit test's own connection; `ReplyMisdelivered` is one whose replies go to another
  client. `FlowsNeverCross` and `FlowsReturnToOpener` are about packets that come back to the
  *local* port: they say exactly how long those reach their client.
- **Port exhaustion.** For a range that ends before 65535 the test at `napt.h:127` never sees
  that it is full: the scan ends on the last port and displaces its connection
  (`ExhaustionDisplaces`). `CreateDisplaces` and `CreateConsistent` say exactly which
  creations displace an entry and which break the agreement of the indexes
  (`BreakingCreation` does); over whole runs `FlowsNeverCross`, `RunConsistent` and
  `RunValid` say exactly what follows. At 65535 the 16-bit loop counter goes on with
  port 0. If the range starts above 0, port 0 is free, the test rejects it and there is no
  answer (`AnswersExactly`); if it starts at 0, the loop does not end (`ScanEnds`, both
  directions). `ExhaustedByCount` says when a range is full.
- **The comparison of client keys** (`napt.h:53-56`) leaves keys of different clients
  unordered, which `std::map` does not allow. `WrittenOrderSeparates` says exactly for which
  key sets it works. The client index is modelled with the lexicographic order throughout:
  its lookups and insertions tell all keys apart, and the walk of `removeClient` goes through
  them in that order.
- **`removeClient`** takes an 8-bit client number and starts behind port 0. `RemovalExact`
  says exactly when it removes what it should.
- **Freed slots.** Disconnecting leaves a client's flows in the table;
  `ReusedSlotInheritsFlows` says exactly to whom they go next.
- **Header corruption.** An error in the header-length bits changes which words are summed;
  `FirstWordChange` says exactly when it goes unnoticed. The check also lets through headers
  that end before their own checksum field; `AcceptedHeaders` covers them.
- **Odd segments.** The checksum loop pairs an odd last byte with the byte after it.
  `OddSegments` and `TcpOutboundCorrect` say exactly when the checksum is still right.
- **Second completions.** A request is completed again by a second reply, and by a send
  failure after a reply; `ExactlyOnceIffClean` and `PoolConserved` show that these are the
  only ways, for the callback and for the pool; `SecondReply` is such a run.
- **The retry count** is cut to 8 bits (`RetryCounts`). The run theorems are for 2 to 127.
- **Empty records** are never consumed (`EmptyRecordBlocks`), and a record that would fill
  the slot exactly is refused (`Buffer.WriteBuffer`).
- **The header check** is made before the packet is decrypted; `ProcessTransmit` keeps that.

## Model

| member | source | states |
|---|---|---|
| OnesComplement.DeferredCarries | libtun/include/libtun/protocol/ip4.h:114-129 | adding all words with carries deferred and folding once at the end is ones'-complement addition with end-around carry, for every word list |
| OnesComplement.TwoFoldsSuffice | libtun/include/libtun/protocol/ip4.h:125-127 | the folding loop runs at most twice on any 32-bit sum |
| OnesComplement.AcceptanceTest | libtun/include/libtun/protocol/tcp.h:83-104 | comparing a stored word with the recomputed checksum accepts if and only if the whole sums to 0xffff and the stored word is not the alternative zero, unless all else is zero |
| OnesComplement.SingleWordChange | libtun/include/libtun/protocol/ip4.h:114-129 | a change of one word passes the test if and only if it swaps the two zeros and some third word is not zero |
| Ip4.AddWords | libtun/include/libtun/protocol/ip4.h:119-123 | the summing loop never overflows 32 bits and yields the plain total of the words, the checksum field skipped |
| Ip4.HeaderLayout | libtun/include/libtun/protocol/ip4.h:136-147 | the fields read are those of a header laid out as in section 3.1 of RFC 791 |
| Ip4.FoldedComplement | libtun/include/libtun/protocol/ip4.h:125-128 | the folding loop ends and returns the complement of the folded sum |
| Ip4.Header.CalculateChecksum | libtun/include/libtun/protocol/ip4.h:114-129 | for every header length the result is the checksum that word-by-word addition defines, the checksum field counted as zero |
| Ip4.Header.CalculateChecksumInplace | libtun/include/libtun/protocol/ip4.h:131-133 | only the checksum field changes, to that checksum |
| Ip4.Header.SetWord | libtun/include/libtun/protocol/tcp.h:72-80 | stores a port or checksum at its offset, big-endian, and changes no other byte |
| Ip4.Header.SetSourceIP | libtun/include/libtun/protocol/ip4.h:106-108 | stores the address at offset 12 and changes no other byte |
| Ip4.AcceptedHeaders | server/TunnelServer.cc:61-68 | the acceptance test for received headers of every length, both directions |
| Ip4.CorruptionDetected | server/TunnelServer.cc:61-68 | which overwritten word of an accepted header, after the first, goes unnoticed, both directions |
| Ip4.FirstWordChange | libtun/include/libtun/protocol/ip4.h:114-129 | overwriting the first word, header length included, goes unnoticed if and only if the change and the words gained or lost cancel out modulo 0xffff |
| Ip4.ShorterHeaderAccepted | libtun/include/libtun/protocol/ip4.h:59-61 | headers for which it does, when the length becomes 16 instead of 20 bytes |
| Tcp.Segment.PseudoHeaderSum | libtun/include/libtun/protocol/tcp.h:86-92 | the total of addresses, protocol and length, without overflow |
| Tcp.PseudoHeaderLayout | libtun/include/libtun/protocol/tcp.h:86-92 | the words added are those of the twelve bytes of section 3.1 of RFC 9293 |
| Tcp.ValidOverBytes | libtun/include/libtun/protocol/tcp.h:83-104 | a valid checksum is one with which the bytes of pseudo-header and segment sum to 0xffff |
| Tcp.Segment.CalculateChecksum | libtun/include/libtun/protocol/tcp.h:83-104 | for every segment up to 65535 bytes, also one too short to hold a checksum, the result is the checksum of pseudo-header and the words read, the checksum field counted as zero |
| Tcp.Segment.CalculateChecksumInplace | libtun/include/libtun/protocol/tcp.h:106-108 | only the checksum field changes, to that checksum |
| Tcp.OddSegments | libtun/include/libtun/protocol/tcp.h:94-98 | the code's checksum is that of the zero-padded segment if and only if the segment is even, or the byte after it is zero or left out with the checksum field |
| Rewrite.RewriteTcp | server/TunnelServer.cc:73-79 | the four in-place edits of a TCP packet, for every header length, as one function of the old bytes |
| Rewrite.RewriteUdp | server/TunnelServer.cc:80-86 | the four in-place edits of a UDP packet, for every header length, as one function of the old bytes |
| Rewrite.TcpOutboundCorrect | server/TunnelServer.cc:73-79 | new source address and port, every other byte but the checksums unchanged, a valid header checksum, and a valid segment checksum if and only if the padding is in memory |
| Rewrite.UdpOutboundCorrect | server/TunnelServer.cc:80-86 | new source address and port, a zero UDP checksum, every other byte but the header checksum unchanged, a valid header checksum |
| Napt.Napt.constructor | libtun/include/libtun/napt.h:73-76 | an empty table over the port range |
| Napt.Napt.CreateIfNotExist | libtun/include/libtun/napt.h:101-142 | the connection answered and the whole new table, for re-use, a new connection, an empty range, an exhausted one, and one at whose end the counter wraps |
| Napt.Napt.RemoveClient | libtun/include/libtun/napt.h:144-161 | the walk ends and takes exactly the visited keys and their connections out of both indexes |
| Napt.UpperBound | libtun/include/libtun/napt.h:145-148 | the least key after the given one in the order of the index |
| NaptRuns.StrictTotalOrder | libtun/include/libtun/napt.h:53-56 | the lexicographic order is strict and total, with each client's keys contiguous |
| NaptRuns.WrittenOrderSeparates | libtun/include/libtun/napt.h:53-56 | the comparison as written tells the keys of an index apart if and only if they belong to one client |
| NaptRuns.ScanIsLeast | libtun/include/libtun/napt.h:120-125 | the scan yields the least free port; without one it ends on the last port, or on port 0 behind 65535 |
| NaptRuns.ScanEnds | libtun/include/libtun/napt.h:120-125 | the loop ends if and only if not all 65536 ports are in the range and in use |
| NaptRuns.ExhaustedByCount | libtun/include/libtun/napt.h:120-129 | a range is exhausted if and only if the server endpoint has as many connections as the range has ports |
| NaptRuns.AnswersExactly | libtun/include/libtun/napt.h:107-129 | there is no answer, and no change, if and only if a new connection is needed and the range is empty, or ends at 65535 and is exhausted |
| NaptRuns.CreateAnswers | libtun/include/libtun/napt.h:101-142 | the answer is this client's connection to this server endpoint, in range; the lookup by client finds it, and the lookup by server if and only if its entry was not taken before |
| NaptRuns.CreateTwice | libtun/include/libtun/napt.h:107-110 | a creation repeated is answered with the same connection and changes nothing |
| NaptRuns.DropsExactly | libtun/include/libtun/napt.h:107-160 | in every state, exactly which creations and removals take or give a client key its connection |
| NaptRuns.FlowKeepsConnection | libtun/include/libtun/napt.h:101-161 | over all runs a flow keeps its connection, and is answered with it again, if and only if no removal visits it and its client port is not used towards another server endpoint |
| NaptRuns.CreateDisplaces | libtun/include/libtun/napt.h:131-139 | in every state, exactly which creations displace a server entry |
| NaptRuns.CreateConsistent | libtun/include/libtun/napt.h:131-139 | exactly which creations break the agreement of the indexes |
| NaptRuns.BreakingCreation | libtun/include/libtun/napt.h:120-139 | an input that breaks it |
| NaptRuns.ExhaustionDisplaces | libtun/include/libtun/napt.h:120-139 | on exhaustion before 65535 the last port's entry, and no other, goes to the new connection |
| NaptRuns.WithoutConsistent | libtun/include/libtun/napt.h:150-160 | removal keeps the agreement and erases just the server entries of the removed connections |
| NaptRuns.RemovalExact | libtun/include/libtun/napt.h:144-161 | removal is of all and only the client's connections if and only if the number fits 8 bits and port 0 is unused, or there is nothing to visit or to remove |
| NaptRuns.RunConsistent | libtun/include/libtun/napt.h:101-161 | from the empty table on, the two indexes agree in every state of a run if and only if no creation takes the last port of an exhausted range from a connection still in use |
| NaptRuns.TakesExactly | libtun/include/libtun/napt.h:131-160 | in every state, exactly which creations and removals take a given server entry from its connection |
| NaptRuns.FlowsNeverCross | libtun/include/libtun/napt.h:78-161 | in every state of any run of creations and removals a flow's server endpoint and local port lead to its client and port, if and only if its entry was not stale and no operation takes it |
| NaptRuns.FlowsKept | libtun/include/libtun/napt.h:78-161 | that is so over all creations and all removals of other clients if no creation towards the flow's own server endpoint displaces |
| Session.SlotIsLastIdle | server/TunnelServer.cc:106-111 | the slot loop yields the last idle slot, or none if there is none |
| Session.FindIsFirst | server/TunnelServer.cc:134-142 | the handlers' loop yields the first connected slot of the endpoint, or none if there is none |
| Session.ConnectKeepsOthers | server/TunnelServer.cc:106-117 | connecting changes one slot, which was idle or is new |
| Session.DisconnectKeepsOthers | server/TunnelServer.cc:134-142 | disconnecting leaves the slots of other endpoints and the number of slots |
| TunnelServer.TunnelServer.constructor | server/TunnelServer.h:44-52 | the two empty tables and the initial idle slots |
| TunnelServer.TunnelServer.RpcConnectHandler | server/TunnelServer.cc:102-122 | the new session table, unchanged on wrong credentials, and the key and vector answered, which are those of the client's slot |
| TunnelServer.TunnelServer.RpcPingHandler | server/TunnelServer.cc:124-132 | found if and only if connected, and the byte counter's slot |
| TunnelServer.TunnelServer.RpcDisconnectHandler | server/TunnelServer.cc:134-142 | the new session table, the translation tables untouched |
| TunnelServer.TunnelServer.RemoveSession | server/TunnelServer.cc:94-100 | the slot and what leaves both translation tables |
| TunnelServer.TunnelServer.ProcessTransmit | server/TunnelServer.cc:57-92 | a refused packet changes nothing; an accepted one is counted, translated and sent, with both tables and all of memory stated |
| TunnelServer.AcceptedExactly | server/TunnelServer.cc:61-68 | a packet is accepted if and only if it names a connected session of its endpoint and its header sums to 0xffff, a stored 0xffff only with all else zero |
| TunnelServer.CorruptedIsRefused | server/TunnelServer.cc:61-68 | an accepted packet with another header word overwritten is refused, save for swapped zeros, both directions |
| TunnelServer.CorruptedLengthIsRefused | server/TunnelServer.cc:61-68 | so is one with another first word, unless what that changes cancels out |
| TunnelServer.ForwardedExactly | server/TunnelServer.cc:73-91 | TCP and UDP packets are sent on, each by its own table, and no others |
| TunnelServer.PortsLayout | libtun/include/libtun/protocol/udp.h:63-65 | the ports read come right after the header, the source port first |
| TunnelServer.TunnelServer.RawSocketPacketHandler | server/TunnelServer.cc:144-179 | delivered to the routed client's endpoint, under its secret, with only the destination port rewritten, or dropped unchanged |
| TunnelRuns.FlowsReturnToOpener | server/TunnelServer.cc:57-179 | over all runs from the start, of connects, pings, disconnects and transmissions, packets of a flow go to the endpoint that opened it, under its secret, and to its own port, if and only if its entry was not stale, no packet takes it and no disconnect frees the slot |
| TunnelRuns.FlowsKept | server/TunnelServer.cc:57-179 | that is so whatever any client does, until the opener disconnects, if no packet to the flow's own server endpoint displaces |
| TunnelRuns.OutboundIsStep | server/TunnelServer.cc:70-89 | what becomes of an admitted packet is one step of these runs, for the TCP table and for the UDP table |
| TunnelRuns.ReusedSlotInheritsFlows | server/TunnelServer.cc:102-142 | after a disconnect a flow goes nowhere, and after the next connect to the new client if and only if it got the slot |
| TunnelRuns.RunValid | server/TunnelServer.cc:57-142 | in every state of the server connected slots carry their own numbers, and connections lie under their own keys, in range, and belong to slots; the two indexes agree in every state if and only if no packet takes the last port of an exhausted range from a connection still in use |
| TunnelRuns.BytesAreCounted | libtun/include/libtun/transmission/Session.h:45-48 | while a client is connected its counter counts the bytes of its packets, in 64 bits |
| TunnelRuns.OutboundKeepsSourcePort | server/TunnelServer.cc:73-86 | a TCP or UDP packet leaves from the server's address with the ports and the destination it came with |
| TunnelRuns.ReplyLookup | server/TunnelServer.cc:75-76 | from the table before the packet: a reply finds the client if and only if it gets or holds its own port, another client if and only if that one holds it, and else none |
| TunnelRuns.ReplyDelivered | server/TunnelServer.cc:144-179 | the same for packets: the endpoint, secret and port that the reply to an outbound packet is delivered to |
| TunnelRuns.ReplyLost | server/TunnelServer.cc:75-76 | a flow whose replies find no connection |
| TunnelRuns.ReplyMisdelivered | server/TunnelServer.cc:75-76 | a flow whose replies go to another client |
| Buffer.Buffer.SetSize | libtun/include/libtun/BufferPool.h:43-48 | the new size, within the slot |
| Buffer.Buffer.Shift | libtun/include/libtun/BufferPool.h:50-55 | the window moves as a whole or not at all, within the slot |
| Buffer.Buffer.MoveFrontBoundary | libtun/include/libtun/BufferPool.h:57-63 | the end of the window stays; the front moves or does not |
| Buffer.Buffer.MoveBackBoundary | libtun/include/libtun/BufferPool.h:65-70 | the front stays; the end moves or does not |
| Buffer.Buffer.ReadBuffer | libtun/include/libtun/BufferPool.h:73-83 | the record at an offset, or nothing if it is not all there |
| Buffer.Buffer.ReadBufferFromFront | libtun/include/libtun/BufferPool.h:84-90 | the record at the front and the rest of the window |
| Buffer.Buffer.WriteBuffer | libtun/include/libtun/BufferPool.h:102-112 | accepted if and only if it ends before the end of the slot; then the record is there and no other byte of memory changed, else nothing did |
| Buffer.Buffer.WriteBufferToBack | libtun/include/libtun/BufferPool.h:113-115 | the record is appended to the window, or nothing changes |
| Buffer.ReadFront | libtun/include/libtun/BufferPool.h:84-90 | reading a window of records yields the first, and removes it if and only if it is not empty |
| Buffer.ReadExactly | libtun/include/libtun/BufferPool.h:73-83 | at any offset a read yields a non-empty string if and only if its whole record is there |
| Buffer.CutOffRecord | libtun/include/libtun/BufferPool.h:79-81 | of a record that is cut off, in front or behind the length, it yields nothing |
| Buffer.WindowRefinesQueue | libtun/include/libtun/BufferPool.h:57-115 | every run of reads and non-empty writes, refused ones included, answers as a queue of byte strings does |
| Buffer.Perform | libtun/include/libtun/BufferPool.h:84-115 | those runs are what the buffer's own methods answer |
| Buffer.EmptyRecordBlocks | libtun/include/libtun/BufferPool.h:84-90 | once an empty record is at the front every later read answers empty |
| BufferPool.BufferPool.constructor | libtun/include/libtun/BufferPool.h:135-136 | an empty pool |
| BufferPool.BufferPool.Alloc | libtun/include/libtun/BufferPool.h:138-146 | a slot not outstanding before, from the top of the stack or a new chunk, as a full buffer; free and outstanding slots still partition all slots |
| BufferPool.BufferPool.Free | libtun/include/libtun/BufferPool.h:148-151 | the slot goes back wherever the buffer's window is; the partition is kept |
| BufferPool.BufferPool.AllocChunk | libtun/include/libtun/BufferPool.h:176-183 | one more chunk, all of whose slots are free |
| BufferPool.BufferPool.ConsumedCount | libtun/include/libtun/BufferPool.h:153-161 | all slots less the free ones is the number outstanding |
| BufferPool.AllSlotsBounds | libtun/include/libtun/BufferPool.h:176-183 | there are chunks times buffers-per-chunk slots, each inside its chunk |
| BufferPool.SlotsDisjoint | libtun/include/libtun/BufferPool.h:176-183 | distinct slots are disjoint byte ranges |
| Frame.RoundTrip | libtun/include/libtun/transmission/Rpc.h:112-118 | opening a sealed frame gives back command, id and content |
| Frame.Layout | libtun/include/libtun/transmission/Rpc.h:112-118 | on the wire a frame is the command in the clear, then the big-endian id and the content encrypted in one piece |
| Frame.FirstByte | libtun/include/libtun/transmission/constant.h:7-11 | a request's frame begins with 0, a reply's with 1 |
| Frame.SealInPlace | libtun/include/libtun/transmission/Rpc.h:114-118 | the three bytes before the window and the encryption in place build the frame, and no other byte of memory changes |
| Frame.OpenInPlace | libtun/include/libtun/transmission/Rpc.h:55-60 | the decryption in place and the move of the front take the frame apart, and no other byte of memory changes |
| Rpc.Rpc.constructor | libtun/include/libtun/transmission/Rpc.h:49-53 | the initial state |
| Rpc.Rpc.TakeId | libtun/include/libtun/transmission/Rpc.h:164-170 | the id drawn and the next one |
| Rpc.Rpc.Send | libtun/include/libtun/transmission/Rpc.h:102-132 | is the send step and keeps tables, blocks and callbacks together |
| Rpc.Rpc.Feed | libtun/include/libtun/transmission/Rpc.h:55-100 | is the receive step and keeps tables, blocks and callbacks together |
| Rpc.Rpc.OnReplyTimer | libtun/include/libtun/transmission/Rpc.h:172-192 | is the reply timer's step |
| Rpc.Rpc.OnRequestTimer | libtun/include/libtun/transmission/Rpc.h:194-218 | is the request timer's step |
| Rpc.Rpc.Fire | libtun/include/libtun/transmission/Rpc.h:180-217 | a pending callback always finds its control block alive, and is the continuation step |
| RpcRuns.PendingIsLive | libtun/include/libtun/transmission/Rpc.h:180-217 | no pending callback outlives its control block |
| RpcRuns.CallbackDiscipline | libtun/include/libtun/transmission/Rpc.h:64-218 | after every run each live block has exactly one pending callback, a freed one none, and tables name live blocks only |
| RpcRuns.FreedLeavesTable | libtun/include/libtun/transmission/Rpc.h:172-204 | a block leaves its own table entry, and only that, in the step that frees it, if no live id was drawn again |
| RpcRuns.FireKeepsRegistered | libtun/include/libtun/transmission/Rpc.h:172-204 | callbacks keep every live request in the table under its id |
| RpcRuns.OthersKeepRegistered | libtun/include/libtun/transmission/Rpc.h:112-131 | so do receiving, and sending under an id that is not live |
| RpcLedger.RetryCounts | libtun/include/libtun/transmission/Rpc.h:120-131 | for every retry count, whether a request is sent, times out at once, or is dropped without a callback |
| RpcEffects.SendGoesOut | libtun/include/libtun/transmission/Rpc.h:107-131 | a send puts the framed request on the wire under the next id, with a table entry, if the retry count lets it, and else nothing |
| RpcEffects.RequestIsHandled | libtun/include/libtun/transmission/Rpc.h:64-92 | a request without a reply entry runs the handler; if it accepts, its framed reply goes out and gets an entry |
| RpcEffects.DuplicateIsDropped | libtun/include/libtun/transmission/Rpc.h:64-93 | a request with a reply entry changes nothing and puts out nothing |
| RpcEffects.HandledExactly | libtun/include/libtun/transmission/Rpc.h:64-75 | which events run the handler, and for which key |
| RpcEffects.ReplyIsAnswer | libtun/include/libtun/transmission/Rpc.h:93-98 | a reply to a request in the table is handed to that request's callback |
| RpcEffects.AnswerExactly | libtun/include/libtun/transmission/Rpc.h:93-98 | a success is counted for a request if and only if a reply is handed to its callback |
| RpcEffects.FireSends | libtun/include/libtun/transmission/Rpc.h:172-217 | a callback puts the block's own message on the wire again if and only if it is a timer's, without error, and the countdown goes on |
| RpcEffects.SentStartsTimer | libtun/include/libtun/transmission/Rpc.h:187-214 | a completed send starts a timer of one second |
| RpcEffects.FireOutcome | libtun/include/libtun/transmission/Rpc.h:172-204 | when a callback ends its block, and with which outcome: timed out, failed, released, or none |
| RpcEffects.SentExactly | libtun/include/libtun/transmission/Rpc.h:180-217 | a transmission is counted for a block if and only if its message goes on the wire |
| RpcEffects.FramedKeepsEnd | libtun/include/libtun/transmission/Rpc.h:81-86 | the header goes right before the content, in the same slot |
| RpcEffects.BoundedTraffic | libtun/include/libtun/transmission/Rpc.h:172-218 | over every run the packets of a block on the wire are all the same and no more than retry - 1, and exactly that many if it timed out or ended without error |
| RpcEffects.TimedOutIffUnanswered | libtun/include/libtun/transmission/Rpc.h:93-204 | without send errors a request that is gone timed out, after all its transmissions, if and only if no reply was handed over |
| RpcLedger.RunAccounts | libtun/include/libtun/transmission/Rpc.h:55-218 | the account of every control block is kept by every run |
| RpcLedger.OneOutcome | libtun/include/libtun/transmission/Rpc.h:93-98 | a timeout excludes other outcomes, a request that is gone was completed, and a live one's countdown is zero if and only if it was answered |
| RpcLedger.StepAtMostOnce | libtun/include/libtun/transmission/Rpc.h:93-98 | a step completes no request a second time if and only if it is neither a second reply nor a failure after a reply |
| RpcLedger.ExactlyOnceIffClean | libtun/include/libtun/transmission/Rpc.h:93-204 | the same for whole runs; and then each request that is gone was completed exactly once |
| RpcLedger.SecondReply | libtun/include/libtun/transmission/Rpc.h:93-98 | a run that completes a request twice |
| RpcQuiescence.FireDecreases | libtun/include/libtun/transmission/Rpc.h:172-218 | every callback strictly decreases a measure over the countdowns |
| RpcQuiescence.Quiesces | libtun/include/libtun/transmission/Rpc.h:172-218 | with no sends and no arrivals a run is no longer than that measure |
| RpcQuiescence.RestsEmpty | libtun/include/libtun/transmission/Rpc.h:172-218 | no callback is pending if and only if no block is left, and then both tables are empty |
| RpcQuiescence.ComesToRest | libtun/include/libtun/transmission/Rpc.h:172-218 | after any run from the start, what can follow without sends and arrivals is bounded, can always be continued until no callback is pending, and then both tables are empty |
| RpcIds.NextIdCounts | libtun/include/libtun/transmission/Rpc.h:164-170 | the ids drawn are 1 to 65535 in turn, never 0 |
| RpcIds.IdsDistinct | libtun/include/libtun/transmission/Rpc.h:164-170 | any 65535 consecutive ids are distinct |
| RpcIds.NextIdFree | libtun/include/libtun/transmission/Rpc.h:112-130 | the next id is not in the table if no request has been live for 65535 sends |
| RpcIds.NoOverwrite | libtun/include/libtun/transmission/Rpc.h:112-130 | in runs of which that holds throughout, no send overwrites a live request |
| RpcProtocol.TextRoundTrip | libtun/include/libtun/transmission/RpcProtocol.h:56-60 | what arrives of a text: all of it if and only if it fits the buffer, else the part that its 16-bit length announces, or nothing |
| RpcProtocol.NeverRefused | libtun/include/libtun/transmission/RpcProtocol.h:57-60 | the headroom always holds the header, so the no-space paths are not taken |
| RpcProtocol.StepSound | libtun/include/libtun/transmission/RpcProtocol.h:56-65 | a step frees an outstanding slot and leaves every holder its slot if and only if it is not a second completion |
| RpcProtocol.PoolConserved | libtun/include/libtun/transmission/RpcProtocol.h:152-162 | the same for whole runs; the outstanding slots are those of unanswered requests and live replies, and none once both tables are empty, if no request was live for 65535 sends |
| Genuine.Origin | libtun/include/libtun/transmission/Rpc.h:55-60 | a delivered request belongs to a call, a delivered reply to a handler run |
| Exchange.CallGoesOut | libtun/include/libtun/transmission/Rpc.h:102-131 | on the network, a call's packet is put there and its id in the table |
| Exchange.CallIsHandled | libtun/include/libtun/transmission/Rpc.h:64-89 | the delivery of a call's packet runs the handler and puts its reply there |
| Exchange.ReplyIsAnswered | libtun/include/libtun/transmission/Rpc.h:93-98 | the delivery of a reply answers the call that is in the table, and no other |
| Exchange.CallIsAnswered | libtun/include/libtun/transmission/Rpc.h:55-131 | a call whose packet and whose reply are delivered is answered with what the handler replied |
| Exchange.HandledIsCounted | libtun/include/libtun/transmission/Rpc.h:64-75 | the runs of the handler counted are those of the endpoints |
| Genuine.RepliesGenuine | libtun/include/libtun/transmission/Rpc.h:81-97 | over every run of the network a success completion carries what a handler run made of that very request's content, if no id is reused |
| Timing.FirstHandling | libtun/include/libtun/transmission/Rpc.h:64-89 | a timely copy of a request that passes duplicate suppression is the first to be handled |
| AtMostOnce.HandledAtMostOnce | libtun/include/libtun/transmission/Rpc.h:64-217 | in timed runs the handler runs at most once per request, as the reply entry outlives the last copy |

## Left out

- Napt.Napt.RemoveClient: the order of the index, here and in lookups and insertions, is the lexicographic one, as a `std::map` has no defined behaviour under the comparison written at `napt.h:55`.
- Napt.Napt.CreateIfNotExist: a scan that does not end is excluded; ScanEnds says exactly when that is.
- Rewrite.TcpOutboundCorrect: only the in-place function, not its correctness, is stated of packets with less than a full header or checksum field, whose edited fields overlap.
- TunnelServer.TunnelServer.ProcessTransmit: packets whose announced lengths reach past the memory given are not modelled, as the code does not check them; nor are packets for which the table has no answer, where the code follows a null pointer.
- TunnelServer.TunnelServer.RemoveSession: a number equal to the number of slots is excluded; the code then writes past the table.
- TunnelServer.TunnelServer.RawSocketPacketHandler: packets of more than 1589 bytes are excluded; with the command byte they do not fit the pool buffer, and the code then writes past it.
- TunnelServer.TunnelServer.RpcConnectHandler: a table of 32768 slots or more is excluded; the code keeps the slot number in 16 bits with a sign.
- TunnelRuns.FlowsReturnToOpener: RemoveSession is not a step of the runs, as nothing in the server calls it.
- Rpc.Rpc.Feed: frames of less than three bytes are excluded, as the code reads past them; a request callback that calls back into the RPC object is not modelled, and the bytes of a send are taken when it starts, so a buffer that is freed and refilled while its send is pending is not seen.
- AtMostOnce.HandledAtMostOnce: all endpoints have the same retry count, and the handler accepts what it is given.
- Sockets, the I/O context and real clocks: callbacks fire as the environment chooses, with the clock a number of nanoseconds.
- The cipher: any pair of length-preserving functions of which decryption undoes encryption; keys and initialisation vectors are opaque.
- The server strips the command byte at `server/TunnelServer.cc:38` before `Rpc::feed` reads it; the RPC machine is driven with whole frames, as its unit test does.
- JSON, credentials, logging and exceptions: texts are opaque byte strings, and credentials are right or wrong.
- `RawSocket.h`, `RawSocket_darwin.h`, `Tunnel_darwin.h` and `ParseConfig.cc`: device, platform and file code.
- Checksums of inbound packets: the server rewrites their destination port only and leaves the checksums as they are.
- Object pools, hash functions and the pool's mutex: handles, maps and sets stand for them.
- Activity times and error fields of sessions: nothing reads them.
