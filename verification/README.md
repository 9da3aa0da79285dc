# Reverse tethering relay: a verified model

This project models the relay that carries a phone's traffic over a USB cable: a user-space TCP and UDP
translator on the computer (`relay-rust/src/relay`), and the phone's end of the tunnel
(`app/src/main/java/io/github/innocent254/revbridge`). `dafny verify dfyconfig.toml` checks it.

Objects that the original updates in place are classes; decisions that whole runs are reasoned about are functions
on values, and the classes are proved to do what those functions say. Sockets, the clock, the poll and the system
are parameters: a write takes any part of what it is offered, a read delivers any chunk, a poll returns any events
of registered tokens.

| file | what it models |
|---|---|
| `Bytes.dfy`, `Io.dfy` | bytes, wrapping 32-bit numbers, big-endian fields, outcomes of sockets |
| `StreamBuffer.dfy`, `DatagramBuffer.dfy` | the byte ring and the ring of datagrams whose last block overflows |
| `Framing.dfy` | cutting a byte stream into IPv4 packets, for any chunking |
| `Ipv4PacketBuffer.dfy`, `IPPacketOutputStream.dfy` | the two readers of the tunnel, relay side and phone side |
| `Pending.dfy`, `Client.dfy` | one phone: id prefix, outgoing queue, deferred packets, packets pushed to the router |
| `TcpSpec.dfy` | the TCP endpoint as functions, with a history of what was written, read and sent |
| `TcpEffects.dfy` | what each packet and each event makes of a TCP connection: bytes taken, state, numbers, answers |
| `TcpUpload.dfy`, `TcpSafety.dfy`, `TcpDownload.dfy`, `TcpInterests.dfy` | invariants of all its runs |
| `TcpPolls.dfy` | its events as polls deliver them, with the other handlers of each batch |
| `TcpConnection.dfy`, `UdpConnection.dfy` | the two kinds of connection as objects |
| `Checksum.dfy`, `Headers.dfy`, `Packetizer.dfy` | checksums, header fields, packets built in one buffer |
| `Selector.dfy`, `Router.dfy`, `EventLoop.dfy` | tokens and handlers, a client's table, and whole runs of the poll loop |
| `EventEffects.dfy` | what each handler's run makes of the relay: who is opened, who is closed, whose token is freed |
| `Tunnel.dfy` | relay to phone end to end, from built packets to writes on the device |
| `TunnelProvider.dfy` | the phone's provider of tunnels under every interleaving of its threads |

## Where the code does less than it seems

Each is stated with the exact condition under which the code keeps the property.

* The rest of a client id that the first write took only in part is registered for only when packets happen to be
  queued behind it (`Client.Client.Process`, `Client.PartialId`).
* A FIN whose payload does not fit, or that completes the handshake, is acknowledged without its bytes; no other step
  of a conforming sender loses any (`TcpUpload.StepUploadsIff`, `TcpUpload.FinWithHandshake`).
* An end of file that comes after the phone's FIN was processed assigns a second FIN. Over runs of events as polls
  deliver them this is the only way to leave the state machine (`TcpPolls.BatchCoreIff`, `TcpPolls.PollsKeepCore`). It
  happens when the write half of the same event drains the queue ahead of a pending FIN (`TcpSafety.SecondFin`), when
  a FIN is routed between the poll and the event (`TcpPolls.FinOfTheBatch`), and when a blocked read left the readable
  interest over (`TcpPolls.StaleReadThenSecondFin`).
* The assertions before a read fail exactly when the window is used up by the time of the event
  (`TcpPolls.PolledIsProcessable`), as after an acknowledgement routed since the poll (`TcpPolls.WindowOfTheBatch`).
* A payload deferred while the phone's FIN is processed follows our FIN to the phone (`TcpSafety.StepSafeIff`,
  `TcpSafety.DeferredBehindFin`).
* A deferred packet advances the sequence number by its headers as well (`TcpDownload.NextDataSeqNo`), and loses its
  length to any packet forged before it is pulled (`TcpInterests.ForgingSpoilsDeferred`,
  `TcpDownload.StepFramedIff`, `Client.ForgedIsNoPacket`, `Packetizers.BuildOverDeferred`). A queue with room for the forged length and not for
  the packet then fails its assertion (`TcpInterests.ForgingTripsPull`, `Client.Client.ProcessPending`).
* A read that blocks after a write skips the update of the interests. A TCP connection left with writable interest
  and nothing to write closes itself at the next event (`TcpInterests.StaleAfterEarlyReturn`,
  `TcpInterests.DrainedThenBlockedCloses`); a UDP connection trips the buffer's assertion and ends the relay
  (`UdpConnections.ServePolled`, `UdpConnections.SpuriousReadThenPanic`).
* A datagram that wraps the ring onto an unread left end empties the queue, and one of 65536 bytes is stored with
  length zero (`DatagramBuffer.DatagramBuffer.ReadFrom`, `DatagramBuffer.LengthFieldHolds`). A writable event that was
  polled before such a wrap ends the relay; five full datagrams reach that (`UdpConnections.CollisionThenPanic`,
  `UdpConnections.FiveDatagramsPanic`).
* A packet from the phone whose headers run behind the bytes held ends the relay
  (`Ipv4PacketBuffer.Ipv4PacketBuffer.AsIpv4Packet`, `Client.Client.PushToNetwork`).
* A total length of zero stops both readers of the tunnel for good (`Framing.AdvancesIffRestMoves`), and a
  leading byte that is not IPv4 leaves the phone's buffer full (`IPPacketOutputStream.IPPacketOutputStream.Write`).
* The 16-bit length of a built packet overflows exactly when the datagram fills the whole buffer
  (`Packetizers.Packetizer.Packetize`).
* Closing the provider does not stop a thread that is on its way to open a tunnel, and only such a thread opens one
  (`TunnelProvider.OpensAfterCloseIff`, `TunnelProvider.RunStaysShut`).
* The tunnel just opened can be gone when it is to be connected, exactly when another thread is where it can invalidate
  it; two senders are enough for that (`TunnelProvider.ConnectsNullIff`, `TunnelProvider.SendersMeetNull`).

## Model

| member | source | states |
|---|---|---|
| StreamBuffer.StreamBuffer.WriteTo | relay-rust/src/relay/stream_buffer.rs:55-74 | the sink gets a prefix of the queue, at most the contiguous part, and the rest stays in order; a failed write changes nothing |
| StreamBuffer.StreamBuffer.ReadFrom | relay-rust/src/relay/stream_buffer.rs:76-99 | appends the source to the queue, around the right end when needed |
| StreamBuffer.StreamBuffer.Remaining | relay-rust/src/relay/stream_buffer.rs:51-53 | size and remaining add up to the capacity |
| StreamBuffer.RingPut | relay-rust/src/relay/stream_buffer.rs:81-98 | a write around the end extends the ring by exactly the source |
| StreamBuffer.RingTake | relay-rust/src/relay/stream_buffer.rs:61-70 | advancing the tail drops exactly that many bytes from the front |
| StreamBuffer.WriteTwice | relay-rust/src/relay/stream_buffer.rs:101-114 | two writes to a sink that takes everything empty the buffer |
| DatagramBuffer.DatagramBuffer.WriteTo | relay-rust/src/relay/datagram_buffer.rs:65-87 | the oldest datagram is handed over whole and leaves the queue whatever the socket makes of it |
| DatagramBuffer.DatagramBuffer.ReadFrom | relay-rust/src/relay/datagram_buffer.rs:89-115 | appends one datagram with its boundaries, or refuses it; the wrap onto an unread left end and the length of 65536 are stated as what they do |
| DatagramBuffer.ReadFront | relay-rust/src/relay/datagram_buffer.rs:65-75 | the block at the tail is the oldest datagram, also in the overflow region, and the layout survives its removal |
| DatagramBuffer.WriteBlock | relay-rust/src/relay/datagram_buffer.rs:102-115 | a block at the head keeps the layout and appends its datagram, except when it collides |
| DatagramBuffer.LengthFieldHolds | relay-rust/src/relay/datagram_buffer.rs:102-127 | the 16-bit length field holds the length if and only if it is below 65536 |
| Framing.SplitLosesNothing | relay-rust/src/relay/ipv4_packet_buffer.rs:40-73 | the packets cut off and the rest are the stream again |
| Framing.SplitOfPackets | relay-rust/src/relay/ipv4_packet_buffer.rs:40-73 | packets laid end to end, the last cut anywhere, are cut apart into themselves |
| Framing.ReassembleAnyChunking | relay-rust/src/relay/client.rs:299-303 | for every chunking of a run of packets exactly those packets come out and nothing is left |
| Framing.ReassemblePrefix | relay-rust/src/relay/client.rs:299-320 | from any prefix of the stream in any chunks, exactly its whole packets come out |
| Framing.AdvancesIffRestMoves | relay-rust/src/relay/ipv4_packet_buffer.rs:40-56 | cutting makes progress if and only if no boundary that is reached announces a length of zero |
| Framing.StreamAdvances | relay-rust/src/relay/client.rs:299-303 | a run of IPv4 packets never stops the readers |
| Ipv4PacketBuffer.ByteBuffer.Consume | relay-rust/src/relay/byte_buffer.rs:48-76 | drops exactly the front bytes and moves the others down |
| Ipv4PacketBuffer.Ipv4PacketBuffer.AvailablePacketLength | relay-rust/src/relay/ipv4_packet_buffer.rs:40-56 | a length is returned if and only if a whole packet, or a zero length, stands at the front |
| Ipv4PacketBuffer.Ipv4PacketBuffer.AsIpv4Packet | relay-rust/src/relay/ipv4_packet_buffer.rs:58-65 | returns exactly the first packet of the stream held, and panics in parsing exactly when its headers end behind the bytes held |
| Ipv4PacketBuffer.Ipv4PacketBuffer.Next | relay-rust/src/relay/ipv4_packet_buffer.rs:67-73 | removes exactly the packet at the front |
| IPPacketOutputStream.IPPacketOutputStream.Write | app/src/main/java/io/github/innocent254/revbridge/IPPacketOutputStream.java:55-69 | every whole packet of what was held and what arrives is written to the target once and the rest is kept; a cut packet and a chunk always fit |
| IPPacketOutputStream.IPPacketOutputStream.SinkPacket | app/src/main/java/io/github/innocent254/revbridge/IPPacketOutputStream.java:89-110 | one whole packet is one write; a cut one waits; another version clears; a zero length is written again and again |
| IPPacketOutputStream.ForwardTunnelToDevice | app/src/main/java/io/github/innocent254/revbridge/Forwarder.java:119-140 | for any chunks the reads deliver, the target gets the reassembled packets of the stream |
| Pending.PassSplits | relay-rust/src/relay/client.rs:322-351 | a pass delivers or keeps each entry exactly once |
| Pending.FirstInLine | relay-rust/src/relay/client.rs:325-350 | the first entry is delivered whenever it fits |
| Pending.IntactNeverTrips | relay-rust/src/relay/client.rs:322-351 | a pass over intact packets of open connections fails no assertion |
| Client.Client.SendToClient | relay-rust/src/relay/client.rs:256-272 | a packet is queued whole or refused, by its declared length; it fails the buffer's assertion exactly when that length fits and the raw bytes do not; queued bytes are registered for |
| Client.Client.Reply | relay-rust/src/relay/client.rs:75-93 | an answer sent while packets are routed is queued or lost, keeps the list of deferred packets, and overwrites the headers of its source's deferred one and nothing else |
| Client.ForgedIsNoPacket | relay-rust/src/relay/packetizer.rs:109-131 | a deferred packet with headers forged over it keeps its payload and can travel through the tunnel if and only if it had none |
| Client.Client.SendOrDefer | relay-rust/src/relay/tcp_connection.rs:322-342 | a source holds a deferred packet if and only if it is in the list, once; deferring happens only behind a full queue |
| Client.Client.Write | relay-rust/src/relay/client.rs:294-297 | wire and queue together stay what was accepted behind the id |
| Client.Client.ProcessPending | relay-rust/src/relay/client.rs:322-351 | one pass delivers, in order, what fits then and keeps the others in order; none that is kept would fit, and the list is never left behind an empty queue; it fails an assertion if and only if a packet in line was spoiled, or its connection closed, in the stated way |
| Client.Client.PushToNetwork | relay-rust/src/relay/client.rs:299-320 | terminates with every whole packet routed in order and a cut packet left, and with exactly those answers of the connections queued that fit in turn; it stops if and only if a packet's headers run behind the bytes held |
| Client.Client.Read | relay-rust/src/relay/client.rs:290-292 | only the peer's end of stream looks like one: the buffer always has room to read |
| Client.Client.Process | relay-rust/src/relay/client.rs:190-204 | one event, exactly: the wire grows by what the socket takes of the id and the queue, the pending packets that fit then follow, what arrives is read as far as the buffer has room and every whole packet of it is routed; the client closes if and only if a write or read fails or the stream ends; answers, the wake-up for queued bytes, the id's lost wake-up and a failed assertion come under the stated conditions |
| Client.PartialId | relay-rust/src/relay/client.rs:207-223 | an input on which the id's wake-up is lost |
| Client.EndToEnd | relay-rust/src/relay/client.rs:207-284 | behind the id, any chunks of the wire give a prefix of the accepted packets, all of them once the queue is empty |
| Tunnel.BuiltIsPacket | relay-rust/src/relay/packetizer.rs:109-123 | what the packetizer builds can travel through the tunnel if and only if its reference was IPv4 |
| Tunnel.ReadByPhone | app/src/main/java/io/github/innocent254/revbridge/Forwarder.java:119-140 | relay to phone, end to end: the device gets a prefix of the packets the relay accepted, one write each, and all of them once the queue is empty and the wire read |
| TcpEffects.PacketObeys | relay-rust/src/relay/tcp_connection.rs:483-537 | for every expected segment the payload is queued whole if it fits and the handshake is over, and nothing otherwise; nothing is written or lost; window, acknowledged number, state, both numbers, FIN number and the answer to a FIN are each said outright |
| TcpEffects.StrayIsIgnored | relay-rust/src/relay/tcp_connection.rs:483-498 | a segment that is stale or too early changes nothing but the interests |
| TcpEffects.RstCloses | relay-rust/src/relay/tcp_connection.rs:511-514 | an expected RST closes, without an answer |
| TcpEffects.FirstPacket | relay-rust/src/relay/tcp_connection.rs:539-577 | a first SYN starts from its number and the given one; anything else is reset with the number it acknowledges |
| TcpEffects.RepeatedSyn | relay-rust/src/relay/tcp_connection.rs:579-597 | a repeated SYN is the first one before the connection is made; afterwards a different one is reset and closes |
| TcpEffects.PacketRegisters | relay-rust/src/relay/tcp_connection.rs:733-770 | after every packet an open connection asks for what it waits for: to connect, to read what fits the window, to write what is queued |
| TcpEffects.ConnectAnswers | relay-rust/src/relay/tcp_connection.rs:366-372 | a connected socket is answered with a SYN of ours that acknowledges the phone's |
| TcpEffects.WriteAnswers | relay-rust/src/relay/tcp_connection.rs:252-276 | the bytes taken leave the queue in order, and an ACK for exactly those goes to the phone, or the answer to the FIN that waited for them |
| TcpEffects.WriteFails | relay-rust/src/relay/tcp_connection.rs:276-297 | a failed write is reset and closes, an empty one closes, a blocked one changes nothing |
| TcpEffects.ReadSends | relay-rust/src/relay/tcp_connection.rs:300-343 | what is read goes to the phone as one PSH ACK packet, and takes its numbers; without room it is deferred |
| TcpEffects.ReadEnds | relay-rust/src/relay/tcp_connection.rs:344-364 | an end of file sends and numbers one FIN, a failed read is reset and closes, a blocked one queues nothing |
| TcpEffects.BothInTurn | relay-rust/src/relay/tcp_connection.rs:220-249 | an event of both kinds is the write and then the read, unless the write blocks or closes |
| TcpEffects.PullSends | relay-rust/src/relay/tcp_connection.rs:816-840 | a deferred packet is delivered when its length fits, and stays otherwise |
| TcpEffects.RunAccepts | relay-rust/src/relay/tcp_connection.rs:667-702 | over every run, what is written and queued grows by exactly the payloads of the expected segments that had room |
| TcpEffects.InOrderIsAccepted | relay-rust/src/relay/tcp_connection.rs:667-702 | a stream delivered in order with room is accepted whole, and is on the network once the queue is empty |
| TcpEffects.NewListens | relay-rust/src/relay/tcp_connection.rs:166-186 | a new connection asks to be connected and for nothing else, and its SYN leaves that as it is |
| TcpEffects.StepsAreFree | relay-rust/src/relay/tcp_connection.rs:778-788 | an open connection takes every packet at any time, and the room in the client's queue may change at any time |
| TcpEffects.RunsInTurn | relay-rust/src/relay/selector.rs:110-119 | runs put together are runs, one after the other |
| TcpEffects.FlagBits | relay-rust/src/relay/tcp_header.rs:42-46 | the flags of each kind of answer are the bits of section 3.1 of RFC 793 |
| TcpUpload.UploadFromSyn | relay-rust/src/relay/tcp_connection.rs:466-577 | over every run from the SYN, bytes written and queued are a prefix of the client's stream, namely exactly the payloads of the expected segments that had room; the ack number counts the SYN, the bytes written and the processed FIN, and no packet acknowledges more than was written |
| TcpUpload.RunKeepsUpload | relay-rust/src/relay/tcp_connection.rs:252-297 | exactly-once, in-order upload is kept by every run of segments lost, repeated or reordered and of partial writes |
| TcpUpload.StepKeepsUpload | relay-rust/src/relay/tcp_connection.rs:220-249 | each handler keeps it |
| TcpUpload.StepUploadsIff | relay-rust/src/relay/tcp_connection.rs:483-537 | a step of a conforming sender breaks it if and only if it is an expected segment with FIN whose payload is not taken |
| TcpUpload.RunAcksOnlyWritten | relay-rust/src/relay/tcp_connection.rs:698-702 | over every run no packet to the phone, sent or deferred, acknowledges a byte that is not yet written to the network |
| TcpUpload.StepAcks | relay-rust/src/relay/tcp_connection.rs:459-464 | every packet queued in a step carries the ack number after it, a deferred one that of its own step |
| TcpUpload.FinNeedsItsPayload | relay-rust/src/relay/tcp_connection.rs:667-702 | a segment with FIN keeps the upload if and only if its payload is taken |
| TcpUpload.DroppedFinLosesData | relay-rust/src/relay/tcp_connection.rs:524-529 | otherwise the upload is broken for every such segment |
| TcpUpload.FinWithHandshake | relay-rust/src/relay/tcp_connection.rs:674-678 | an input on which a byte is acknowledged and never written |
| TcpSafety.RunKeepsCore | relay-rust/src/relay/tcp_connection.rs:72-97 | over every run whose ends of file meet their guard, states never regress, at most one FIN number is assigned, CLOSE-WAIT is never entered and the connection closes once |
| TcpSafety.StepCoreIff | relay-rust/src/relay/tcp_connection.rs:220-249 | a step keeps the state machine, along Figure 6 of section 3.2 of RFC 793 but for LAST-ACK entered directly, if and only if it is no end of file outside the guard; a closed connection ignores socket events |
| TcpSafety.RunKeepsSafe | relay-rust/src/relay/tcp_connection.rs:300-342 | and no payload follows a FIN, in every such run that queues none behind it |
| TcpSafety.StepSafeIff | relay-rust/src/relay/tcp_connection.rs:816-840 | a step keeps data ahead of the FIN if and only if it queues no payload, read or deferred, behind one |
| TcpSafety.MayReadSuffices | relay-rust/src/relay/tcp_connection.rs:757-766 | a read for which `may_read` holds meets both guards |
| TcpSafety.DeferredBehindFin | relay-rust/src/relay/tcp_connection.rs:619-633 | inputs on which a deferred payload follows our FIN |
| TcpSafety.ReadAfterWrite | relay-rust/src/relay/tcp_connection.rs:223-234 | after the write of a combined event a read is still allowed if and only if no pending FIN was processed |
| TcpSafety.SecondFin | relay-rust/src/relay/tcp_connection.rs:420-430 | an end of file then fails an assertion when the window had one number left, assigns a second FIN otherwise, and without a pending FIN keeps the state machine |
| TcpSafety.WindowAfterWrite | relay-rust/src/relay/tcp_connection.rs:300-309 | for every open connection, the assertions before a read hold if and only if nothing is deferred and the window outlasts what the write half takes |
| TcpSafety.PacketCloses | relay-rust/src/relay/tcp_connection.rs:466-577 | a packet of the phone closes the connection if and only if it is a wrong first packet, a new SYN, an expected RST, or completes both directions |
| TcpSafety.SocketCloses | relay-rust/src/relay/tcp_connection.rs:220-297 | a socket event closes it if and only if it is a hang-up, a failed or empty write, a failed read, or drains the queue ahead of the peer's last FIN |
| TcpDownload.DownloadFromStart | relay-rust/src/relay/tcp_connection.rs:300-372 | over every run every byte read is in exactly one queued packet, in order, or in the deferred one, and the sequence number counts the SYN, the bytes sent, the FIN and what deferred packets skipped |
| TcpDownload.TilingFromStart | relay-rust/src/relay/tcp_connection.rs:322-333 | in runs whose reads meet the guard, data packets tile the stream as long as nothing was deferred |
| TcpDownload.StepTilesIff | relay-rust/src/relay/tcp_connection.rs:322-333 | a step keeps the tiling if and only if it queues no data outside the span between SYN and FIN |
| TcpDownload.StepFramedIff | relay-rust/src/relay/tcp_connection.rs:816-823 | a step keeps headers that announce their packets' lengths if and only if what it delivers is intact |
| TcpDownload.RunConserves | relay-rust/src/relay/tcp_connection.rs:816-840 | conservation and numbering are kept by every run at all, spoiled packets included |
| TcpDownload.NextDataSeqNo | relay-rust/src/relay/tcp_connection.rs:825-839 | the next data packet continues the numbering if and only if the SYN, the FIN and the numbers skipped come to one modulo 2^32 |
| TcpInterests.RunWakes | relay-rust/src/relay/tcp_connection.rs:733-770 | in every run an open connection with queued bytes is registered for writing, and one that may read for reading |
| TcpInterests.StaleAfterEarlyReturn | relay-rust/src/relay/tcp_connection.rs:220-237 | interests go stale if and only if one event writes all there is, or connects with nothing to write, and its read blocks |
| TcpPolls.PolledIsProcessable | relay-rust/src/relay/selector.rs:110-119 | for an event asked for at the poll, whatever other handlers of the batch did since, the assertions before a read fail if and only if the write half goes through and no window is left |
| TcpPolls.PolledKeepsCore | relay-rust/src/relay/tcp_connection.rs:220-249 | and its end of file keeps the state machine if and only if the phone's FIN was not processed before the poll, since the poll, or by its own write half |
| TcpPolls.PolledFindsWork | relay-rust/src/relay/tcp_connection.rs:252-278 | a writable event asked for with something to write still finds it |
| TcpPolls.BatchKeepsRegistered | relay-rust/src/relay/tcp_connection.rs:733-770 | over every batch, stale interests included, the connection reads only in ESTABLISHED or LAST-ACK, and asks for nothing only after an event that wrote all there was and then blocked |
| TcpPolls.BatchCoreIff | relay-rust/src/relay/selector.rs:110-119 | a batch keeps the state machine if and only if no end of file comes after a FIN of the phone |
| TcpPolls.PollsKeepCore | relay-rust/src/relay/relay.rs:57-77 | the same over whole runs of polls |
| TcpPolls.SynStarts | relay-rust/src/relay/tcp_connection.rs:539-562 | a connection meets its first poll in the state those runs start from |
| TcpPolls.StaleReadThenSecondFin | relay-rust/src/relay/tcp_connection.rs:229-237 | inputs on which a left-over readable interest assigns a second FIN |
| TcpPolls.FinOfTheBatch | relay-rust/src/relay/tcp_connection.rs:619-633 | inputs on which a FIN routed since the poll does |
| TcpPolls.WindowOfTheBatch | relay-rust/src/relay/tcp_connection.rs:300-309 | inputs on which an acknowledgement routed since the poll makes the assertion fail |
| TcpInterests.WritableFindsWork | relay-rust/src/relay/tcp_connection.rs:252-278 | with interests up to date a socket event never closes a connection for having nothing to write |
| TcpInterests.DrainedThenBlockedCloses | relay-rust/src/relay/tcp_connection.rs:229-237 | with stale ones it does |
| TcpInterests.RemainingWindow | relay-rust/src/relay/tcp_connection.rs:113-123 | the remaining window is the window less the bytes in flight modulo 2^32, and never negative |
| TcpInterests.DataFits | relay-rust/src/relay/tcp_connection.rs:305-319 | every data packet read fits the window, and the MTU with headers of 40 bytes |
| TcpInterests.DataTakesWindow | relay-rust/src/relay/tcp_connection.rs:323-333 | and takes exactly its length out of the window |
| TcpInterests.ForgingSpoilsDeferred | relay-rust/src/relay/tcp_connection.rs:704-731 | an empty packet leaves the stored one intact if and only if none is deferred |
| TcpInterests.ForgingTripsPull | relay-rust/src/relay/stream_buffer.rs:76-80 | an intact packet never trips the buffer's assertion when pulled; a spoiled one does if and only if the room lies between the two lengths |
| TcpConnection.TcpConnection.SendToNetwork | relay-rust/src/relay/tcp_connection.rs:778-788 | the object does what the specification of a packet says |
| TcpConnection.TcpConnection.HandlePacket | relay-rust/src/relay/tcp_connection.rs:466-537 | the same for the dispatch on state, flags and sequence number |
| TcpConnection.TcpConnection.DoHandleFin | relay-rust/src/relay/tcp_connection.rs:619-649 | the same for the processing of a FIN |
| TcpConnection.TcpConnection.ProcessSend | relay-rust/src/relay/tcp_connection.rs:252-297 | the same for a write from the real ring buffer, however little is taken |
| TcpConnection.TcpConnection.ProcessReceive | relay-rust/src/relay/tcp_connection.rs:300-364 | the same for a read, direct or deferred |
| TcpConnection.TcpConnection.Process | relay-rust/src/relay/tcp_connection.rs:220-249 | the same for a socket event |
| TcpConnection.TcpConnection.Pull | relay-rust/src/relay/tcp_connection.rs:816-840 | the same for the delivery of a deferred packet |
| UdpConnections.UdpConnection.SendToNetwork | relay-rust/src/relay/udp_connection.rs:249-269 | a datagram is queued or dropped and queued datagrams are registered for |
| UdpConnections.UdpConnection.Process | relay-rust/src/relay/udp_connection.rs:117-141 | the front datagram goes to the socket whole, what is read goes to the phone whole, and no wake-up is lost; the assertion fails exactly on a writable event with an empty queue; the exact condition for stale interests |
| UdpConnections.ServePolled | relay-rust/src/relay/udp_connection.rs:117-141 | for an event polled before datagrams of the same batch, the assertion fails if and only if it is writable and they leave nothing in the queue; otherwise stale interests come if and only if the last datagram is written and the announced read blocks |
| UdpConnections.ServeAsked | relay-rust/src/relay/udp_connection.rs:117-141 | with no datagram in between, an event that was asked for never fails the assertion |
| UdpConnections.CollisionThenPanic | relay-rust/src/relay/datagram_buffer.rs:57-66 | one datagram of the batch that wraps onto the unread left end is enough to end the relay |
| UdpConnections.FiveDatagramsPanic | relay-rust/src/relay/datagram_buffer.rs:89-115 | five full datagrams of a new connection reach that |
| UdpConnections.SpuriousReadThenPanic | relay-rust/src/relay/datagram_buffer.rs:65-70 | two events that end the relay |
| Checksum.FoldIsCongruent | relay-rust/src/relay/tcp_header.rs:357-359 | end-around carries keep a sum modulo 65535, and zero only for zero |
| Checksum.ComplementVerifies | relay-rust/src/relay/tcp_header.rs:354-361 | a sum completed by its checksum folds to all ones |
| Checksum.FoldLoop | relay-rust/src/relay/tcp_header.rs:357-359 | the carry loop ends, with the fold of its input |
| Checksum.AddBytes | relay-rust/src/relay/tcp_header.rs:326-352 | high and low bytes summed apart give the sum of the words, odd lengths too, and stay far inside 32 bits |
| Headers.TcpChecksum | relay-rust/src/relay/tcp_header.rs:299-361 | for every header and payload of a 16-bit packet the optimised checksum is that of the words of pseudo-header, header and payload laid end to end, as section 3.1 of RFC 793 says, and a receiver's sum over those bytes verifies |
| Headers.PseudoSumIsSum | relay-rust/src/relay/tcp_header.rs:309-321 | the sum that the checksum starts from is that of the pseudo-header's bytes: both addresses, zero, 6, and the length |
| Headers.CoveredSum | relay-rust/src/relay/tcp_header.rs:299-355 | adding pseudo-header, header and payload apart is adding the words of all their bytes laid end to end |
| Headers.Ipv4Layout | relay-rust/src/relay/ipv4_header.rs:49-62 | every header laid out as section 3.1 of RFC 791 says is read back, 6 as TCP and 17 as UDP |
| Headers.TcpLayout | relay-rust/src/relay/tcp_header.rs:50-61 | every header laid out as section 3.1 of RFC 793 says is read back |
| Headers.UdpLayout | relay-rust/src/relay/udp_header.rs:41-46 | every header laid out as RFC 768 says is read back |
| Headers.ParseFitsWhere | relay-rust/src/relay/ipv4_packet.rs:29-40 | parsing stays inside the bytes if and only if they hold the IPv4 header's words and the fields of the transport |
| Checksum.WordSumPads | relay-rust/src/relay/tcp_header.rs:348-351 | an odd last byte counts as if a zero followed it |
| Headers.Ipv4Checksum | relay-rust/src/relay/ipv4_header.rs:193-207 | the header checksum of section 3.1 of RFC 791 verifies |
| Headers.SetFlagsParses | relay-rust/src/relay/tcp_header.rs:267-274 | setting the flags changes no other parsed field; cached and raw flags agree if and only if they fit nine bits |
| Headers.ShrinkOptionsParses | relay-rust/src/relay/tcp_header.rs:277-287 | cutting the options changes only the header length |
| Headers.SetTotalLengthParses | relay-rust/src/relay/ipv4_header.rs:163-166 | parsing reads back the total length, and every other field as before |
| Packetizers.ExchangePorts | relay-rust/src/relay/tcp_header.rs:248-253 | swapping the port bytes is swapping the parsed ports, and nothing else |
| Packetizers.ExchangeAddresses | relay-rust/src/relay/ipv4_header.rs:178-183 | the same for the addresses |
| Packetizers.ExchangeTwice | relay-rust/src/relay/ipv4_header.rs:178-183 | swapping twice restores the bytes |
| Packetizers.ShrunkIsCoherent | relay-rust/src/relay/tcp_connection.rs:145-163 | the shortened SYN headers are a well-formed reference with the cached data |
| Packetizers.CopyTurned | relay-rust/src/relay/packetizer.rs:37-57 | the copied headers parse as the reference with both directions turned round, other bytes equal |
| Packetizers.Packetizer.constructor | relay-rust/src/relay/packetizer.rs:33-66 | cached headers and raw bytes agree from the start |
| Packetizers.Packetizer.SetSequenceNumber | relay-rust/src/relay/tcp_header.rs:256-259 | they still agree after the setter, which writes its four bytes only |
| Packetizers.Packetizer.SetAcknowledgementNumber | relay-rust/src/relay/tcp_header.rs:261-265 | the same for the acknowledgement number |
| Packetizers.Packetizer.SetFlags | relay-rust/src/relay/tcp_header.rs:267-274 | they agree if and only if the flags fit nine bits |
| Packetizers.Packetizer.Build | relay-rust/src/relay/packetizer.rs:109-123 | the packet parses to the cached headers with its own length, both checksums verify, and only length and checksum bytes were rewritten |
| Packetizers.Packetizer.Packetize | relay-rust/src/relay/packetizer.rs:72-76 | a datagram becomes one sound packet with that payload; the length overflows exactly at 65536 bytes |
| Packetizers.Packetizer.PacketizeRead | relay-rust/src/relay/packetizer.rs:83-97 | the same for a read; no byte is the end of the stream |
| Packetizers.Answer | relay-rust/src/relay/packetizer.rs:33-123 | build and parse round trip: swapped addresses and ports, total length, payload, checksums, and every other header byte as in the reference |
| Packetizers.BuildOverDeferred | relay-rust/src/relay/packetizer.rs:109-131 | an empty packet built meanwhile takes the stored one's declared length, exactly when that one had a payload |
| Selectors.HandlersStay | relay-rust/src/relay/selector.rs:89-104 | nothing that handlers ask for takes a handler away during the batch |
| Selectors.RequestsAreKept | relay-rust/src/relay/selector.rs:55-97 | a registration adds exactly its handler, a deregistration that the system takes queues exactly its token, in order |
| Selectors.FreedIsVacant | relay-rust/src/relay/selector.rs:99-104 | freed tokens are vacant, and every other handler stays |
| Selectors.IssuedIsNew | relay-rust/src/relay/selector.rs:55-74 | no key issued in a batch was known to its poll |
| Selectors.Selector.RunHandlers | relay-rust/src/relay/selector.rs:110-123 | each event runs the handler that owned its token at poll time; the batch ends well if and only if no token was given up twice or without owner |
| Selectors.Selector.CleanRemovedTokens | relay-rust/src/relay/selector.rs:99-104 | succeeds if and only if the tokens are distinct and registered, and frees exactly those |
| Routers.SweepLeavesKept | relay-rust/src/relay/router.rs:176-197 | the reverse loop with swap-remove leaves exactly the multiset to keep |
| Routers.SwapRemoveMultiset | relay-rust/src/relay/router.rs:166 | swap-remove takes out exactly the element at the index |
| Routers.Router.FindIndex | relay-rust/src/relay/router.rs:146-150 | finds a connection with the id if and only if there is one |
| Routers.Router.SendToNetwork | relay-rust/src/relay/router.rs:52-93 | the packet reaches the connection of its id, opened if need be; it leaves the table exactly when it closed itself; ids, tokens and openness are kept |
| Routers.Router.OnReady | relay-rust/src/relay/udp_connection.rs:117-141 | a connection that closes itself is found in its router, and one already closed does nothing |
| Routers.Router.Remove | relay-rust/src/relay/router.rs:152-167 | finds its target if and only if it is in the table, and removes only it |
| Routers.Router.Clear | relay-rust/src/relay/router.rs:169-174 | every connection is closed and its token queued once, in order |
| Routers.Router.CleanExpired | relay-rust/src/relay/router.rs:176-197 | exactly the UDP connections idle for more than 120 seconds are closed, once each, and exactly the others stay |
| EventLoop.RelayIsSafe | relay-rust/src/relay/relay.rs:49-78 | over every run of the expectations on tokens, tables, clients and their deregistration only the last can fail, routers hold exactly the open connections of their client, and nothing is closed twice |
| EventLoop.EventReachesItsOwner | relay-rust/src/relay/selector.rs:110-119 | each event finds the handler that owned its token at poll time, whatever the clean-up and earlier events closed or opened |
| EventLoop.OpenLinksDiffer | relay-rust/src/relay/router.rs:95-114 | open connections have distinct tokens, and those of one client distinct ids |
| EventLoop.RouterIsExact | relay-rust/src/relay/router.rs:152-174 | a router's table is exactly the open connections of its client |
| EventLoop.DispatchKeeps | relay-rust/src/relay/tunnel_server.rs:103-114 | a handler's run keeps the invariant if and only if it does not close a client whose socket stays registered |
| EventLoop.CloseClientKeeps | relay-rust/src/relay/client.rs:167-176 | the end of a client closes each of its connections once and finds the client in the server's list |
| EventLoop.SweepRouterKeeps | relay-rust/src/relay/router.rs:176-197 | the clean-up keeps the invariant and sweeps the table |
| EventLoop.CleanKeeps | relay-rust/src/relay/selector.rs:99-104 | freeing the tokens takes no live handler away |
| EventEffects.PacketOpens | relay-rust/src/relay/router.rs:95-114 | a packet with a new id opens exactly one connection with that id, key and client, in the router and registered; one that fails at once leaves again |
| EventEffects.PacketDropped | relay-rust/src/relay/router.rs:78-82 | without a key for the new connection nothing changes |
| EventEffects.PacketForwarded | relay-rust/src/relay/router.rs:52-80 | a packet with a known id opens nothing, and closes exactly that connection if and only if it closes itself |
| EventEffects.PacketsInTurn | relay-rust/src/relay/client.rs:299-320 | the packets of one read are routed one after the other |
| EventEffects.EventCloses | relay-rust/src/relay/tcp_connection.rs:202-218 | an event closes exactly its own connection, if that closes itself and was open |
| EventEffects.ClientAccepted | relay-rust/src/relay/tunnel_server.rs:81-101 | one new client, open, listed and registered |
| EventEffects.EventServed | relay-rust/src/relay/selector.rs:110-119 | an event does what the handler of its token does, for each kind of handler: a client that ends closes exactly its connections and leaves the list |
| EventEffects.EventsInTurn | relay-rust/src/relay/selector.rs:110-119 | the events of a batch are served one after the other |
| EventEffects.TurnsInTurn | relay-rust/src/relay/relay.rs:57-77 | turns follow each other, and a run is one of the loop if and only if every event is of a token registered by then |
| EventEffects.Expectations | relay-rust/src/relay/selector.rs:99-119 | an event of an unknown token, and tokens given up twice or without owner, end the relay |
| EventEffects.TokensFreed | relay-rust/src/relay/selector.rs:99-104 | freeing takes exactly the handlers of the tokens given up |
| EventEffects.TurnServes | relay-rust/src/relay/relay.rs:57-77 | a turn cleans up when that is due, serves its events, and frees the tokens |
| EventEffects.CleanUpCloses | relay-rust/src/relay/tunnel_server.rs:116-120 | the clean-up closes exactly the expired open connections of all clients, once each, and gives up their tokens |
| TunnelProvider.ProviderIsSafe | app/src/main/java/io/github/innocent254/revbridge/RelayTunnelProvider.java:44-124 | over every interleaving attempts to connect exclude each other, each tunnel is connected and closed once at most, and openings come 5000 ms after every earlier failure and opening |
| TunnelProvider.StaleInvalidationIsHarmless | app/src/main/java/io/github/innocent254/revbridge/RelayTunnelProvider.java:104-108 | an invalidation closes only the tunnel it was called for, or the current one on close() |
| TunnelProvider.RunKeeps | app/src/main/java/io/github/innocent254/revbridge/PersistentRelayTunnel.java:42-86 | locks, tunnels and the log of failures stay consistent over every interleaving of senders, receivers and closers |
| TunnelProvider.OpensAfterCloseIff | app/src/main/java/io/github/innocent254/revbridge/PersistentRelayTunnel.java:83-86 | a closed provider without a tunnel opens another in some continuation if and only if a thread is past its look at `stopped` and not yet past the opening |
| TunnelProvider.RunStaysShut | app/src/main/java/io/github/innocent254/revbridge/PersistentRelayTunnel.java:42-44 | with no such thread a stopped provider opens nothing in any continuation |
| TunnelProvider.ConnectsNullIff | app/src/main/java/io/github/innocent254/revbridge/RelayTunnelProvider.java:76-79 | the tunnel just opened can be null when it is connected if and only if another thread stands where it can still invalidate it |
| TunnelProvider.FailuresAreRecorded | app/src/main/java/io/github/innocent254/revbridge/RelayTunnelProvider.java:76-108 | a connection that fails, and an invalidation that closes, record the time; where the thread goes from there, lock by lock, and that an invalidation with nothing to close changes nothing |
| TunnelProvider.LoneThreadConnects | app/src/main/java/io/github/innocent254/revbridge/RelayTunnelProvider.java:56-84 | an undisturbed thread gets the current tunnel, or opens and connects one of its own when it is the first or 5000 ms have passed since the last failure, and waits otherwise |
| TunnelProvider.ThreadsLoop | app/src/main/java/io/github/innocent254/revbridge/PersistentRelayTunnel.java:42-86 | threads go on until the provider is stopped, and invalidate the tunnel that failed them |
| TunnelProvider.SendersMeetNull | app/src/main/java/io/github/innocent254/revbridge/RelayTunnelProvider.java:71-79 | two senders alone reach that, without any close() |

## Left out

* Real sockets, readiness delivery, reference counting, logging and the choice of the initial sequence number: outcomes and the number are parameters.
* The Electron desktop application, command line, adb monitor and the Android service: process and platform plumbing.
* IP fragmentation, TCP options, retransmission timers and UDP checksums: the code does not implement them.
* `IPPacketOutputStream.write(int)`: the one-byte case of the write that is modelled.
* Allocation of client numbers and the accept error path of the server: only a client's key and its one close matter here.
- TcpConnection.TcpConnection.ProcessReceive: the packetizer's buffer is a value here (header fields, declared length, payload); its bytes are the subject of `Packetizers`.
- TcpConnection.TcpConnection.SendToNetwork: the client's queue is seen as its free room; the bytes queued are the subject of `Client`.
- TcpUpload.RunKeepsUpload: assumes a sender that obeys RFC 793, offsets within 2^32, and that no expected segment with FIN loses its payload; the last is exact by `TcpUpload.StepUploadsIff`.
- TcpSafety.RunKeepsCore: assumes the guard of ends of file, and steps whose assertions hold; both are exact, by `TcpSafety.StepCoreIff` and by `TcpSafety.WindowAfterWrite` with `TcpInterests.ForgingTripsPull`; `TcpPolls` carries both over runs of polls.
- TcpSafety.RunKeepsSafe: assumes besides that no payload is queued behind a FIN; exact by `TcpSafety.StepSafeIff`.
- TcpDownload.TilingFromStart: assumes the guard of ends of file for data as well; exact by `TcpDownload.StepTilesIff`.
- Client.Client.PushToNetwork: assumes that the phone sends IPv4 packets of at least 20 bytes; the readers assert the version, and a zero length is the subject of `Framing.AdvancesIffRestMoves`. A packet that parses with headers longer than itself makes the router's slices panic; routing takes it that the headers fit in the packet.
- Client.Client.Process: what closing does to the client's connections is the subject of `Routers` and `EventLoop`; after a failed assertion nothing more is said.
- EventLoop.RelayIsSafe: covers the expectations on tokens, the slab, the tables of connections and clients, and a client's deregistration; those inside handlers are stated beside them (`TcpPolls.PolledIsProcessable`, `UdpConnections.ServePolled`, `Client.Client.Process`).
- TcpPolls.PollsKeepCore: takes each event's assertions to hold; `TcpPolls.PolledIsProcessable` says exactly when they do.
- TunnelProvider.OpensAfterCloseIff: starts without a tunnel, as close() leaves it; `TunnelProvider.RunStaysShut` needs no such start.
- Routers.Router.CleanExpired: reads the clock once for the whole loop.
- Checksum.AddBytes: bounds the incoming sums by what the pseudo-header and one header can add up to.
- Packetizers.Packetizer.Build: takes the caller's promise that the length fits 16 bits; `Packetizers.Packetizer.Packetize` says exactly when a datagram breaks it.
- TunnelProvider.ProviderIsSafe: assumes a clock that never goes back; a close that throws is counted apart, since the tunnel then stays current.
