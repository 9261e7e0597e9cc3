# A model of a small TCP/IP stack, with proofs

This project models the TCP/IP stack of an AVR library: a stop-and-wait TCP with its
retransmission timer, the buffers and views everything is written through, the Internet
checksum, the Ethernet, IP and UDP layers, the DNS wire format, a Base64 codec, and the ARP
table with the timer registry it shares. `dafny verify dfyconfig.toml` checks all of it.

## How it is laid out

The TCP endpoint comes in two forms that are proved equal. `SocketModel` says what one socket does
as functions of its value, branch by branch; an application is a script, so that a callback may
send, close, abort and use the send buffer for something else, and each call on the socket may raise
further callbacks. `Sockets` is the same code as a class: fields updated in place, headers written
byte by byte into the shared IP payload buffer (`SegmentIO`, `TcpWire`), in-flight data kept in a view of a stash. Every method is proved to
do to the fields and buffers what the function of the same name does to their value, so the theorems
about values are theorems about the class:

- `SocketStream` puts two connected sockets on a network that is the set of everything emitted since
  the handshake: any of it may arrive at any time, any number of times or never, and damaged segments
  may arrive as well. `SocketProgress` shows that the stream moves when the network lets a
  retransmission and its answer through in each direction that waits, and that a clean handshake
  reaches the state the stream starts from. `SocketReads` adds the receive buffer of
  `BufferedSockets`.
- `SocketStates`, `SocketHandshake`, `SocketRetry`, `SocketTimeWait` and `SocketLimits` are about one
  socket in any history. `SocketKeeps` is the induction over nested callbacks they share.
- `SocketReactions` and `SocketEvents` say in numbers, field by field, what single segments and calls
  do and how often the application hears of it.
- `SocketShared` and `TcpHandler` are about many sockets over one send buffer and one stash, on
  values and on objects. `Registration` is the mutual recursion by which a socket and its handler
  find each other.

`Buffers`, `Checksums`, `HostOrder`, `Internet` and `NetStack` are the layers below; `Dns`,
`DnsResponse`, `DnsTruncation`, `Base64`, `Arp`, `ArpHandler` and `Timers` the rest. `Words` holds
bytes, words in network order and the wrap-around of the 16- and 32-bit types.

## Where the code does not do what it says

Each of these has its exact condition as a lemma.

- The comment at TCPHandler.cpp:29-31 says registration has the same result from either side. With
  room in the table but no timer to be had, the handler's side reports failure and leaves the socket
  linked and, if a host, listening (`Registration.EntryPointsAgreeIff`).
- A socket that such a failure left linked can be given a slot later without a stash of its own, and
  then shares one with another socket (`Registration.TwoShareAStash`).
- The comment at TCPHandler.cpp:36-42 promises TIME_WAIT, for four minutes, once both sides have
  closed. A FIN goes unnoticed outside ESTABLISHED, so TIME_WAIT is never entered unless close() is
  called in a callback that handles a FIN (`SocketTimeWait.NeverTimeWait`,
  `SocketTimeWait.TimeWaitReached`), and an orderly close leaves one side in FIN_WAIT_2 and the other
  in LAST_ACK, for ever without a timeout (`SocketReactions.OrderlyCloseHangs`,
  `SocketRetry.DeafEndsIff`). TIME_WAIT itself ends 240 units of the clock after it was entered, and
  the clock counts milliseconds (`SocketRetry.TimeWaitEndsIff`).
- Of a FIN with data only one of the two is ever counted: the data if the application takes it, the
  FIN if it refuses, which loses the data (`SocketEvents.FinWithDataHeard`).
- A connecting socket whose timeout passes never gives up, because close() in SYN_SENT changes no
  state and starts the attempts anew (`SocketRetry.ConnectEndsIff`).
- A waiting socket with a timeout may outlive eleven due ticks, since a late tick makes it close and
  count again (`SocketRetry.OpeningEndsIff`, `SocketRetry.ElevenTicksMayNotDo`); it ends within
  twice as many (`SocketRetry.EndsWithinRank`).
- A FIN carries whatever header length the last writer of the send buffer left. Sockets leave 5 or 6
  words, but a DNS query leaves 0, and below 5 words the receiver takes header bytes for data
  (`SocketFin.FinBringsDataIff`, `SocketFin.QueryThenClose`).
- A stash too small to give each socket a byte gives every socket all of it
  (`TcpHandler.SlotsApartIff`).
- `char` is signed, so a byte of 128 or more spoils the bytes before it in its group of three
  (`Base64.RoundTripIff`).

## Model

| member | source | states |
|---|---|---|
| `SocketStream.StreamIsPrefix` | Socket.cpp:733-814 | Two connected sockets that agree on sequence numbers, with any timeouts, over a network that loses, duplicates, reorders and damages segments and still holds those of the handshake; applications send, close and abort, also in callbacks: in every reachable state each side has accepted a prefix of what the other sent, in both directions at once, until one side sends 2^32 bytes or a new connection begins |
| `SocketStream.PeersStayInStep` | Socket.cpp:738-747 | In the same system, as long as a side has not sent a FIN, the peer's remoteSeq is that side's localSeq, or localSeq minus lastDataLength |
| `SocketStream.QuietMeansAccepted` | Socket.cpp:808-811 | In the same system a socket that is ESTABLISHED and not AWAITING_ACK has had every byte it sent accepted by the peer's application |
| `SocketStream.RunKeeps` | Socket.cpp:319-344 | The inductive invariant behind the three: positions of all segments ever emitted, contents of the stash, acknowledgements and FINs, over every run |
| `SocketStream.TakenIsNext` | Socket.cpp:743-777 | A segment with data whose sequence number is the expected one is the segment in flight: taking it completes the stream |
| `SocketStream.AckedIsAccepted` | Socket.cpp:737-741 | A segment that acknowledges localSeq proves that the peer has accepted everything sent |
| `SocketStream.ResendKeeps` | Socket.cpp:861-873 | A retransmission leaves localSeq as it was and repeats bytes of the stream at their own position |
| `SocketProgress.RoundTripCompletes` | Socket.cpp:471-480 | From any reachable state with data in flight and a peer that has none, one tick's retransmission and its answer, if the network lets both through, leave both ready to send with every byte sent accepted, without sequence wrap-around |
| `SocketProgress.Answered` | Socket.cpp:743-778 | The peer of a retransmission has the data already or takes it now, acknowledges all of it, leaves its own stream where it is, and is released itself exactly when the data is new and acknowledges its own |
| `SocketProgress.BothComplete` | Socket.cpp:733-778 | When both sides wait, whatever was lost, one exchange settles everything or one more in the other direction does |
| `SocketProgress.HandshakeAgrees` | Socket.cpp:632-731 | An undisturbed three-way handshake between a client and a listener ends with both established and agreeing on sequence numbers, its segments still in the network, which is where the stream theorems start |
| `SocketStates.StatesFollowTheDiagram` | Socket.cpp:414-439 | Over every run of calls, ticks and segments, with callbacks that send, close and abort, the state byte is LISTEN..CLOSED or ESTABLISHED with AWAITING_ACK, and the setState calls form a path of edges of figure 6 in section 3.2 of RFC 793, FIN-WAIT-1 to TIME-WAIT of section 3.9, or aborts to the idle state |
| `SocketStates.StepGood` | Socket.cpp:364-439 | One entry into a socket, with everything its callbacks do, extends that path |
| `SocketKeeps.FireKeeps` | Socket.cpp:142-150 | A property that each primitive effect of the public API keeps survives a callback that makes any number of nested API calls |
| `SocketKeeps.ForceCloseKeeps` | Socket.cpp:400-408 | The same for an abort, which itself raises callbacks |
| `SocketHandshake.SynsAgree` | Socket.cpp:482-496 | Without close() in the handshake and with timeout 0, all SYNs of one attempt have one sequence number and localSeq is one past it throughout SYN_SENT and SYN_RECEIVED |
| `SocketHandshake.EstablishedOnlyByAck` | Socket.cpp:700-731 | In the same runs a socket becomes established only on an intact segment that acknowledges exactly the SYN of its current attempt |
| `SocketRetry.AtMostTenRetries` | Socket.cpp:471-505 | When no tick comes after the timeout: a waiting socket on attempt n that nothing reaches repeats one segment, same sequence number and bytes, exactly 11 - n times and then resets and becomes idle; ten times for a first attempt |
| `SocketRetry.ClosingRetries` | Socket.cpp:498-505 | In FIN_WAIT_1 and CLOSING with any timeout: as many repetitions as there are ticks before the first late one, at most 11 - n, then a reset and the idle state |
| `SocketRetry.ClosingEndsIff` | Socket.cpp:452-460 | Exactly when such a socket is idle: its attempts are used up or some tick was late |
| `SocketRetry.OpeningEndsIff` | Socket.cpp:452-496 | Exactly when a socket in SYN_RECEIVED or awaiting an ACK is idle, for any timeout and ticks: without a late tick its attempts are used up; after the first late one it has closed, and eleven more ticks have come or one late again |
| `SocketRetry.ElevenTicksMayNotDo` | Socket.cpp:454-458 | A timeout and eleven due ticks after which a first attempt has not ended |
| `SocketRetry.EndsWithinRank` | Socket.cpp:444-513 | Whatever the timeout, a waiting socket other than a connecting one is idle within 12 - n due ticks when it has sent its FIN and within 23 - n before, attempts and phase being the measure |
| `SocketRetry.ConnectEndsIff` | Socket.cpp:452-458 | A connecting socket with a timeout gives up if and only if its timeout has not passed by the tick that would end the last attempt |
| `SocketRetry.LateConnectNeverEnds` | Socket.cpp:364-383 | Once the timeout has passed, every tick of a connecting socket calls close(), which sends one more FIN, moves localSeq on, starts the attempts anew and leaves it in SYN_SENT for ever |
| `SocketRetry.TimeWaitEndsIff` | Socket.cpp:507-512 | Over any sequence of ticks, a socket in TIME_WAIT without a timeout is idle if and only if some tick came 240 or more after it entered, and otherwise exactly as it was; with a timeout also by a late tick |
| `SocketRetry.DeafEndsIff` | Socket.cpp:444-513 | In FIN_WAIT_2 and LAST_ACK, where nothing is repeated, ticks change nothing until one is late, and that one ends the connection; without a timeout none does |
| `SocketRetry.TickLeavesAlone` | Socket.cpp:462-472 | A tick that is not late leaves an idle, a ready or a just stamped socket as it is |
| `SocketRetry.LateTickCloses` | Socket.cpp:452-460 | A late tick makes a socket that is open on its side close, FIN and state change, instead of repeating anything |
| `SocketReactions.ResetEndsIff` | Socket.cpp:614-630 | In every state but LISTEN, SYN_SENT and CLOSED, a reset of admissible numbers ends the connection if and only if it carries the expected sequence number; otherwise it changes nothing but the window, and nothing goes out either way |
| `SocketReactions.ResetRefusesIff` | Socket.cpp:616-619 | While connecting, if and only if it acknowledges the SYN or carries the expected number |
| `SocketReactions.ResetWithCallbacks` | Socket.cpp:614-630 | The same whatever callbacks do: without such a number nothing happens, with it the first state change is to the idle state |
| `SocketReactions.NothingExpected` | Socket.cpp:559-581 | The reset that answers a segment on a closed or listening socket, with the numbers section 3.4 of RFC 793 asks for |
| `SocketReactions.AckedTooMuch` | Socket.cpp:583-592 | The reset that answers an acknowledgement of something not sent before the connection is up |
| `SocketReactions.BeyondExpected` | Socket.cpp:594-612 | In the synchronized states such an acknowledgement, and a segment beyond what is expected, get a bare acknowledgement of where things stand |
| `SocketReactions.AckMoves` | Socket.cpp:817-829 | Which state an acknowledgement of everything sent leads to from each state outside the data phase; nothing goes out |
| `SocketReactions.OtherwiseReset` | Socket.cpp:831-834 | Everything else in these states, but TIME_WAIT, ends the connection with a reset |
| `SocketReactions.OutOfOrderAnswered` | Socket.cpp:743-747 | In the data phase a segment that is not the next gets a bare acknowledgement of what is expected and changes nothing else |
| `SocketReactions.OrderlyCloseHangs` | TCPHandler.cpp:36-42 | Both sides of a quiet connection close and every segment arrives: the second FIN goes unnoticed, one side stays in FIN_WAIT_2 and the other in LAST_ACK, and without a timeout no ticks ever end it, contrary to the comment |
| `SocketTimeWait.NeverTimeWait` | TCPHandler.cpp:36-42 | Over every run of calls, ticks and segments in which no callback calls close() while a FIN is being handled, the socket never enters CLOSING or TIME_WAIT |
| `SocketTimeWait.TimeWaitReached` | Socket.cpp:789-796 | The way there: onDataReceived closes while data and FIN of one segment are being handled, and an acknowledgement of everything follows |
| `SocketTimeWait.ClosesInCallback` | Socket.cpp:364-383 | A callback that closes: FIN_WAIT_1 and one number further when it returns |
| `SocketEvents.ConnectIs` | Socket.cpp:242-271 | Every field after connect(): a SYN, first attempt, clock, SYN_SENT, from CLOSED only |
| `SocketEvents.ListenerAnswers` | Socket.cpp:632-669 | Every field after a SYN at a listener: peer's number and segment size, the answer, first attempt, clock |
| `SocketEvents.CrossedSyns` | Socket.cpp:671-698 | Every field after a SYN that crosses ours |
| `SocketEvents.SynAnsweredUp` | Socket.cpp:700-731 | The answer to our SYN is acknowledged before the state changes, and the application hears twice, that the connection is up and that it may send |
| `SocketEvents.SendsInCallback` | Socket.cpp:142-150 | A callback that sends: the data goes out before the callback returns, under the rules of SocketLimits.SendIff |
| `SocketEvents.AckHeard` | Socket.cpp:414-439 | How many callbacks an acknowledgement outside the data phase raises, and what it leaves |
| `SocketEvents.CloseHeard` | Socket.cpp:364-383 | close() in every state: its FIN, next state and one callback, or nothing |
| `SocketEvents.AbortHeard` | Socket.cpp:400-408 | forceClose() in every state: reset, idle state and callbacks |
| `SocketEvents.EndByResetHeard` | Socket.cpp:614-630 | What the application hears of a peer's reset, in each state |
| `SocketEvents.DataHeard` | Socket.cpp:749-813 | Data in order is offered once; taken, it moves the expected number by its length, joins the stream and restarts the clock, refused, it moves nothing; the answer comes after, and last the release of a waiting sender |
| `SocketEvents.FinHeard` | Socket.cpp:780-813 | A FIN without data: its acknowledgement, CLOSE_WAIT, one callback |
| `SocketEvents.FinWithDataHeard` | Socket.cpp:762-813 | A FIN with data: if the data is taken the FIN's own number is not counted, and if it is refused only that is |
| `SocketLimits.SendIff` | Socket.cpp:319-344 | send() sends if and only if there is data, the socket is established and not waiting, and the data fits the peer's window, the stash and the peer's segment size if known; what every field is then; otherwise nothing changes |
| `SocketLimits.DataWithinLimits` | Socket.cpp:173-184 | Over every run, callbacks included, each new data segment is no longer than the window of the last segment that had arrived and than the segment size the connection's SYN announced |
| `SocketShared.StashHoldsPayload` | Socket.cpp:333-339 | Any number of sockets over one stash, in any interleaving of anything they may do, with other writers of the send buffer: each socket that awaits an ACK has exactly its in-flight payload at the start of its own slice |
| `SocketShared.RetransmitsTheSame` | Socket.cpp:861-873 | In every such run a due tick sends again a segment that went out before, same sequence number and bytes, and leaves localSeq and the whole shared stash as they were |
| `SocketShared.OthersUntouched` | TCPHandler.cpp:101-106 | A step of one socket changes nothing another finds in the shared buffers except byte 12 of the send buffer |
| `SocketShared.NestedIsSequence` | Socket.cpp:142-150 | A callback of one socket that calls another is a sequence of turns: each steps from what it had when the first was entered |
| `SocketShared.StepHolds` | Socket.cpp:319-344 | Every entry into a socket keeps the in-flight payload in its stash, also with close(), resets and arbitrary segments |
| `SocketShared.After` | TCPHandler.cpp:197-202 | The state after any sequence of turns of the sockets, with the invariant that holds in it |
| `SocketFin.FinBringsDataIff` | Socket.cpp:914-916 | A FIN, whose byte 12 is what the last writer of the send buffer left, makes a connected receiver accept nothing if and only if that header length is at least 5 words, and otherwise the header from that length on |
| `SocketFin.CloseAfterOtherWrite` | Socket.cpp:364-374 | A write of another user into the send buffer and a close() give a FIN with that user's byte 12 |
| `SocketFin.QueryThenClose` | UDPHandler.cpp:108-134 | After a DNS query, which leaves 0 in byte 12, the FIN of a closing socket makes the peer's application take its 20 header bytes as data |
| `SocketReads.ReadsArePrefix` | BufferedSocket.cpp:37-73 | Two connected BufferedSockets whose buffers take data by their own rule, other callbacks being free: for every interleaving of arrivals and reads, what an application has read is a prefix of what the peer sent, the bytes the socket accepted are those read followed by those buffered, and the buffer is never overfull |
| `SocketReads.StepTakes` | Socket.cpp:766-777 | Whatever callbacks do, a socket accepts exactly the data it offered to onDataReceived when that took it, and nothing otherwise |
| `BufferedSockets.BufferedSocket.OnDataReceived` | BufferedSocket.cpp:37-50 | A segment is refused exactly when it is longer than the window; otherwise its bytes are appended to what is buffered |
| `BufferedSockets.WindowCheckIff` | BufferedSocket.cpp:39-40 | The 16-bit check says so if and only if the sum of buffered and new bytes fits 16 bits |
| `BufferedSockets.BufferedSocket.Read` | BufferedSocket.cpp:56-69 | Returns the oldest bytes, as many as asked for or available, and moves the rest to the front, for every capacity including 0 and 1 |
| `BufferedSockets.BufferedSocket.MoveDown` | BufferedSocket.cpp:63-64 | The memmove over overlapping ranges |
| `BufferedSockets.BufferedSocket.ApplicationWindowSize` | BufferedSocket.cpp:71-73 | Buffered bytes plus window are the capacity |
| `Sockets.Socket.HandleSegment` | Socket.cpp:515-834 | On the fields and buffers of a Socket: what is read from the segment's bytes, which address the checksum uses, when the remote port is learnt, and a new state equal to the model's; if the one's-complement sum of the bytes with their pseudo-header is not 0xFFFF, only the peer's window changes; the peer's address is taken from a pure SYN at a listener and from nothing else, its port from such a SYN if it is intact |
| `Sockets.Socket.Handle` | Socket.cpp:632-834 | The branches of handleSegment, in order, on an arrival already read |
| `Sockets.Socket.HandleUnacceptable` | Socket.cpp:561-630 | Segments that get a reset or a bare ACK, and incoming resets |
| `Sockets.Socket.HandleEstablished` | Socket.cpp:733-814 | Data, FIN and the clearing of AWAITING_ACK after the callbacks |
| `Sockets.Socket.TakeFin` | Socket.cpp:780-804 | The answer to a FIN, the next state and onRemoteClosed |
| `Sockets.Socket.Offer` | Socket.cpp:766-774 | onDataReceived, and what follows when the data is taken |
| `Sockets.Socket.Acknowledged` | Socket.cpp:817-829 | An ACK of localSeq outside ESTABLISHED |
| `Sockets.Socket.HandleReset` | Socket.cpp:614-630 | On the class, an incoming reset does what SocketReactions.ResetEndsIff says of the model |
| `Sockets.Socket.CheckState` | Socket.cpp:444-513 | The timer entry on the class: timeout, retry or time-wait expiry as in the model, whose ticks SocketRetry describes, and the in-flight invariant afterwards |
| `Sockets.Socket.Resend` | Socket.cpp:474-505 | Rewinding localSeq and sending the segment of the current state again |
| `Sockets.Socket.ResendData` | Socket.cpp:861-873 | The in-flight data copied back through two views and sent under its old sequence number; fails when the stash cannot hold it |
| `Sockets.Socket.SendBuffered` | Socket.cpp:319-344 | send(length): every refusal, also of more than the send buffer holds, the result, the copy of the send buffer into the stash, and the segment; the limits are those of SocketLimits.SendIff |
| `Sockets.Socket.Send` | Socket.cpp:346-355 | send(data): data longer than the send buffer is refused unchanged; when it succeeds |
| `Sockets.Socket.OtherWrite` | UDPHandler.cpp:108-134 | A write of another user of the IP payload buffer changes nothing a socket knows but byte 12 |
| `Sockets.Socket.KeepCopy` | Socket.cpp:330-336 | The data lies at the start of the stash, the rest of the stash and everything around it unchanged |
| `Sockets.Socket.SendSegment` | Socket.cpp:875-932 | The header in the send buffer is the segment meant, with its numbers, control bits and window at the offsets of section 3.1 of RFC 793 and bytes that sum to 0xFFFF with their pseudo-header, and state, lastDataLength and localSeq advance |
| `Sockets.Socket.Transmit` | Socket.cpp:957-978 | The segment that goes out is what the bytes of the send buffer say |
| `Sockets.Socket.Connect` | Socket.cpp:242-271 | Only from CLOSED: a SYN, the first attempt, SYN_SENT and the new local port |
| `Sockets.Socket.Close` | Socket.cpp:364-383 | close(): a FIN and its state change, unless already closed locally |
| `Sockets.Socket.ForceClose` | Socket.cpp:400-408 | A reset unless in TIME_WAIT, then the idle state |
| `Sockets.Socket.Reset` | Socket.cpp:385-397 | A reset segment, with ACK exactly when it acknowledges remoteSeq, and onReset |
| `Sockets.Socket.SetState` | Socket.cpp:414-439 | The state, its time and the events of CLOSED and ESTABLISHED |
| `Sockets.Socket.Fire` | Socket.cpp:142-150 | A callback in which the application sends, closes and aborts |
| `SegmentIO.WriteSegment` | Socket.cpp:896-978 | Header fields, option and checksum written at their offsets leave bytes that read back as the segment, addressed, sealed, and with every number where section 3.1 of RFC 793 has it |
| `SegmentIO.ReadArrival` | Socket.cpp:523-544 | Flags, numbers, window, payload and option read from a view of the bytes, and the checksum verdict that TcpWire.ValidIff characterizes |
| `TcpWire.SegmentArrives` | Socket.cpp:934-955 | A segment without SYN and with at least 5 words of header, checksummed by its sender, is received as it was emitted |
| `TcpWire.SynArrives` | Socket.cpp:642-656 | A SYN is received with its maximum segment size |
| `TcpWire.SegmentCrosses` | IPHandler.cpp:240-282 | Through Ethernet and IP, with padding and in a larger receive buffer, the peer's socket receives the segment emitted |
| `TcpWire.ValidIff` | Socket.cpp:539-544 | A segment counts as intact if and only if its bytes with the pseudo-header of RFC 793 sum to 0xFFFF in one's complement and its checksum field is not 0xFFFF |
| `TcpWire.AlteredSegmentIff` | Socket.cpp:539-544 | A sealed segment with one aligned word changed on the way is taken for intact if and only if the word is not the checksum and changed between 0x0000 and 0xFFFF |
| `TcpWire.DamagedBringsWindow` | Socket.cpp:523-544 | A segment whose bytes do not sum to 0xFFFF changes the peer's window and nothing else |
| `TcpHandler.SlotsApartIff` | TCPHandler.cpp:87-106 | The stash slices of two sockets are disjoint if and only if a slice is at least one byte long; a length of 0 gives every socket the whole buffer |
| `TcpHandler.LargestStash` | TCPHandler.cpp:86-94 | The size of a stash is the largest with which all stashes fit the outbound buffer and, with one header, an IP packet |
| `TcpHandler.Partition` | TCPHandler.cpp:87-106 | The constructor's views are exactly those slices |
| `TcpHandler.HandleTimer` | TCPHandler.cpp:197-202 | The socket objects in a table with empty slots, sharing both buffers, all take the tick once in slot order, and what they have become is what a run of the shared-stash model makes of them |
| `TcpHandler.Check` | TCPHandler.cpp:197-202 | checkState of one socket object leaves what every other finds in the shared buffers as it was, except byte 12 |
| `Registration.EntryPointsAgreeIff` | TCPHandler.cpp:29-31 | The result and the state are the same from either side if and only if the table is full or a timer is running or to be had, contrary to the comment, which says they always are |
| `Registration.BySocketJoins` | Socket.cpp:194-218 | From the socket's side an unregistered socket ends in exactly one slot, pointing back, with that slot's stash, LISTEN if a host; or nothing has changed |
| `Registration.ByHandlerJoins` | TCPHandler.cpp:133-174 | The same from the handler's side, except that with room but no timer the call fails and the socket stays linked |
| `Registration.RegisteringAgain` | Socket.cpp:196-197 | Registering a registered socket again changes nothing |
| `Registration.RegisteredElsewhere` | Socket.cpp:194-197 | A socket of another handler is refused from either side, and nothing changes |
| `Registration.LeftLinked` | TCPHandler.cpp:133-174 | A socket that a failed registration left linked: its own side calls it registered though it has no slot, and the handler's side gives it a slot but leaves its stash as it was |
| `Registration.TwoShareAStash` | TCPHandler.cpp:144-163 | So two registered sockets can come to hold one stash |
| `Registration.TCPHandler.RegisterSocket` | TCPHandler.cpp:133-174 | The mutually recursive method ends and has that outcome for every table, timer and socket |
| `Registration.Endpoint.RegisterTCPHandler` | Socket.cpp:194-218 | Its counterpart on the socket's side |
| `Registration.TCPHandler.GetStash` | TCPHandler.cpp:124-131 | The slot of a socket, if it has one |
| `Buffers.OffsetBuffer.CopyTo` | OffsetBuffer.cpp:76-96 | For chains of any depth and a length of at least 1, the root-to-root copy succeeds and leaves memory exactly as the ascending byte copy of ByteCopy does, overlap included; a length of 0 asks for the whole view, and fails where ByteCopy would copy less |
| `Buffers.OffsetBuffer.CopyToRoot` | OffsetBuffer.cpp:98-102 | The same to a destination that is a root |
| `Buffers.OffsetBuffer.ByteCopy` | Buffer.cpp:55-73 | The byte-by-byte copy of the base class through two views: when it succeeds and what memory becomes, also within one root; a length of 0 copies as much as both hold |
| `Buffers.MemBuffer.CopyTo` | Buffer.cpp:55-73 | The same between two roots |
| `Buffers.CopiedApart` | Buffer.cpp:66-70 | Between two memories the ascending copy moves the bytes |
| `Buffers.AscendingMoves` | Buffer.cpp:66-70 | Within one memory a copy downwards, or between disjoint ranges, moves the source and changes nothing else |
| `Buffers.AscendingRepeats` | Buffer.cpp:66-70 | An overlapping copy upwards repeats the first bytes of the source |
| `Buffers.EffectiveIff` | Buffer.cpp:55-60 | A length of 0 asks for the most that source and destination both hold |
| `Buffers.OffsetBuffer.Reinit` | OffsetBuffer.cpp:8-32 | Offset and length clipped to the inner buffer, and whether that was needed |
| `Buffers.OffsetBuffer.GetRootBufferOffset` | OffsetBuffer.cpp:46-56 | The sum of all offsets down the chain is where the view starts in the root |
| `Buffers.OffsetBuffer.GetRootBuffer` | OffsetBuffer.cpp:38-44 | The root at the bottom of the chain |
| `Buffers.OffsetBuffer.Write` | OffsetBuffer.cpp:59-65 | A bounded write reaches the root at the view's place and nowhere else |
| `Buffers.OffsetBuffer.Read` | OffsetBuffer.cpp:67-72 | A bounded read shows the root's bytes |
| `Buffers.MemBuffer.Write` | MemBuffer.cpp:30-34 | A bounded write into the array |
| `Checksums.StampedVerifies` | Buffer.cpp:80-114 | Storing the checksum makes the one's-complement sum of all words 0xFFFF, for even and odd lengths, and computing it again gives the stored word (section 1 of RFC 1071) |
| `Checksums.FoldMeaning` | Buffer.cpp:104-108 | Folding keeps the value modulo 65535 and maps only 0 to 0 |
| `Checksums.VerifiesIff` | Buffer.cpp:80-114 | A stored word is found right if and only if all words sum to 0xFFFF in one's complement and it is not 0xFFFF where 0 is meant |
| `Checksums.ComputeChecksum` | Buffer.cpp:80-114 | Over a view, the 32-bit accumulator never wraps for a pseudo-header sum below 2^31, the fold loop ends, and the result is the checksum |
| `HostOrder.SwapIsNetworkOrder` | Host.h:14-17 | The swap macros undo themselves and put values into memory in network order |
| `Internet.DatagramArrives` | UDPHandler.cpp:199-240 | A datagram of any length, in a frame that may be padded, passes both checksums and reaches the listener with its payload, source address and port |
| `Internet.AlteredHeader` | IPHandler.cpp:246-251 | A header of ours with one aligned word changed still verifies if and only if the word is not the checksum and changed between 0x0000 and 0xFFFF |
| `Internet.AlteredIsDiscarded` | IPHandler.cpp:240-251 | Every other change makes the packet be discarded, whatever follows the header |
| `Internet.IpDelivers` | IPHandler.cpp:253-280 | A packet of ours is handed on with its source, protocol and payload even when bytes follow it |
| `Internet.AlteredVerifiesIff` | Buffer.cpp:80-114 | For anything that carries its checksum: one changed aligned word goes unnoticed if and only if it is not the checksum and changed between 0x0000 and 0xFFFF |
| `Internet.PseudoCounted` | UDPHandler.cpp:181-197 | Adding up the pseudo-header beforehand is the same as having its twelve bytes in front of the datagram |
| `Internet.IpReceivedIff` | IPHandler.cpp:240-282 | Exactly which bytes the IP layer hands on, and which part of them: a total length without payload hands on all that follows the header |
| `Internet.UdpReceivedIff` | UDPHandler.cpp:199-240 | Exactly which datagrams reach a listener: no checksum or one that makes the words sum to 0xFFFF, a length that fits and a known port; and with which part of them |
| `Internet.FrameReceivedIff` | EtherControl.cpp:216-240 | Exactly which frames are handed to IP, and which part |
| `Internet.DeliveredIff` | IPHandler.cpp:253-280 | A listener is reached exactly by a datagram in an IP packet of protocol 17 in an IP frame |
| `NetStack.UDPHandler.SendDatagram` | UDPHandler.cpp:108-179 | The frame written through three nested views of one buffer is the frame meant, with every field of the three headers at its offset and both checksums summing to 0xFFFF; refused exactly when the datagram does not fit or there is no route |
| `NetStack.IPHandler.SendPacket` | IPHandler.cpp:180-217 | In front of the payload already in the buffer, the IP header as section 3.1 of RFC 791 lays it out, with a checksum that makes it sum to 0xFFFF, in a frame to the route; refused exactly when it does not fit or there is no route |
| `NetStack.EtherControl.SendFrame` | EtherControl.cpp:171-201 | In front of the payload already in the buffer: destination at 0, own address at 6, type at 12; refused exactly when it does not fit |
| `NetStack.HandleDatagram` | UDPHandler.cpp:199-240 | The datagram layer's checks and the delivery |
| `NetStack.HandlePayload` | IPHandler.cpp:240-282 | The IP layer's checks, handing a UDP packet on |
| `NetStack.ProcessFrame` | EtherControl.cpp:216-240 | The Ethernet layer on a frame in the receive buffer |
| `Base64.RoundTripIff` | Base64.cpp:70-115 | Decoding the encoding of a string gives the string back if and only if no byte of 128 or more follows, in its group of three, a byte other than 0xFF; every string of bytes 1..127 qualifies |
| `Base64.StandardIff` | Base64.cpp:16-68 | Every character of the encoding, alphabet, groups of bits and padding, is that of section 4 of RFC 4648 if and only if the same condition holds |
| `Base64.CodecIsAlphabet` | Base64.cpp:7-14 | The codec table is the 64 characters of the standard |
| `Base64.Lengths` | Base64.cpp:18-29 | The output has 4 times the rounded-up third of the input's length, up to 8191 chars |
| `Base64.LengthsIff` | Base64.cpp:18-29 | The 16-bit length arithmetic gives that length exactly up to 8191 chars |
| `Base64.Encode` | Base64.cpp:16-68 | The loop writes exactly the encoding, padding included |
| `Base64.Decode` | Base64.cpp:70-115 | In place or into a fresh buffer, despite the overlap, the same bytes come out; refused exactly when the length is no multiple of 4 |
| `Base64.ByteComesBack` | Base64.cpp:33-65 | Which byte comes back at each position, with the sign extension of char |
| `Dns.QuestionComesBack` | DNSHandler.cpp:91-150 | For every name of labels of 1 to 63 bytes the printed question decodes to the name, is 12 + strlen + 6 bytes long with the header, and the skip loop stops exactly at its end |
| `Dns.RequestReadsBack` | DNSHandler.cpp:79-150 | A whole request reads back as its number, a recursive query with one question and nothing else, the labels, type 1 and class 1 |
| `Dns.WriteName` | DNSHandler.cpp:102-139 | The printer's loop writes the encoded name, backpatching the lengths |
| `Dns.WriteRequest` | DNSHandler.cpp:62-153 | Exactly when a request fits and is written, what its bytes are and its length |
| `DnsResponse.ResponseWalked` | DNSHandler.cpp:311-366 | For every well-formed response of plain questions and answers with plain or compressed names (sections 4.1.2 to 4.1.4 of RFC 1035), the walker stores the address and time to live of the first answer whose data is 4 bytes long |
| `DnsResponse.ChosenIsFirst` | DNSHandler.cpp:351-364 | That answer has 4 bytes of data and none before it has |
| `DnsTruncation.TruncatedResponse` | DNSHandler.cpp:311-366 | The same response cut short after any number of bytes: nothing is stored before the questions are whole, whole answers count as ever, and of the last one its time to live once that has arrived and as many bytes of the address as there are |
| `DnsTruncation.SkipNameIff` | DNSHandler.cpp:325-342 | In any packet the walker finds an answer's name to end at x if and only if labels of at most 191 bytes lead to a zero or a pointer just before x |
| `DnsTruncation.SkipLabelsIff` | DNSHandler.cpp:311-322 | The same for a question's name, whose labels may be of any length and which knows no pointers |
| `DnsResponse.WalkResponse` | DNSHandler.cpp:311-366 | The walker's loops on any packet, malformed ones included, do what the specification function does |
| `Arp.TableIsMap` | ARPHandler.cpp:182-196 | Over every run with real addresses: at most one row per address, lookups give the last accepted reply, a pending row has had exactly its count of requests, at most 5, and a live timer |
| `Arp.ResolvedStays` | ARPHandler.cpp:166-175 | A resolved address stays resolved, and only a reply for it changes its hardware address |
| `Arp.TickAsksOnce` | ARPHandler.cpp:267-301 | A tick asks once for the address of a row that is due and not given up, and not at all for that of any other row |
| `Arp.TickAsksNobody` | ARPHandler.cpp:267-301 | A tick does not ask for an address that is in no row |
| `Arp.LookupEndsIff` | ARPHandler.cpp:260-309 | Over any ticks, a pending address is asked for once more at each lapse of 250 ms since its last request, five times in all, and forgotten at the next lapse; ticks in between change nothing |
| `Arp.RequestAsksIff` | ARPHandler.cpp:200-258 | A request goes out, and one row is filled in, if and only if the address is not being looked up, has a row or finds a free one, and there is a timer or one to be had; otherwise nothing changes |
| `Arp.RequestTakenIff` | ARPHandler.cpp:200-258 | Success is reported exactly then and for an address that is being looked up |
| `Arp.ReplyTakenIff` | ARPHandler.cpp:164-179 | A reply resolves the row of its sender if and only if there is one, and touches no other |
| `Arp.TimerReturnedIff` | ARPHandler.cpp:303-308 | A tick gives the timer back if and only if it finds nothing to look up |
| `ArpHandler.ARPHandler.GetMACAddress` | ARPHandler.cpp:182-196 | The loop finds the row of the address and returns its hardware address if resolved |
| `ArpHandler.ARPHandler.HandleReply` | ARPHandler.cpp:164-179 | The first row with the address becomes resolved; without one nothing changes |
| `ArpHandler.ARPHandler.RequestMACAddress` | ARPHandler.cpp:200-258 | A pending row is left alone, a resolved one asked for again, an unknown address takes the first free row if a timer can be had; and when it reports success |
| `ArpHandler.ARPHandler.HandleTimer` | ARPHandler.cpp:260-309 | Every due row is retried or forgotten, and the timer is returned when nothing was pending |
| `Timers.TimerRegistry.RegisterTimer` | EtherControl.cpp:76-89 | The first free slot, or 0 exactly when the count is at capacity; the count stays the number of occupied slots |
| `Timers.TimerRegistry.UnregisterTimer` | EtherControl.cpp:91-98 | The slot becomes free and the count stays right, also for a slot that was free |
| `Timers.FullIff` | EtherControl.cpp:76-89 | The count is at capacity exactly when every slot is occupied |
| `Timers.RegisteredIff` | EtherControl.cpp:76-98 | A registration takes the first free slot and disturbs no other, fails exactly when none is free, and giving the timer back restores the registry |

## Left out

- Sockets.Socket.CheckState: requires the in-flight invariant of SocketShared, which every reachable socket has (SocketShared.StepHolds).
- Sockets.Socket.Transmit: the route is taken as known; without one the source asks ARP and sends nothing, which counts as a loss in the network.
- SocketStream.StreamIsPrefix: other users of the send buffer must leave at least 5 words in byte 12, since below that a FIN brings header bytes as data (SocketFin.FinBringsDataIff); and a socket that has gone back to listening does not take up a SYN again within a run.
- SocketProgress.RoundTripCompletes: requires that sequence numbers do not pass 2^32, since the code compares them with a plain greater-than; so does BothComplete; the safety theorems do not.
- SocketProgress.HandshakeAgrees: a handshake that segments of an earlier connection disturb is not followed to its end.
- SocketShared.OthersUntouched: byte 12 of the send buffer is shared by all sockets, and only a FIN reads it.
- SocketReads.ReadsArePrefix: takes the advertised window as given by the application; that buffered bytes and window make up the capacity is stated on BufferedSockets.BufferedSocket.ApplicationWindowSize.
- BufferedSockets.BufferedSocket.OnDataReceived: requires that the 16-bit sum of its check does not wrap, because beyond that the copy leaves the buffer (BufferedSockets.WindowCheckIff).
- Checksums.ComputeChecksum: does not model the wrap of the signed loop counter beyond 32767 bytes.
- Base64.Encode: input up to 8191 bytes, beyond which length times 8 wraps in 16 bits (Base64.LengthsIff).
- Base64.Decode: input up to 10920 characters, beyond which length times 6 wraps in 16 bits.
- Buffers.OffsetBuffer.CopyTo: a copy of length 0 from a view of size 0 is excluded, since the root would then copy everything; starts and length must not pass 65535 together, where the bounds checks wrap; so for ByteCopy.
- DnsResponse.WalkResponse: packets up to 65280 bytes, beyond which the 16-bit offset may wrap.
- Registration.Endpoint.RegisterTCPHandler: has the fields of Socket that registration uses, and leaves out the creation of the send buffer view.
- Arp.TableIsMap: excludes the address 0.0.0.0, which marks free rows; the ARP packet itself is not written or parsed.
- ArpHandler.ARPHandler.RequestMACAddress: the sending of the request itself is taken to succeed.
- NetStack.HandlePayload: only UDP is handed on; the registries of protocols and listeners are a set of ports.
- NetStack.ProcessFrame: only IP frames are handed on, and processTimers is not called; a tick is an event here.
- getMACForIP with its subnet arithmetic: a route is a parameter.
- The stash and the send buffer lie in different root memories; the receive buffer is read before the branches, which write only the other two.
- Name resolution of sockets (RESOLVING, UNKNOWN_HOST, connectOnResolution), whose state values alias others in the low nibble.
- Socket teardown: unregisterTCPHandler and destructors, and demultiplexing by ports in TCPHandler::handlePacket.
- The DNS cache: resolve, expiry and its timer.
- SMTPClient and HTTPClient: string assembly over the socket.
- The ENC28J60 driver and its buffer: DMA and chip behaviour are not visible in the code; MemBuffer is the root of every chain.
- Printing, debug output, malloc failures, packet-loss emulation, IP fragmentation and TCP options other than the maximum segment size.
