# Verification of the tun2http session engine

The native layer of the app is a user-space TCP endpoint. It reads the raw segments of local
apps from the tun device, queues them per session, passes their bytes on to an ordinary socket
and answers with segments of its own. This project models that engine, the session list with
its timer loop, the checksum and packet code, the TLS server name parser and the route list of
the VPN, and proves what they promise.

`dafny verify dfyconfig.toml` checks everything.

## How the model is built

| module | part of the program |
|---|---|
| `Serial`, `Octets`, `Powers` | 32-bit sequence numbers and `compare_u32`; byte strings; shifts |
| `TcpTypes`, `TcpSpec` | `struct tcp_session` as a value, and one transition function per function of `tcp.c` |
| `TcpSession` | the session as an object: each method updates the fields in place as the C function does and is proved to make the transition of the same name in `TcpSpec` |
| `ForwardList` | the linked list of queued segments, spliced in place |
| `TcpFrame`, `TcpInvariant` | what each call leaves alone; counts, descriptor, state order, over every run |
| `TcpStream`, `TcpDelivery`, `TcpFin` | client to socket: one contiguous stream, completeness, jams, windows, the FIN |
| `TcpReadStream`, `TcpSendSide`, `TcpAcks` | socket to client: one contiguous stream; windows and acknowledgements |
| `TcpEvents`, `TcpPackets` | exactly what each kind of step stores, answers and moves; what every packet states |
| `TcpFailures` | runs of fresh sessions that break a promise |
| `TcpLifecycle` | whole exchanges, resets, expiry, event masks |
| `TcpTunnel` | CONNECT gating of port-443 sessions |
| `Sessions`, `SessionTable` | the three kinds of session, the reaper, the poll timeout; the linked list |
| `InternetChecksum`, `Packets` | `calc_checksum`; TCP, UDP and ICMP packets byte by byte |
| `Sni` | `parse_tls_header` |
| `Routes` | the route list of `startTunnel` |

The results of `send`, `recv`, `write`, `epoll_ctl`, `SIOCOUTQ`, `SO_SNDBUF` and the clock are
parameters of the steps, so a statement about all steps is a statement about all of them. A run
is any list of segments from the tun device, socket events, monitoring passes, reaper passes
and `check_allowed` passes. `forwarded`, `accepted`, `lost`, `syns`, `fins`, `maxWindow`,
`read` and `log` are history that the program does not keep; no transition depends on it.

## What is assumed

- A direct session has a destination port other than 80 and 443. Unless a statement names the
  tunnel it is about direct sessions, from a SYN without data.
- The window scale is at most 14 (section 2.3 of RFC 7323). Segment size and scale come out of
  the SYN's options as parameters.
- Stream statements: what the client sends agrees with one stream, and the numbers of a segment
  and of the queue lie with `remote_seq` in one circular window narrower than 2^31 - 1. Behind
  the forwarding point the data may be anything. The other statements about direct sessions
  (`StepKept`, `RunKept`, `NumbersCounted`, `SocketClosedOnce`, `AtMostSixStateChanges`,
  `ReadStreamRefinement`, `WindowAlwaysFits`) need none of this.
- Socket events and monitoring come from an open socket. Their bits are arbitrary; only
  `MaskedRunIsGated` asks for bits within the mask computed for the present state.
- The subtractions of `compare_u32` are taken over the integers in the session. In C they are
  `int` subtractions that overflow for straddling pairs, which is undefined;
  `CompareInt32Exact` gives the pairs and what a wrapping `int` answers for them.
- The clock does not run backwards (reaper statements); the session limit is positive.
- Words are little-endian in `calc_checksum`, and `char` is unsigned in the comparison of the
  TLS version, as on ARM. A `send` returns -1 or a count; `recv` returns no more than asked.

## Where the code does not keep its promise

The model does what the code does. Where that breaks a promise, the exact condition is proved.

- `tcp.c:325` compares the signed result of `send` with an unsigned length, so a result of -1
  is clipped to the whole length. The error branch in lines 329-338 is never reached, the bytes
  are counted and acknowledged, and the socket has none of them (`FailedSendLosesBytes`). What
  the socket accepted is the client's stream, and every acknowledgement covers accepted bytes
  only, if and only if no `send` failed (`StreamRefinement`, `NoPrematureAck`).
- The sequence number of a FIN is never looked at. Its acknowledgement is right if and only if
  the queue, with the FIN segment's data in it, ended where the FIN stands
  (`FinAcknowledgedExactly`); for a FIN alone, if and only if it was next in order
  (`BareFinExact`).
- A queued segment that starts inside the one forwarded before it is never trimmed: the session
  stops forwarding for good (`OverlapJams`, `JammedForever`). With room and a willing socket the queue
  empties if and only if it is contiguous (`DrainCompletes`).
- `acked` moves backwards for exactly one triple of numbers: `local_seq` 0x80000000, `acked`
  0x7FFFFFFF and an acknowledgement of 0 (`OtherAckAdvances`, `BackwardHappens`).
- An acknowledgement of everything but the last outstanding number is taken for a keep-alive and
  not noted, and neither is one that comes with a FIN (`AckExactly`).
- `compare_u32` cites RFC 1982 but differs from it at distance 2^31 - 1 (`CompareIsRfc1982`).
- A segment size of 0 in the client's SYN makes readable data look like end of file
  (`ZeroSegmentSizeReadsAsEof`).
- Client data reaches the proxy before its reply if and only if a writable event comes to a
  session past LISTEN whose queue has a byte to pass (`StepGate`, `RunGated`), which a writable
  event older than a failed CONNECT does (`StaleEventPassesGate`).
- Queue and advertised window together exceed the room if and only if the queue holds 2^32 bytes
  or more (`QueueAndWindowFit`), which takes overlapping segments (`DisjointQueueFits`,
  `OverfullQueueHappens`).
- A UDP check that comes out as 0 is sent as 0, exactly when what it covers sums to a multiple of
  0xFFFF; over IPv6 the receiver discards it (`UdpAcceptedExactly`, `UdpZeroCheckExample`).
- The poll timeout counts from the clock reading before the check pass, so the poll oversleeps by
  the seconds the pass took (`OversleepsByThePass`).

On the other side, the bound on outstanding numbers holds without an extra one for the local FIN:
the FIN is only sent while the send window is open.

## Model

| member | source | states |
|---|---|---|
| `TcpStream.StreamRefinement` | app/src/main/cpp/tcp.c:299-358 | over every run of a direct session, with the client's data in any order, repeated, lengthened and partly sent, the forwarded bytes are exactly a prefix of the client's stream; what the socket accepted is that same prefix if and only if no `send` failed |
| `TcpStream.NoPrematureAck` | app/src/main/cpp/tcp.c:1160-1161 | over every such run each acknowledgement ever emitted covers the SYN, a forwarded prefix and the FIN if counted, or one number less (keep-alive); the socket had accepted all of that prefix, for every acknowledgement of the run, if and only if no `send` of the run failed |
| `TcpStream.FailedStepAcks` | app/src/main/cpp/tcp.c:319-388 | a step in which a `send` fails emits an acknowledgement of more bytes than the socket has accepted |
| `TcpStream.FailedSendLosesBytes` | app/src/main/cpp/tcp.c:319-344 | a `send` that returns -1 advances `remote_seq` past the whole segment and acknowledges it although the socket took nothing: the signed count is compared as unsigned |
| `TcpStream.RunStream` | app/src/main/cpp/tcp.c:296-388 | the queue and stream invariant holds after every run, and bytes are lost exactly in runs in which some `send` failed |
| `TcpStream.StepStream` | app/src/main/cpp/tcp.c:296-388 | each step of each kind keeps the queue sorted and true to the stream, and loses bytes exactly when one of its own `send` calls fails |
| `TcpStream.QueueTcpStream` | app/src/main/cpp/tcp.c:905-960 | queueing a segment in any order keeps the queue strictly sorted by stream position, inside one serial window, with data of the stream, and only the head partly sent |
| `TcpStream.InsertShape` | app/src/main/cpp/tcp.c:915-958 | the list walk stops at the first segment that is not before the new one, and the recursive definition of the insertion is a splice or a replacement at that position |
| `TcpStream.BehindIsDropped` | app/src/main/cpp/tcp.c:909-913 | a segment is dropped if and only if it lies behind the forwarding point, for every number in the window |
| `TcpStream.ReplacedIsUnsent` | app/src/main/cpp/tcp.c:939-952 | replacing a queued segment by a longer one only ever meets a segment of which nothing was sent |
| `TcpStream.QueueSortedBySerial` | app/src/main/cpp/tcp.c:917-939 | any two queued segments are in strict `compare_u32` order, so no number occurs twice |
| `TcpStream.QueueForgetsNothing` | app/src/main/cpp/tcp.c:915-958 | queueing keeps every queued segment with its sent count and at least its length, and afterwards holds the new data; the queue grows by at most one |
| `TcpStream.SendHeadStream` | app/src/main/cpp/tcp.c:309-357 | one `send` with any result extends the forwarded bytes by the next bytes of the stream and keeps the queue invariant |
| `TcpStream.DrainStream` | app/src/main/cpp/tcp.c:299-358 | the forward loop keeps the stream invariant for every list of `send` results |
| `TcpStream.DrainLosses` | app/src/main/cpp/tcp.c:299-358 | the forward loop loses bytes if and only if one of the `send` calls that it really makes fails |
| `TcpInvariant.NumbersCounted` | app/src/main/cpp/tcp.c:287-384 | conservation over every run of a direct session: from SYN_RECV to LAST_ACK `remote_seq` is the remote start plus one, the accepted and lost bytes and the FIN; the FIN is counted at most once, never while bytes are queued, and in CLOSE_WAIT exactly when none are |
| `TcpInvariant.SocketClosedOnce` | app/src/main/cpp/tcp.c:430-433 | over every run the socket is open up to CLOSE_WAIT and closed in FIN_WAIT1, LAST_ACK and CLOSE, is closed at most once, and exactly once before the session is freed |
| `TcpInvariant.StepKept` | app/src/main/cpp/tcp.c:501-903 | every step of all five kinds keeps the whole invariant (counts, FIN, queue, descriptor, acknowledgements) and moves the state strictly up its order or not at all, whatever the socket, clock and tun device return |
| `TcpInvariant.RunKept` | app/src/main/cpp/tcp.c:32-143 | the invariant and the state order hold over every run, and nothing forwarded, accepted or counted is ever taken back |
| `TcpInvariant.AtMostSixStateChanges` | app/src/main/cpp/tcp.c:54-76 | a run changes the state at most six times, and a closed session never revives |
| `TcpInvariant.FreedSessionWasClosed` | app/src/main/cpp/tcp.c:84-88 | the check asks for deletion if and only if the session entered CLOSE more than `TCP_KEEP_TIMEOUT` seconds ago, and then its socket has been closed exactly once |
| `TcpInvariant.KeepAliveRestores` | app/src/main/cpp/tcp.c:111-118 | the keep-alive's decrement and increment leave the counts as they were, across the wrap at zero, also when the write fails |
| `TcpInvariant.DrainCounted` | app/src/main/cpp/tcp.c:299-358 | for all send results `remote_seq` moves by exactly the bytes taken, and the loop does nothing on an empty or waiting queue |
| `TcpInvariant.MonitorKept` | app/src/main/cpp/tcp.c:91-143 | monitoring never changes what was counted, queued or forwarded |
| `TcpFin.BareFinExact` | app/src/main/cpp/tcp.c:807-827 | a FIN without data on an empty queue is counted and acknowledged at once whatever its sequence number; the acknowledgement is right if and only if that number is `remote_seq` |
| `TcpFin.FinAcknowledgedExactly` | app/src/main/cpp/tcp.c:780-823 | for any FIN segment, with or without data and whatever its number, and any run after it: the counted FIN acknowledges exactly the bytes before the FIN if and only if the queue, with the segment's data in it, ended at the FIN; otherwise the acknowledgement is off by the distance between the two |
| `TcpFin.FinCountedAtTail` | app/src/main/cpp/tcp.c:381-388 | once the session has left ESTABLISHED, a FIN is only counted when everything queued at that moment has been forwarded |
| `TcpFin.StepTail` | app/src/main/cpp/tcp.c:781-792 | no step moves the end of the queue once a FIN was received or sent |
| `TcpSendSide.RunConserves` | app/src/main/cpp/tcp.c:829-879 | over every run that stays connected, the numbers acknowledged plus those outstanding are those sent plus those outstanding at the start, and what is outstanding never exceeds the largest window the client has advertised |
| `TcpSendSide.RunSends` | app/src/main/cpp/tcp.c:394-443 | over every run `local_seq` counts the local SYN, the bytes read from the socket and the local FIN, and the outstanding numbers stay within the largest advertised window |
| `TcpSendSide.StepSends` | app/src/main/cpp/tcp.c:394-443 | every step keeps the send side and moves `acked` forward and never past `local_seq` |
| `TcpSendSide.StepConserves` | app/src/main/cpp/tcp.c:829-879 | one connected step acknowledges and leaves outstanding exactly what it sends and found outstanding |
| `TcpSendSide.SendWindowIsRemainder` | app/src/main/cpp/tcp.c:145-150 | while at most the largest scaled window is outstanding, the send window is what remains of the advertised one |
| `TcpSendSide.OtherAckAdvances` | app/src/main/cpp/tcp.c:852-887 | for every acknowledgement number `acked` moves forward within `local_seq`, except for exactly one triple of numbers, at serial distance 2^31 |
| `TcpSendSide.OrderedAcks` | app/src/main/cpp/tcp.c:867-878 | an acknowledgement that section 3.2 of RFC 1982 can order against `local_seq` never is the exception |
| `TcpSendSide.SocketDataSends` | app/src/main/cpp/tcp.c:435-443 | data passed on raises the outstanding count by its length and stays within the window advertised at that moment |
| `TcpSendSide.SendSideSound` | app/src/main/cpp/tcp.c:394-443 | over every run of a fresh session with its acknowledgements in order, `local_seq` and the outstanding numbers are as stated by `RunSends`, from the handshake on |
| `TcpAcks.AckExactly` | app/src/main/cpp/tcp.c:829-879 | for every segment that gets to its flags, `acked` becomes its number if and only if it acknowledges everything outstanding without SYN or FIN, or a part of it but not all except the last number (or is the exceptional triple); otherwise it stays, and the advertised window is always the segment's |
| `TcpAcks.AckClears` | app/src/main/cpp/tcp.c:829-830 | a bare acknowledgement of everything leaves nothing outstanding, and the send window is the whole window that the segment advertises |
| `TcpFailures.BackwardHappens` | app/src/main/cpp/tcp.c:867-878 | a fresh session gets there: after the handshake and one byte read, the acknowledgement 0 takes `acked` from 0x7FFFFFFF back to 0 |
| `TcpReadStream.ReadStreamRefinement` | app/src/main/cpp/tcp.c:390-446 | over every run of a direct session the data packets handed to `write` carry, in order and each once, exactly the bytes read from the socket, the packet at offset k numbered local start + 1 + k and a FIN after the last byte; the packets really written carry all of them if and only if no data write failed, which holds until the session closes |
| `TcpReadStream.StepRead` | app/src/main/cpp/tcp.c:435-443 | each step keeps that stream, its numbers and `local_seq` in agreement |
| `TcpReadStream.SocketDataRead` | app/src/main/cpp/tcp.c:435-443 | a read appends one packet with the next bytes and number, and a failed write closes the session before another byte is read |
| `TcpReadStream.SocketEofRead` | app/src/main/cpp/tcp.c:409-433 | the FIN has the number after the last byte, and no data can follow |
| `TcpReadStream.WrittenIsAll` | app/src/main/cpp/tcp.c:1053-1060 | what was written equals what was handed over if and only if no data write failed |
| `TcpDelivery.DrainCompletes` | app/src/main/cpp/tcp.c:299-358 | with room for everything and a socket that takes everything, the forward loop empties the queue if and only if it is a contiguous run from the forwarding point, and then advances by exactly the unsent bytes |
| `TcpDelivery.WritableEventDrains` | app/src/main/cpp/tcp.c:295-388 | one EPOLLOUT on such a queue forwards all of it, counts the FIN in CLOSE_WAIT and emits one acknowledgement of exactly that |
| `TcpDelivery.DrainExactly` | app/src/main/cpp/tcp.c:299-358 | the forward loop sends whole segments from the front, one `send` each, and stops at the first that is out of order, does not fit the room left, or is not taken whole, which keeps what was sent of it; the forwarded bytes grow by exactly these |
| `TcpDelivery.OverlapJams` | app/src/main/cpp/tcp.c:342-357 | a queued segment that overlaps the one just completed ends up behind the forwarding point with nothing of it sent |
| `TcpDelivery.JammedForever` | app/src/main/cpp/tcp.c:300-302 | a session with such a head never forwards, accepts or acknowledges another byte, in any run |
| `TcpDelivery.QueueJam` | app/src/main/cpp/tcp.c:905-960 | no further segment can get in front of such a head |
| `TcpDelivery.ReceiveWindowFits` | app/src/main/cpp/tcp.c:174-194 | the receive window is 0 or at least one scaled unit, within the socket's room, and its shifted value fits 16 bits |
| `TcpDelivery.ReceiveWindowIsLargest` | app/src/main/cpp/tcp.c:174-194 | no other value that is at least one unit and fits beside the queue in the room and the header field is larger |
| `TcpDelivery.QueueAndWindowFit` | app/src/main/cpp/tcp.c:176-189 | queue and non-zero window fit the room together if and only if the queue holds less than 2^32 bytes |
| `TcpFailures.OverfullQueueHappens` | app/src/main/cpp/tcp.c:176-189 | a fresh session gets beyond: 431222 overlapping segments of one stream, and a positive window beside a queue of more than 2^32 bytes |
| `TcpDelivery.DisjointQueueFits` | app/src/main/cpp/tcp.c:176-181 | it does not overflow for any faithful queue without overlaps |
| `TcpDelivery.HeaderWindowExact` | app/src/main/cpp/tcp.c:1167 | the header states the stored window without loss, and 0 only for a window of 0 |
| `TcpEvents.StoredWindowExactly` | app/src/main/cpp/tcp.c:372-375 | after a socket event past LISTEN the stored window fits beside what is then queued, within the room and the header field, while less than 2^32 bytes are queued, and no window that fits is larger |
| `TcpEvents.ReopeningIsTold` | app/src/main/cpp/tcp.c:381-388 | when a closed window reopens, an acknowledgement with the new, positive window is emitted at once |
| `TcpEvents.RoomExact` | app/src/main/cpp/tcp.c:152-172 | the room of an open socket and its unsent bytes make up half of its send buffer; a fuller or closed socket has none |
| `TcpDelivery.StepWindow` | app/src/main/cpp/tcp.c:372-375 | every step of a direct session keeps the stored window fit for the header field |
| `TcpDelivery.WindowAlwaysFits` | app/src/main/cpp/tcp.c:1167 | after every run of a fresh session the window field states the stored window without loss, and that is 0 or at least one unit |
| `TcpDelivery.RunWindow` | app/src/main/cpp/tcp.c:372-375 | the stored window fits the header field after every run |
| `TcpLifecycle.HandshakeEstablishes` | app/src/main/cpp/tcp.c:286-293 | a writable socket answers the SYN with a SYN-ACK for the client's number plus one, and the client's acknowledgement establishes the session with nothing outstanding |
| `TcpLifecycle.ClientClosesFirst` | app/src/main/cpp/tcp.c:808-838 | FIN, acknowledgement, our FIN at end of file, its acknowledgement and the reaper lead ESTABLISHED through CLOSE_WAIT and LAST_ACK to CLOSE with one `close` |
| `TcpLifecycle.ServerClosesFirst` | app/src/main/cpp/tcp.c:819-823 | our FIN first, then the client's: ESTABLISHED reaches CLOSE through FIN_WAIT1 without the reaper, and the client's FIN is acknowledged |
| `TcpLifecycle.EofCloses` | app/src/main/cpp/tcp.c:409-433 | end of file with nothing queued sends our FIN at the old `local_seq`, counts it, closes the socket and leaves the forward direction alone |
| `TcpLifecycle.ZeroSegmentSizeReadsAsEof` | app/src/main/cpp/tcp.c:394-409 | available data is taken for end of file if and only if the client announced a segment size of 0; what is read is a prefix within the window |
| `TcpLifecycle.AnswersExactly` | app/src/main/cpp/tcp.c:580-887 | a segment is answered with a reset if and only if it is for a closing or closed session, carries data after a close, or acknowledges what was never sent; with an acknowledgement if and only if a FIN is counted at once; otherwise with nothing. A client reset closes, urgent data changes nothing |
| `TcpEvents.SegmentMovesExactly` | app/src/main/cpp/tcp.c:795-846 | how segments move a live session: to ESTABLISHED, CLOSE_WAIT, CLOSE and CLOSING if and only if the stated segment comes in the stated state and its acknowledgement was written; every segment but an urgent one restarts the clock |
| `TcpEvents.SocketAnswersExactly` | app/src/main/cpp/tcp.c:372-446 | what a socket event past LISTEN emits, packet by packet: an acknowledgement if and only if something was forwarded or the window reopened, then the data, limited by segment size and window, a FIN for the end of file with nothing queued, a reset for one with a queue and for a hard error |
| `TcpEvents.SocketMovesExactly` | app/src/main/cpp/tcp.c:386-421 | such an event closes the session if and only if a write failed or it reset, leads to FIN_WAIT1 or LAST_ACK for the end of file, and restarts the clock if and only if an acknowledgement was written or a read attempted |
| `TcpEvents.ErrorResets` | app/src/main/cpp/tcp.c:221-235 | an error on the socket is answered with one reset, closes the session and restarts the clock |
| `TcpEvents.ListenExactly` | app/src/main/cpp/tcp.c:265-293 | in LISTEN a direct session resets on anything readable, and otherwise answers the SYN and moves on only when that was written |
| `TcpPackets.StepPackets` | app/src/main/cpp/tcp.c:1156-1170 | every packet of every step has the session's number before the step, acknowledges what is counted after it (a keep-alive one less), and states the window stored after it; a reset acknowledges in LISTEN only, and any other packet that was not written closes the session |
| `TcpPackets.EveryPacketInSequence` | app/src/main/cpp/tcp.c:1160 | over every run each packet, resets and bare acknowledgements included, has the local start plus the numbers of all that was written before it |
| `TcpEvents.FreshExactly` | app/src/main/cpp/tcp.c:617-688 | a SYN registers an open session in LISTEN with its numbers, scale and window, the mask that monitoring would compute and the largest window that fits the room |
| `TcpLifecycle.ReaperClosesExactly` | app/src/main/cpp/tcp.c:53-76 | the check closes a live session if and only if its time is up, touches it in no other way, and tells the client unless the connection was never made |
| `TcpEvents.CloseExactly` | app/src/main/cpp/tcp.c:62-82 | a session that the check closes has no socket, a fresh clock and a cleared counter; one that stays open keeps everything |
| `TcpEvents.TerminateResets` | app/src/main/cpp/session.c:336-349 | a live session is reset once, a closing one left alone |
| `TcpLifecycle.SegmentRestartsClock` | app/src/main/cpp/tcp.c:775 | a session that survives a segment expires exactly when its timeout has passed from that segment on |
| `TcpLifecycle.ScaledShrinks` | app/src/main/cpp/tcp.c:17-30 | a timeout is whole with no sessions, never negative within the limit, falls with the number of sessions, and is used up at the limit and beyond |
| `TcpLifecycle.ScaledIsShare` | app/src/main/cpp/tcp.c:26-27 | it is the share of the sessions not in use, to within one second below and one percent of the whole above |
| `TcpLifecycle.MaskMatchesWork` | app/src/main/cpp/tcp.c:103-130 | the mask asks for EPOLLOUT exactly when one byte of socket space moves the forwarding on, for EPOLLIN exactly when a readable byte can be passed on, and everything else asks for an early poll |
| `TcpEvents.MaskOpens` | app/src/main/cpp/tcp.c:95-103 | in LISTEN the mask asks for exactly the event with which the session opens: the reply after CONNECT, the connected socket otherwise |
| `TcpEvents.NothingToPoll` | app/src/main/cpp/tcp.c:103-130 | no state but LISTEN, ESTABLISHED and CLOSE_WAIT asks for an event or an early poll |
| `TcpEvents.MonitorExactly` | app/src/main/cpp/tcp.c:132-140 | monitoring stores the computed mask, and closes the session if and only if that could not be registered or a keep-alive not written |
| `TcpLifecycle.KeepAliveProbes` | app/src/main/cpp/tcp.c:108-119 | a closed send window is probed at most once per interval, with the number before `remote_seq`, and no number of the session moves |
| `TcpFrame.HandleTcpFramed` | app/src/main/cpp/tcp.c:780-888 | a segment changes the queue by `queue_tcp` alone, and only in a live session with an open socket that has not seen the FIN |
| `TcpFrame.CheckTcpSocketFramed` | app/src/main/cpp/tcp.c:196-453 | a socket event changes the queue and the forwarded bytes by its forward loop alone |
| `TcpTunnel.RunGated` | app/src/main/cpp/tcp.c:727-751 | over every run of a port-443 session, with any event bits, CONNECT is sent at most once and `connect_sent` only moves up; bytes of the client leave the queue, or reach the socket, before the proxy's reply was read if and only if some step of the run passes the gate |
| `TcpTunnel.StepGate` | app/src/main/cpp/tcp.c:265-358 | each step keeps that ESTABLISHED, CLOSE_WAIT, FIN_WAIT1 and LAST_ACK imply the reply was read; before it, a step takes client bytes off the queue if and only if it is a writable event past LISTEN that finds a byte to pass, empty segments in front of it included |
| `TcpTunnel.DrainPasses` | app/src/main/cpp/tcp.c:299-358 | the forward loop passes a byte exactly when the first non-empty segment is in order and in the room behind empty ones and its `send` takes some (or fails, where failed sends count) |
| `TcpTunnel.MaskedRunIsGated` | app/src/main/cpp/tcp.c:95-103 | with all events within the mask of their moment no byte passes before the reply |
| `TcpTunnel.StaleEventPassesGate` | app/src/main/cpp/tcp.c:731-751 | a step that passes does occur from a fresh session: a writable event older than a failed CONNECT hands the client's data to the proxy |
| `TcpTunnel.RequestExactly` | app/src/main/cpp/tcp.c:727-751 | before the reply a segment's data is queued; with a known host name CONNECT is sent, after which the session waits in LISTEN, or it is reset when that failed |
| `TcpTunnel.ReplyExactly` | app/src/main/cpp/tcp.c:266-285 | a readable socket in LISTEN establishes the session, without a packet, if and only if CONNECT was sent and something received; otherwise it is reset |
| `TcpTunnel.TunnelOpens` | app/src/main/cpp/tcp.c:265-358 | for any first data of the client a fresh port-443 session sends one CONNECT, and after the proxy's reply hands exactly this data to the proxy |
| `TcpTunnel.PastReplyLikeDirect` | app/src/main/cpp/tcp.c:740-764 | once the reply was read and the session is past LISTEN, every step of every kind does to it exactly what it does to a direct session |
| `TcpTunnel.NewTunnel` | app/src/main/cpp/tcp.c:617-688 | a fresh port-443 session satisfies the gate |
| `TcpSession.TcpSession.constructor` | app/src/main/cpp/tcp.c:617-688 | a new object is the fresh session of the specification, in LISTEN with its room as receive window |
| `TcpSession.TcpSession.GetReceiveWindow` | app/src/main/cpp/tcp.c:174-194 | the loop over the queue with its wrapping 32-bit count returns the window that `ReceiveWindowFits` and `ReceiveWindowIsLargest` are about |
| `TcpSession.TcpSession.QueueTcp` | app/src/main/cpp/tcp.c:905-960 | the walk and insertion compute the queue of `QueueTcpStream`, held as a sequence, and touch nothing else |
| `ForwardList.SegmentList.QueueSegment` | app/src/main/cpp/tcp.c:915-958 | the walk over the linked segments and the splice or replacement in place make the list of `QueueTcpStream` |
| `ForwardList.SegmentList.Lengthen` | app/src/main/cpp/tcp.c:944-952 | a replaced segment keeps its place, number and sent count |
| `ForwardList.SegmentList.LinkFront` | app/src/main/cpp/tcp.c:934-936 | a node linked in at the front comes before all others |
| `ForwardList.SegmentList.LinkBehind` | app/src/main/cpp/tcp.c:934-938 | a node linked in behind another comes right after it, and every other segment keeps its place |
| `ForwardList.SegmentList.HeadSent` | app/src/main/cpp/tcp.c:343-357 | the head is counted on, and unlinked when all of it was sent |
| `TcpSession.TcpSession.SendHead` | app/src/main/cpp/tcp.c:309-357 | one `send`, its signed result clipped by the unsigned test, moves the queue and `remote_seq` as the specification says |
| `TcpSession.TcpSession.ForwardData` | app/src/main/cpp/tcp.c:299-358 | the loop in place is the forward loop of `DrainStream` and `DrainCompletes`, terminates for all results, and reports whether anything could be sent |
| `TcpSession.TcpSession.PerformAll` | app/src/main/cpp/session.c:89-264 | any run on the object ends in the state that the lemmas about runs speak of, with the invariant |
| `Serial.CompareIsRfc1982` | app/src/main/cpp/util.c:26-38 | over the integers `compare_u32` decides the order of section 3.2 of RFC 1982 if and only if the pair is not at distance 2^31 - 1 with the signed readings in order |
| `Serial.CompareOffByOneExample` | app/src/main/cpp/util.c:33-35 | the exception is real: 0 and 0x7FFFFFFF |
| `Serial.CompareInt32Exact` | app/src/main/cpp/util.c:31-35 | one of the `int` subtractions overflows exactly for pairs that straddle 0x7FFFFFFF/0x80000000, and with a wrapping `int` the answer is wrong for every one of them |
| `Serial.CompareTotalOrderOnWindow` | app/src/main/cpp/util.c:26-38 | a strict total order on every circular window narrower than 2^31 - 1 |
| `Serial.CompareNotTransitiveAtHalf` | app/src/main/cpp/util.c:26-38 | one more number and the order is not transitive |
| `Serial.CompareInt32OnWindow` | app/src/main/cpp/util.c:26-38 | with a wrapping `int`, still the order of positions on every such window that does not cross the boundary |
| `Serial.CompareWrapped` | app/src/main/cpp/util.c:26-38 | positions closer than 2^31 - 1 keep their order through the 32-bit residue |
| `Sessions.ReaperIsFilter` | app/src/main/cpp/session.c:123-168 | what is left is exactly the old list without the sessions whose check asked for deletion, checked once each, in the old order |
| `Sessions.LiveCheckExactly` | app/src/main/cpp/tcp.c:51-60 | a check leaves a live session of any protocol alone if and only if its time is not up: then nothing about it changes, otherwise it is no longer live, or deleted |
| `Sessions.FinishedCheckExactly` | app/src/main/cpp/udp.c:39-63 | a stopped ICMP session is deleted at once; a finishing or closing session is closed; a closed or blocked one stays as it is and is deleted if and only if its keep time has passed |
| `Sessions.UnexpiredSurvives` | app/src/main/cpp/session.c:123-168 | a live session whose time is not up survives the pass unchanged |
| `Sessions.SilenceExactly` | app/src/main/cpp/tun2http.h:42-51 | with no session in use, 15 seconds of silence are allowed to ICMP and DNS, 300 to other UDP, 30 to opening and closing TCP sessions, 3600 in ESTABLISHED |
| `Sessions.WakeUpBound` | app/src/main/cpp/session.c:117-151 | the poll timeout is between 1 and 3600 seconds, at most the time left plus one of every kept live session, and equal to it for one of them unless it is 3600 |
| `Sessions.OversleepsByThePass` | app/src/main/cpp/session.c:122-181 | counted from where the poll really starts, it wakes later than the first expiry of a kept live session by at most the seconds since the clock was read; unless it sleeps the whole hour, nobody expires in its sleep if and only if there were none |
| `Sessions.LiveHasTimeLeft` | app/src/main/cpp/session.c:128-150 | a session that is live after its check has at least one second left, so the guard `stimeout > 0` never excludes it |
| `Sessions.DeletedIsClosed` | app/src/main/cpp/session.c:153-163 | from the empty table on, whatever happens to it, a session of any protocol that a pass deletes has a closed socket |
| `Sessions.StepNeat` | app/src/main/cpp/tcp.c:409-433 | every step of every TCP session, direct or tunnelled, keeps that FIN_WAIT1 and CLOSE have no socket |
| `Sessions.CheckTidied` | app/src/main/cpp/tcp.c:62-88 | the checks of all three protocols ask for deletion only with the socket closed |
| `Sessions.TableStaysOk` | app/src/main/cpp/tcp.c:529-538 | in every reachable table at most one TCP session has a given key, and finished sessions have no socket; packets, steps, traffic, passes and `check_allowed` included |
| `Sessions.AllowedOk` | app/src/main/cpp/session.c:286-356 | `check_allowed` keeps the keys unique and the sessions tidy |
| `Sessions.SurvivorsUnique` | app/src/main/cpp/session.c:153-163 | a pass of the reaper keeps TCP keys unique |
| `Sessions.NothingLiveAfterCheckAllowed` | app/src/main/cpp/session.c:286-356 | after `check_allowed` no session is live and no blocked one is left |
| `Sessions.TerminatedExactly` | app/src/main/cpp/session.c:293-351 | `check_allowed` makes a live session finishing, stopped or reset, keeping its socket, key and clock, and leaves any other alone |
| `Sessions.AllowedIsFilter` | app/src/main/cpp/session.c:322-334 | it drops the blocked sessions and no others, keeps the order, and treats each of the others once |
| `Sessions.CountLiveIsNumber` | app/src/main/cpp/session.c:95-115 | the count is the number of live sessions |
| `Sessions.ArrivalRegisters` | app/src/main/cpp/tcp.c:687-688 | a packet of an unknown key registers its session in front of all others, and afterwards exactly one has the key |
| `SessionTable.Table.constructor` | app/src/main/cpp/session.c:11-13 | the table starts empty |
| `SessionTable.Table.Push` | app/src/main/cpp/tcp.c:687-688 | a session is registered in front of all others |
| `SessionTable.Table.FindTcp` | app/src/main/cpp/tcp.c:529-538 | finds a TCP session with the key if and only if there is one |
| `SessionTable.Table.RegisterTcp` | app/src/main/cpp/tcp.c:585-688 | a SYN registers a session only when none has its key |
| `SessionTable.Table.Unlink` | app/src/main/cpp/session.c:153-157 | takes one node out of the linked list, at the head or behind its predecessor, and keeps the others in order |
| `SessionTable.Table.Settle` | app/src/main/cpp/session.c:153-167 | stores or unlinks the checked session and moves both cursors to the right nodes |
| `SessionTable.Table.CheckSessions` | app/src/main/cpp/session.c:122-168 | the in-place loop leaves the filter of `ReaperIsFilter` and returns the timeout of `WakeUpBound` |
| `SessionTable.Table.CheckAllowed` | app/src/main/cpp/session.c:286-356 | the in-place loop terminates every session once and unlinks the blocked ones |
| `SessionTable.Table.CountSessions` | app/src/main/cpp/session.c:95-115 | counts exactly the live sessions of all protocols, those of which `NothingLiveAfterCheckAllowed` leaves none |
| `SessionTable.Table.Clear` | app/src/main/cpp/session.c:15-28 | closes the sockets of exactly the sessions that have one, in the order of the list, and empties the table |
| `SessionTable.WithSocketIsFilter` | app/src/main/cpp/session.c:17-20 | these are all sessions with an open socket, none twice |
| `InternetChecksum.CalcChecksum` | app/src/main/cpp/util.c:7-24 | the two loops compute the folded 32-bit word sum of the specification |
| `InternetChecksum.FoldIsCanonical` | app/src/main/cpp/util.c:20-23 | folding yields the canonical residue modulo 65535, for every 32-bit sum |
| `InternetChecksum.WordsByByte` | app/src/main/cpp/util.c:12-18 | the word sum counts a byte at an even place once and at an odd place 256 times, the last one included |
| `InternetChecksum.ChecksumIsCanonical` | app/src/main/cpp/util.c:7-24 | up to 131072 bytes the checksum is the canonical residue of start plus word sum |
| `InternetChecksum.SumFitsExactly` | app/src/main/cpp/util.c:8-18 | the 32-bit sum cannot overflow for any contents of a length if and only if the length is at most 131072 |
| `InternetChecksum.ChainedChecksum` | app/src/main/cpp/tcp.c:1185-1188 | a chained call over an even-length piece and what follows equals one call over both |
| `InternetChecksum.OddPieceBreaksChain` | app/src/main/cpp/util.c:17-18 | after an odd piece it does not |
| `InternetChecksum.StoredCheckVerifies` | app/src/main/cpp/tcp.c:1189 | a buffer with the complement of its own checksum in its zeroed field sums to 0xFFFF, also when the words in front are permuted (sections 1 and 2 of RFC 1071) |
| `Packets.PacketVerifies` | app/src/main/cpp/tcp.c:1092-1189 | every emitted packet has the right check: the receiver's own pseudo header, the header with the stored check, the options and the data sum to 0xFFFF, and so does an IPv4 header, for both IP versions |
| `Packets.ChainIsWhole` | app/src/main/cpp/tcp.c:1185-1188 | the four chained calls equal one call over pseudo header, header, options and data |
| `Packets.PseudoHeadersAgree` | app/src/main/cpp/tcp.c:1144-1152 | the IPv6 pseudo header with exchanged addresses and a 16-bit length has the same word sum as that of section 8.1 of RFC 8200 |
| `Packets.Ip4HeaderVerifies` | app/src/main/cpp/tcp.c:1104-1115 | the IPv4 header with its stored check sums to 0xFFFF |
| `Packets.HeaderFieldsReadBack` | app/src/main/cpp/tcp.c:1156-1170 | ports, numbers, window, data offset and each flag bit by its value stand where section 3.1 of RFC 9293 puts them, all other bits zero |
| `Packets.TcpRoundTrip` | app/src/main/cpp/tcp.c:1092-1189 | from the bytes written in answer to a client its receiver reads the client's own ends, exchanged, the protocol, every header field, the options (window scale on a SYN only) and the data, for both IP versions |
| `Packets.UdpRoundTrip` | app/src/main/cpp/udp.c:437-506 | the same for ports, length and data of a UDP packet |
| `Packets.IpRoundTrip` | app/src/main/cpp/tcp.c:1104-1142 | version, length, time to live, protocol and addresses read back, and the length delimits the payload |
| `Packets.LayOut` | app/src/main/cpp/tcp.c:1096-1102 | the pieces copied into the buffer make up the packet |
| `Packets.Assemble` | app/src/main/cpp/tcp.c:1092-1189 | the buffer filled in place, its check computed by chained calls and stored last, is the packet of `PacketVerifies` |
| `Packets.WriteTcp` | app/src/main/cpp/tcp.c:1082-1189 | the bytes written for a TCP packet are those of `PacketVerifies` |
| `Packets.WriteUdp` | app/src/main/cpp/udp.c:437-506 | the bytes written for a UDP packet are those of `PacketVerifies` and `UdpAcceptedExactly` |
| `Packets.UdpAcceptedExactly` | app/src/main/cpp/udp.c:503-506 | a UDP packet is accepted by its receiver if and only if it is IPv4 or what its check covers is not a multiple of 0xFFFF: for a multiple the stored check is 0, which over IPv6 is discarded (section 8.1 of RFC 8200) |
| `Packets.UdpZeroCheckExample` | app/src/main/cpp/udp.c:503-506 | such a packet exists |
| `Packets.RestoreIcmpId` | app/src/main/cpp/icmp.c:105-120 | an ICMP reply with its identifier restored in place verifies, and no other byte but the checksum changes |
| `Sni.SniRoundTrip` | app/src/main/cpp/tls.c:87-183 | for every ClientHello in one complete record, whatever its session id, ciphers, compression, other extensions and following bytes, the parser yields the first host name cut to 255 bytes and its first NUL |
| `Sni.SniSound` | app/src/main/cpp/tls.c:87-183 | whatever the payload, a name is found only in a complete handshake record with a ClientHello whose extensions are well-formed up to the first server_name, and it is the first host name in there |
| `Sni.ExtensionsSound` | app/src/main/cpp/tls.c:60-79 | an extension found is the first server_name of a well-formed list |
| `Sni.NamesSound` | app/src/main/cpp/tls.c:37-52 | a name found is the first host_name of a well-formed list |
| `Sni.WholeNameComesBack` | app/src/main/cpp/tls.c:46-48 | a host name of at most 255 bytes without NUL comes back whole |
| `Sni.EveryNameHasAHello` | app/src/main/cpp/tls.c:87-183 | every such name has a hello of valid sizes in which the parser finds it, so the round trip is not empty |
| `Sni.NamesRoundTrip` | app/src/main/cpp/tls.c:37-52 | the name list loop finds the first entry of type host_name of every encoded list |
| `Sni.ExtensionsRoundTrip` | app/src/main/cpp/tls.c:60-79 | the extension loop finds the server_name extension behind any others |
| `Sni.ParseTlsHeader` | app/src/main/cpp/tls.c:87-183 | on every input it terminates, reads only inside the payload, and leaves in the buffer what the specification finds, or the buffer untouched |
| `Sni.ParseHandshake` | app/src/main/cpp/tls.c:133-182 | the rest of the parser on a complete record, with the same promise |
| `Sni.SkipSessionId` | app/src/main/cpp/tls.c:133-154 | leads to the cipher list, or stops where the record ends |
| `Sni.SkipCiphers` | app/src/main/cpp/tls.c:156-171 | leads to the extension block, or stops at the end of an SSL 3.0 hello |
| `Sni.ParseExtensions` | app/src/main/cpp/tls.c:55-80 | the loop in place writes what the specification finds among the extensions |
| `Sni.ParseServerNameExtension` | app/src/main/cpp/tls.c:32-53 | the loop in place writes the first host name and nothing when there is none |
| `Sni.CopyName` | app/src/main/cpp/tls.c:46-48 | the buffer holds the C string of the copied bytes, for names with and without NUL |
| `Routes.RoutesArePartition` | app/src/main/kotlin/tun/proxy/service/Tun2HttpVpnService.kt:107-124 | an address is covered by some route if and only if it lies outside 192.168.0.0/16, and never by two |
| `Routes.SiblingsPartition` | app/src/main/kotlin/tun/proxy/service/Tun2HttpVpnService.kt:107-124 | for an arbitrary prefix and n, the n sibling prefixes cover each address outside its first n bits exactly once and no address inside |
| `Routes.OneMoreBit` | app/src/main/kotlin/tun/proxy/service/Tun2HttpVpnService.kt:107-124 | each further bit splits what was not yet covered into one sibling and the rest |
| `Routes.RouteIsSibling` | app/src/main/kotlin/tun/proxy/service/Tun2HttpVpnService.kt:108-124 | each route of the list is the sibling of its length of 192.168.0.0/16, host bits zero |
| `Routes.Builder.AddRoute` | app/src/main/kotlin/tun/proxy/service/Tun2HttpVpnService.kt:108 | a route is appended |
| `Routes.AddRoutesBelow` | app/src/main/kotlin/tun/proxy/service/Tun2HttpVpnService.kt:108-112 | appends the five routes below the excluded block |
| `Routes.AddRoutesAbove` | app/src/main/kotlin/tun/proxy/service/Tun2HttpVpnService.kt:114-118 | appends the five routes above it up to 192.255.255.255 |
| `Routes.StartTunnel` | app/src/main/kotlin/tun/proxy/service/Tun2HttpVpnService.kt:103-124 | the builder ends up with the list of `RoutesArePartition` |

## Left out

- Sessions to port 80 and all of `http.c`: the payload is rewritten and its length clipped, and LISTEN is entered again after CONNECT.
- SYNs that carry data and repeated SYNs on port 443: the queued data starts one number before the forwarding point.
- Stream, state-order and send-window statements for tunnelled sessions: CONNECT resets the state to LISTEN, and ESTABLISHED is reached there before `acked` is set.
- The decoding of SYN options: a zero-length option makes that loop endless, so segment size and scale are parameters.
- The value of the segment size option in SYN-ACKs: its two bytes are arbitrary in `Packets`.
- TcpSession.TcpSession.constructor: models a session whose socket could be opened; a failed `open_tcp_socket` registers nothing.
- The reset for a segment of an unknown session (tcp.c:689-710).
- Host name lookup, uid lookup, `dns.c`, `dhcp.c`, and the header walk and inbound tests of `ip.c`.
- UDP and ICMP traffic itself: search, insertion and data of UDP and ICMP sessions, UDP key uniqueness and `block_udp`; in the table it may make any change that leaves closed and blocked sessions without a socket.
- Packets.RestoreIcmpId: does not model ICMPv6, whose pseudo header length is computed from the wrong length, nor replies shorter than 8 bytes.
- Real sockets, epoll, JNI, threads, locks and logging are replaced by event parameters.
- The poll loop around the passes: the pass is skipped within 100 ms of the last one, and the model starts where it is not.
- A limit on the number of sessions: the count is taken once per pass and can lag behind registrations.
- The `sent` statistics, and the 64-bit width of `received`.
- Widths of `int` and `time_t` in timeouts: they are unbounded.
- SessionTable.Table.CheckSessions: a node stores its TCP session as a value, so the model does not capture that a node and an epoll event share one `struct`.
- TcpSession.TcpSession.QueueTcp: the session holds its forward list as a sequence; the linked form stands beside it in `ForwardList`. The freeing of nodes is not modelled.
- SessionTable.Table.Clear: the freeing of memory is not modelled.
- Names with a NUL are cut there by `Sni.SniRoundTrip`, as `strncpy` does; signed `char` (x86) would let version bytes from 0x80 on be refused.
- The Android application, its notifications, network monitor, the prebuilt native library, and the build files.
