/** Exactly what each kind of step does: what a socket event answers and stores, how segments move
    the state, what is polled for, what a timer step changes. */
module TcpEvents {
  import opened Serial
  import opened TcpTypes
  import opened Powers
  import opened TcpSpec
  import opened TcpFrame
  import opened TcpInvariant
  import opened TcpDelivery
  import opened TcpLifecycle

  // ---------------------------------------------------------------- the room of the socket

  /** An open socket's unsent bytes and its room make up half of the send buffer, whose size is
      16384 when it is not known; a fuller or a closed socket has no room. */
  lemma RoomExact(open: bool, sendbuf: nat, unsent: nat)
    ensures var half := if sendbuf == 0 then 8192 else sendbuf / 2;
            ReceiveBuffer(open, sendbuf, unsent) + unsent == if open && unsent < half then half else unsent
  {
  }

  // ---------------------------------------------------------------- a socket event past LISTEN

  /** The event acknowledges: it forwarded something, or the closed window reopens. */
  predicate Acknowledges(t: Tcp, e: SocketEvent, window: u32) {
    || (e.epollout && Forwardable(t.flow, ReceiveBuffer(t.socketOpen, e.sendbuf, e.unsent)))
    || (t.recvWindow == 0 && window > 0)
  }

  predicate BareAckPacket(p: Packet) {
    p.ack && !p.syn && !p.fin && !p.rst && p.data == []
  }

  /** The state of a socket event between its forwarding and its read path. */
  lemma MiddleExactly(t: Tcp, e: SocketEvent)
    requires SentFits(t.flow.forward) && t.socketOpen && e.sendbuf < TWO32
    ensures var a := ForwardAndAcknowledge(t, e);
            var acks, n := Acknowledges(t, e, a.recvWindow), |t.log.emitted|;
            && a.recvWindow == ReceiveWindow(a.flow.forward, ReceiveBuffer(true, e.sendbuf, e.unsentAfter), t.recvScale)
            && |a.log.emitted| == n + (if acks then 1 else 0)
            && (acks ==> BareAckPacket(a.log.emitted[n].pkt) && a.log.emitted[n].pkt.window == HeaderWindow(a))
            && a.state == (if acks && !e.ackWritten then Closing else t.state)
            && a.time == (if acks && e.ackWritten then e.now else t.time)
            && a.back == t.back && a.socketOpen && a.mss == t.mss && a.log.closes == t.log.closes
            && a.recvScale == t.recvScale
  {
    hide Drain, Forwardable, ReceiveBuffer, ReceiveWindow, WindowField, Wrap;
  }

  /** A window of w fits: it is at least one unit, and with the queue it is within the room of
      the socket and within what the header field can state. */
  predicate Fits(w: nat, queued: int, room: nat, scale: nat) {
    w >= Pow2(scale) && queued + w <= room && queued + w <= 0xFFFF * Pow2(scale)
  }

  /** The window that a socket event stores: beside what is then queued it fits the room of the
      socket, and no window that fits is larger. */
  lemma StoredWindowExactly(t: Tcp, e: SocketEvent)
    requires Inv(t) && t.socketOpen && e.sendbuf < TWO32 && !e.err && !t.state.Listen?
    ensures var u, room := CheckTcpSocket(t, e), ReceiveBuffer(true, e.sendbuf, e.unsentAfter);
            var queued := Unsent(u.flow.forward);
            && (u.recvWindow > 0 ==> (queued + u.recvWindow <= room <==> queued < TWO32))
            && (queued < TWO32 && u.recvWindow > 0 ==> Fits(u.recvWindow, queued, room, t.recvScale))
            && (queued < TWO32 ==> forall w: nat :: Fits(w, queued, room, t.recvScale) ==> w <= u.recvWindow)
  {
    hide Inv, ForwardAndAcknowledge, ReadSocket, ReceiveWindow, ReceiveBuffer, Unsent, Fits, Forwardable, SentFits;
    StoredFits(t, e);
    var a := ForwardAndAcknowledge(t, e);
    MiddleExactly(t, e);
    ReadSocketFramed(a, e);
    WindowExactly(a.flow.forward, ReceiveBuffer(true, e.sendbuf, e.unsentAfter), t.recvScale);
  }

  lemma WindowExactly(q: seq<Segment>, room: nat, scale: nat)
    requires SentFits(q) && room < TWO32
    ensures var w := ReceiveWindow(q, room, scale);
            && (w > 0 ==> (Unsent(q) + w <= room <==> Unsent(q) < TWO32))
            && (Unsent(q) < TWO32 && w > 0 ==> Fits(w, Unsent(q), room, scale))
            && (Unsent(q) < TWO32 ==> forall v: nat :: Fits(v, Unsent(q), room, scale) ==> v <= w)
  {
    hide Pow2, Unsent;
    QueueAndWindowFit(q, room, scale);
    UnsentNonNegative(q);
  }

  /** Reopening a closed window is told to the client at once. */
  lemma ReopeningIsTold(t: Tcp, e: SocketEvent)
    requires Inv(t) && t.socketOpen && e.sendbuf < TWO32 && !e.err && !t.state.Listen?
    ensures var u, n := CheckTcpSocket(t, e), |t.log.emitted|;
            t.recvWindow == 0 && u.recvWindow > 0 ==>
              && |u.log.emitted| > n && BareAckPacket(u.log.emitted[n].pkt)
              && u.log.emitted[n].pkt.window == HeaderWindow(u) > 0
  {
    hide Inv, ForwardAndAcknowledge, ReadSocket, ReceiveWindow, ReceiveBuffer, WindowField, Forwardable, SentFits;
    StoredFits(t, e);
    var a := ForwardAndAcknowledge(t, e);
    MiddleExactly(t, e);
    ReadSocketFramed(a, e);
    ReceiveWindowFits(a.flow.forward, ReceiveBuffer(true, e.sendbuf, e.unsentAfter), t.recvScale);
    HeaderWindowExact(a);
  }

  lemma StoredFits(t: Tcp, e: SocketEvent)
    requires Inv(t) && t.socketOpen && e.sendbuf < TWO32 && !e.err && !t.state.Listen?
    ensures SentFits(t.flow.forward) && SentFits(ForwardAndAcknowledge(t, e).flow.forward)
    ensures ReceiveBuffer(true, e.sendbuf, e.unsentAfter) < TWO32
  {
    ForwardAndAcknowledgeKept(t, e);
  }

  // ---------------------------------------------------------------- the read path

  /** What a socket event reads: nothing, a hard error, end of file, or data. */
  datatype Reading = Nothing | HardError | EndOfFile | Bytes(data: seq<byte>)

  /** The event reads when the session is connected, its acknowledgement (if any) was written,
      the socket is readable and the client's window is open; it takes as many bytes as the
      socket has, the client's segment size and its window allow. */
  function ReadingOf(t: Tcp, e: SocketEvent, window: u32): Reading {
    var room := SendWindow(t.back);
    if !(t.state.Established? || t.state.CloseWait?) || (Acknowledges(t, e, window) && !e.ackWritten)
       || !e.epollin || room == 0 then Nothing
    else match e.recv
         case RecvError(transient) => if transient then Nothing else HardError
         case Received(data) =>
           var n := if |data| <= t.mss && |data| <= room then |data| else if t.mss <= room then t.mss else room;
           if n == 0 then EndOfFile else Bytes(data[..n])
  }

  /** The event makes an attempt to read. */
  predicate Attempts(t: Tcp, e: SocketEvent, window: u32) {
    || ReadingOf(t, e, window) != Nothing
    || ((t.state.Established? || t.state.CloseWait?) && !(Acknowledges(t, e, window) && !e.ackWritten)
        && e.epollin && SendWindow(t.back) > 0)
  }

  /** Exactly what a socket event past LISTEN emits: an acknowledgement when it acknowledges,
      and then what it read: the data in one packet, a FIN for the end of file with nothing
      queued, or a reset for the end of file with a queue and for a hard error. */
  lemma SocketAnswersExactly(t: Tcp, e: SocketEvent)
    requires Inv(t) && t.socketOpen && e.sendbuf < TWO32 && !e.err && !t.state.Listen?
    ensures var u, n := CheckTcpSocket(t, e), |t.log.emitted|;
            var acks, r := Acknowledges(t, e, u.recvWindow), ReadingOf(t, e, u.recvWindow);
            && |u.log.emitted| == n + (if acks then 1 else 0) + (if r.Nothing? then 0 else 1)
            && (acks ==> BareAckPacket(u.log.emitted[n].pkt))
            && (r.HardError? || (r.EndOfFile? && u.flow.forward != []) ==> IsReset(LastPacket(u)))
            && (r.EndOfFile? && u.flow.forward == [] ==>
                  LastPacket(u).fin && LastPacket(u).data == [] && !LastPacket(u).rst && !LastPacket(u).syn)
            && (r.Bytes? ==>
                  && LastPacket(u).data == r.data && u.back.read == t.back.read + r.data
                  && !LastPacket(u).fin && !LastPacket(u).rst && !LastPacket(u).syn)
            && (!r.Bytes? ==> u.back.read == t.back.read)
            && u.socketOpen == !r.EndOfFile?
  {
    hide Inv, ForwardAndAcknowledge, ReceiveBuffer, Forwardable, WindowField, SendWindow, Wrap, Acknowledges;
    StoredFits(t, e);
    MiddleExactly(t, e);
    ReadExactly(t, ForwardAndAcknowledge(t, e), e);
  }

  /** How the state and the clock move in such an event. A session closes if and only if what it
      had to write was not written or it reset; the end of file takes it to FIN_WAIT1 or LAST_ACK;
      and the clock restarts if and only if an acknowledgement was written or a read attempted. */
  lemma SocketMovesExactly(t: Tcp, e: SocketEvent)
    requires Inv(t) && t.socketOpen && e.sendbuf < TWO32 && !e.err && !t.state.Listen?
    ensures var u := CheckTcpSocket(t, e);
            var acks, r := Acknowledges(t, e, u.recvWindow), ReadingOf(t, e, u.recvWindow);
            && u.state == (if (acks && !e.ackWritten) || r.HardError? || (r.Bytes? && !e.replyWritten)
                              || (r.EndOfFile? && (u.flow.forward != [] || !e.replyWritten)) then Closing
                           else if r.EndOfFile? then (if t.state.Established? then FinWait1 else LastAck)
                           else t.state)
            && u.time == (if (acks && e.ackWritten) || Attempts(t, e, u.recvWindow) then e.now else t.time)
  {
    hide Inv, ForwardAndAcknowledge, ReceiveBuffer, Forwardable, WindowField, SendWindow, Wrap, Acknowledges;
    StoredFits(t, e);
    MiddleExactly(t, e);
    ReadMoves(t, ForwardAndAcknowledge(t, e), e);
  }

  /** The read path alone, on the state a in the middle of the event. */
  predicate Middle(t: Tcp, a: Tcp, e: SocketEvent) {
    && a.back == t.back && a.mss == t.mss && a.socketOpen
    && a.state == if Acknowledges(t, e, a.recvWindow) && !e.ackWritten then Closing else t.state
  }

  function ReadIf(a: Tcp, e: SocketEvent): Tcp {
    if a.state.Established? || a.state.CloseWait? then ReadSocket(a, e) else a
  }

  lemma ReadExactly(t: Tcp, a: Tcp, e: SocketEvent)
    requires Middle(t, a, e)
    ensures var u, n := ReadIf(a, e), |a.log.emitted|;
            var r := ReadingOf(t, e, a.recvWindow);
            && u.recvWindow == a.recvWindow && u.flow == a.flow && a.log.emitted <= u.log.emitted
            && |u.log.emitted| == n + (if r.Nothing? then 0 else 1)
            && (r.HardError? || (r.EndOfFile? && a.flow.forward != []) ==> IsReset(LastPacket(u)))
            && (r.EndOfFile? && a.flow.forward == [] ==>
                  LastPacket(u).fin && LastPacket(u).data == [] && !LastPacket(u).rst && !LastPacket(u).syn)
            && (r.Bytes? ==>
                  && LastPacket(u).data == r.data && u.back.read == t.back.read + r.data
                  && !LastPacket(u).fin && !LastPacket(u).rst && !LastPacket(u).syn)
            && (!r.Bytes? ==> u.back.read == t.back.read)
            && u.socketOpen == !r.EndOfFile?
  {
    hide WindowField, SendWindow, Acknowledges, WriteRst, Wrap;
    if !a.state.Listen? {
      RstExactly(a.(time := e.now));
    }
  }

  /** A reset past LISTEN is one packet, and closes. */
  lemma RstExactly(t: Tcp)
    requires !t.state.Listen?
    ensures var u := WriteRst(t);
            && |u.log.emitted| == |t.log.emitted| + 1 && t.log.emitted <= u.log.emitted && IsReset(LastPacket(u))
            && u == t.(state := if t.state.Close? then Close else Closing, log := u.log)
            && u.log.closes == t.log.closes
  {
    hide WindowField;
  }

  lemma ReadMoves(t: Tcp, a: Tcp, e: SocketEvent)
    requires Middle(t, a, e)
    ensures var u, r := ReadIf(a, e), ReadingOf(t, e, a.recvWindow);
            && u.recvWindow == a.recvWindow && u.flow == a.flow
            && u.state == (if a.state.Closing? || r.HardError? || (r.Bytes? && !e.replyWritten)
                              || (r.EndOfFile? && (a.flow.forward != [] || !e.replyWritten)) then Closing
                           else if r.EndOfFile? then (if t.state.Established? then FinWait1 else LastAck)
                           else t.state)
            && u.time == (if Attempts(t, e, a.recvWindow) then e.now else a.time)
  {
    hide WindowField, SendWindow, Acknowledges, Wrap;
  }

  // ---------------------------------------------------------------- errors and LISTEN

  /** An error on the socket is answered with one reset, closes the session and restarts its
      clock; nothing is queued, forwarded or read. */
  lemma ErrorResets(t: Tcp, e: SocketEvent)
    requires Inv(t) && t.socketOpen && e.sendbuf < TWO32 && e.err
    ensures var u := CheckTcpSocket(t, e);
            && u.state.Closing? && u.time == e.now && u.socketOpen
            && |u.log.emitted| == |t.log.emitted| + 1 && IsReset(LastPacket(u))
            && SameQueue(t.flow, u.flow) && u.back == t.back && u.recvWindow == t.recvWindow
  {
    hide WindowField, Wrap;
  }

  /** In LISTEN a direct session resets on anything readable; otherwise it answers the SYN, and
      moves on only when that was written. */
  lemma ListenExactly(t: Tcp, e: SocketEvent)
    requires Inv(t) && t.state.Listen? && e.sendbuf < TWO32 && !e.err
    ensures var u := CheckTcpSocket(t, e);
            && |u.log.emitted| == |t.log.emitted| + 1 && LastPacket(u).ack && !LastPacket(u).fin
            && LastPacket(u).data == [] && (LastPacket(u).rst <==> e.epollin) && (LastPacket(u).syn <==> !e.epollin)
            && u.state == (if !e.epollin && e.replyWritten then SynRecv else Closing)
            && u.time == (if !e.epollin && e.replyWritten then e.now else t.time)
            && u.flow.syns == 1 && LastPacket(u).ackNo == u.flow.remoteSeq == Wrap(t.flow.remoteSeq + 1)
            && u.back == (if !e.epollin && e.replyWritten then Sent(t.back, 1) else t.back)
  {
    hide WindowField, Wrap;
  }

  // ---------------------------------------------------------------- segments

  /** A FIN is taken: it comes without SYN or reset and acknowledges everything or nothing. */
  predicate TakesFin(t: Tcp, p: ClientSegment) {
    p.fin && !p.syn && !p.rst && (!p.ack || p.ackNo == t.back.localSeq)
  }

  /** A bare acknowledgement of everything. */
  predicate AcksAll(t: Tcp, p: ClientSegment) {
    p.ack && p.ackNo == t.back.localSeq && !p.syn && !p.fin && !p.rst
  }

  /** How segments move a live session, exactly: an acknowledgement of everything establishes it
      or ends LAST_ACK; a FIN takes ESTABLISHED to CLOSE_WAIT, at once with an empty queue or
      later with bytes queued, and FIN_WAIT1 to CLOSE; a reset, a rejected segment and a failed
      write close it; nothing else moves it. */
  lemma SegmentMovesExactly(t: Tcp, p: ClientSegment, e: PacketEvent)
    requires Inv(t) && !t.state.Closing? && !t.state.Close?
    ensures var u := HandleTcp(t, p, e);
            var counts := u.flow.fins > t.flow.fins;
            && (p.urg ==> u == t)
            && (!p.urg ==>
                  && u.time == e.now
                  && u.state == if Rejected(t, p) || p.rst || (counts && !e.written) then Closing
                                else if t.state.SynRecv? && AcksAll(t, p) then Established
                                else if t.state.LastAck? && AcksAll(t, p) then Closing
                                else if t.state.Established? && TakesFin(t, p) then CloseWait
                                else if t.state.FinWait1? && TakesFin(t, p) then Close
                                else t.state)
            && (counts <==> !p.urg && !Rejected(t, p) && TakesFin(t, p)
                            && (t.state.FinWait1? || (t.state.Established? && u.flow.forward == [])))
  {
    hide WindowField, Insert, CompareU32, HandleFlags, Wrap;
    if !p.urg {
      var u := Noted(t, p, e);
      FlagsMove(if p.data != [] then u.(flow := QueueTcp(u.flow, p)) else u, p, e.written);
    }
  }

  lemma FlagsMove(t: Tcp, p: ClientSegment, written: bool)
    requires !t.state.Closing? && !t.state.Close?
    ensures var u := HandleFlags(t, p, written);
            var future := !p.rst && p.ack && p.ackNo != t.back.localSeq && Wrap(p.ackNo + 1) != t.back.localSeq
                          && CompareU32(p.ackNo, t.back.localSeq) > 0;
            var counts := u.flow.fins > t.flow.fins;
            && u.state == (if future || p.rst || (counts && !written) then Closing
                           else if t.state.SynRecv? && AcksAll(t, p) then Established
                           else if t.state.LastAck? && AcksAll(t, p) then Closing
                           else if t.state.Established? && TakesFin(t, p) then CloseWait
                           else if t.state.FinWait1? && TakesFin(t, p) then Close
                           else t.state)
            && u.flow.forward == t.flow.forward && u.time == t.time
            && (counts <==> TakesFin(t, p) && (t.state.FinWait1? || (t.state.Established? && t.flow.forward == [])))
  {
    hide WindowField, CompareU32, Wrap;
    if p.ackNo != t.back.localSeq {
      CompareConverse(p.ackNo, t.back.localSeq);
    }
  }

  // ---------------------------------------------------------------- polling and timers

  /** Monitoring stores the mask of the session and changes the state only to close it: when the
      mask could not be registered or a keep-alive could not be written. */
  lemma MonitorExactly(t: Tcp, e: MonitorEvent)
    requires Inv(t) && t.socketOpen
    ensures var u := MonitorTcp(t, e);
            var probes := (t.state.Established? || t.state.CloseWait?) && SendWindow(t.back) == 0
                          && e.ms - t.lastKeepAlive > 100;
            var changed := MaskFor(t, e.sendbuf, e.unsent) != t.mask;
            && u.mask == MaskFor(t, e.sendbuf, e.unsent)
            && u.state == (if (changed && e.ctlFails) || (probes && !e.written) then Closing else t.state)
            && u.time == t.time && u.recvWindow == t.recvWindow && u.socketOpen
            && (probes ==> BareAckPacket(LastPacket(u)))
  {
    hide WindowField, SendWindow, Forwardable, ReceiveBuffer, Wrap;
  }

  /** In LISTEN the mask asks for exactly the event with which the session opens: the proxy's
      reply after a CONNECT, the connected socket otherwise. No other state but ESTABLISHED and
      CLOSE_WAIT asks for anything, or for an early poll. */
  lemma MaskOpens(t: Tcp, m: MonitorEvent, e: SocketEvent)
    requires t.state.Listen? && e.sendbuf < TWO32 && !e.err && e.replyWritten && e.recv.Received?
    requires SentFits(t.flow.forward) && (t.connect.ConnectSent? ==> t.tunnelled)
    ensures var mask := MaskFor(t, m.sendbuf, m.unsent);
            && mask.epollin != mask.epollout
            && (e.epollin == mask.epollin <==>
                  CheckTcpSocket(t, e).state == if t.connect.ConnectSent? then Established else SynRecv)
    ensures !Recheck(t, m)
  {
    hide WindowField, SendWindow, Forwardable, Wrap;
  }

  lemma NothingToPoll(t: Tcp, m: MonitorEvent)
    requires t.state !in {Listen, Established, CloseWait}
    ensures MaskFor(t, m.sendbuf, m.unsent) == Mask(false, false) && !Recheck(t, m)
  {
  }

  /** `check_allowed` resets a live session, once, and leaves a closing one alone. */
  lemma TerminateResets(t: Tcp)
    requires Inv(t)
    ensures var u, live := TerminateTcp(t), !t.state.Closing? && !t.state.Close?;
            && (live ==> u.state.Closing? && |u.log.emitted| == |t.log.emitted| + 1 && IsReset(LastPacket(u)))
            && (!live ==> u == t) && u.time == t.time && u.socketOpen == t.socketOpen
  {
    hide WindowField, Wrap;
  }

  /** Closing a session closes its socket if it is still open, restarts its clock at the moment of
      closing and clears its counter; a session that stays open keeps everything. */
  lemma CloseExactly(t: Tcp, e: ReapEvent)
    requires Inv(t) && e.maxSessions > 0
    ensures var u := CheckTcpSession(t, e).0;
            && (!u.state.Close? ==> u == t)
            && (u.state.Close? && !t.state.Close? ==> u.time == e.closeTime)
            && (u.state.Close? ==> !u.socketOpen && u.back == t.back.(received := 0) && SameQueue(t.flow, u.flow))
            && (t.state.Close? ==> u.time == t.time && u.log == t.log)
  {
    hide WindowField, TcpTimeout, Wrap;
  }

  /** The session that a SYN registers: open, in LISTEN, with nothing counted or acknowledged, the
      SYN's numbers and window, the mask that monitoring would compute, and the largest window
      that fits the room. */
  lemma FreshExactly(tunnelled: bool, isn: u32, localIsn: u32, mss: nat, scale: nat, window: u16, room: nat,
                     now: int, m: MonitorEvent)
    requires scale <= MAX_SCALE && room < TWO32
    ensures var t := NewSession(tunnelled, isn, localIsn, mss, scale, window, room, now);
            && t.state.Listen? && t.socketOpen && t.connect.ConnectNotSent? && t.tunnelled == tunnelled
            && t.flow == Flow(isn, isn, [], 0, 0, [], [], 0) && t.mss == mss && t.time == now
            && t.back.localSeq == localIsn && t.back.sendWindow == window * Pow2(scale) && t.back.received == 0
            && t.recvScale == t.sendScale == scale
            && t.mask == MaskFor(t, m.sendbuf, m.unsent)
            && (t.recvWindow > 0 ==> Fits(t.recvWindow, 0, room, scale))
            && (forall w: nat :: Fits(w, 0, room, scale) ==> w <= t.recvWindow)
  {
    hide Pow2, Fits, ReceiveWindow;
    WindowExactly([], room, scale);
  }
}
