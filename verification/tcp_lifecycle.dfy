/** Whole exchanges: opening, both orders of closing, resets, expiry, and what is polled for. */
module TcpLifecycle {
  import opened Serial
  import opened TcpTypes
  import opened Powers
  import opened TcpSpec
  import opened TcpInvariant
  import opened TcpStream

  // ---------------------------------------------------------------- opening and closing

  function LastPacket(t: Tcp): Packet
    requires t.log.emitted != []
  {
    t.log.emitted[|t.log.emitted| - 1].pkt
  }

  /** A segment with nothing but an acknowledgement. */
  predicate BareAck(p: ClientSegment, ackNo: u32) {
    p.ack && p.ackNo == ackNo && !p.syn && !p.fin && !p.rst && !p.urg && p.data == []
  }

  /** A FIN without data that acknowledges everything, or acknowledges nothing. */
  predicate BareFin(p: ClientSegment, ackNo: u32) {
    p.fin && !p.syn && !p.rst && !p.urg && p.data == [] && (!p.ack || p.ackNo == ackNo)
  }

  /** The socket reports end of file, and nothing else; all writes succeed. */
  predicate EofEvent(e: SocketEvent) {
    && !e.err && e.epollin && !e.epollout && e.recv == Received([])
    && e.ackWritten && e.replyWritten && e.sendbuf < TWO32
  }

  /** Opening: a writable socket answers the SYN with a SYN-ACK that acknowledges it, and the
      client's acknowledgement of that establishes the session with nothing outstanding. */
  lemma HandshakeEstablishes(isn: u32, localIsn: u32, mss: nat, scale: nat, window: u16, room: nat, now: int,
                             e: SocketEvent, p: ClientSegment, pe: PacketEvent)
    requires scale <= MAX_SCALE && room < TWO32
    requires !e.err && !e.epollin && e.replyWritten && e.sendbuf < TWO32
    requires BareAck(p, Wrap(localIsn + 1))
    ensures var s := CheckTcpSocket(NewDirect(isn, localIsn, mss, scale, window, room, now), e);
            var u := HandleTcp(s, p, pe);
            && s.state.SynRecv? && |s.log.emitted| == 1
            && LastPacket(s).syn && LastPacket(s).ack && !LastPacket(s).fin && !LastPacket(s).rst
            && LastPacket(s).seqNo == localIsn && LastPacket(s).ackNo == Wrap(isn + 1)
            && u.state.Established? && u.flow.remoteSeq == Wrap(isn + 1)
            && u.back.localSeq == u.back.acked == Wrap(localIsn + 1)
            && u.log.emitted == s.log.emitted
            && u.flow == Flow(isn, Wrap(isn + 1), [], 1, 0, [], [], 0)
            && u.back.received == 0 && u.back.sendWindow == p.window * Pow2(scale)
            && u.socketOpen && !u.log.freed && u.mss == mss && u.recvScale == scale
  {
    ScaledWindow(p.window, scale);
  }

  /** The client closes first: FIN, our acknowledgement, our FIN at end of file, its
      acknowledgement, and the reaper closes the session; the socket is closed once. */
  lemma ClientClosesFirst(t: Tcp, fin: ClientSegment, pe: PacketEvent, eof: SocketEvent,
                          last: ClientSegment, pe': PacketEvent, reap: ReapEvent)
    requires Inv(t) && t.state.Established? && t.flow.forward == []
    requires BareFin(fin, t.back.localSeq) && pe.written && EofEvent(eof)
    requires SendWindow(Noted(t, fin, pe).back) > 0
    requires BareAck(last, Wrap(t.back.localSeq + 1)) && reap.maxSessions > 0
    ensures var a := HandleTcp(t, fin, pe);
            var b := CheckTcpSocket(a, eof);
            var c := HandleTcp(b, last, pe');
            var d := CheckTcpSession(c, reap).0;
            && a.state.CloseWait? && a.flow.fins == 1 && LastPacket(a).ackNo == Wrap(t.flow.remoteSeq + 1)
            && b.state.LastAck? && !b.socketOpen && LastPacket(b).fin && LastPacket(b).seqNo == t.back.localSeq
            && c.state.Closing? && d.state.Close? && d.log.closes == 1
  {
    hide HeaderWindow, Insert, CompareU32, CheckTcpSession, SendWindow;
    var a := HandleTcp(t, fin, pe);
    HandleTcpKept(t, fin, pe);
    assert a.state.CloseWait? && a.flow.forward == [] && a.back == Noted(t, fin, pe).back;
    EofCloses(a, eof);
    CheckTcpSocketKept(a, eof);
    LastAckCloses(CheckTcpSocket(a, eof), last, pe', reap);
  }

  /** The acknowledgement of our FIN in LAST_ACK leaves the session to the reaper. */
  lemma LastAckCloses(t: Tcp, last: ClientSegment, pe: PacketEvent, reap: ReapEvent)
    requires Inv(t) && t.state.LastAck? && BareAck(last, t.back.localSeq) && reap.maxSessions > 0
    ensures var c := HandleTcp(t, last, pe);
            var d := CheckTcpSession(c, reap).0;
            c.state.Closing? && d.state.Close? && d.log.closes == 1
  {
    hide Insert, HeaderWindow, CompareU32, TcpTimeout;
  }

  /** End of file with nothing queued: our FIN goes out and the socket is closed. */
  lemma EofCloses(t: Tcp, e: SocketEvent)
    requires Inv(t) && (t.state.Established? || t.state.CloseWait?) && t.flow.forward == []
    requires EofEvent(e) && SendWindow(t.back) > 0
    ensures var u := CheckTcpSocket(t, e);
            && u.state == (if t.state.Established? then FinWait1 else LastAck)
            && !u.socketOpen && u.back == Sent(t.back, 1) && u.log.emitted != []
            && LastPacket(u).fin && LastPacket(u).seqNo == t.back.localSeq
            && u.flow == t.flow
  {
    hide SendWindow, NewWindow, HeaderWindow;
    var a := ForwardAndAcknowledge(t, e);
    assert a.state == t.state && a.flow == t.flow && a.back == t.back;
    assert CheckTcpSocket(t, e) == SocketEof(a.(time := e.now), true);
  }

  /** The server closes first: our FIN at end of file, the client's FIN, our acknowledgement,
      and the session is closed without the reaper. */
  lemma ServerClosesFirst(t: Tcp, eof: SocketEvent, fin: ClientSegment, pe: PacketEvent)
    requires Inv(t) && t.state.Established? && t.flow.forward == []
    requires EofEvent(eof) && SendWindow(t.back) > 0
    requires BareFin(fin, Wrap(t.back.localSeq + 1)) && pe.written
    ensures var a := CheckTcpSocket(t, eof);
            var b := HandleTcp(a, fin, pe);
            && a.state.FinWait1? && !a.socketOpen && LastPacket(a).fin
            && b.state.Close? && b.flow.fins == 1 && b.log.closes == 1
            && LastPacket(b).ack && LastPacket(b).ackNo == Wrap(t.flow.remoteSeq + 1)
            && b.time == pe.now
  {
    var a := CheckTcpSocket(t, eof);
    EofCloses(t, eof);
    CheckTcpSocketKept(t, eof);
    HandleTcpKept(a, fin, pe);
  }

  /** The segment size of the client limits one read. Data that the socket offers while the
      window is open passes for end of file if and only if the client announced a size of 0. */
  lemma ZeroSegmentSizeReadsAsEof(t: Tcp, data: seq<byte>)
    requires SendWindow(t.back) > 0 && data != []
    ensures ReadChunk(t.back, t.mss, data) == [] <==> t.mss == 0
    ensures ReadChunk(t.back, t.mss, data) <= data && |ReadChunk(t.back, t.mss, data)| <= SendWindow(t.back)
  {
    hide SendWindow;
  }

  // ---------------------------------------------------------------- resets

  predicate IsReset(p: Packet) {
    p.rst && !p.syn && !p.fin && p.data == []
  }

  /** A segment for a closing or closed session, data after the local close or after the
      client's FIN, and an acknowledgement of what was never sent. */
  predicate Rejected(t: Tcp, p: ClientSegment) {
    && !p.urg
    && (|| t.state.Closing? || t.state.Close?
        || (p.data != [] && (!t.socketOpen || t.state.CloseWait?))
        || (!p.rst && p.ack && p.ackNo != t.back.localSeq && Wrap(p.ackNo + 1) != t.back.localSeq
            && CompareU32(p.ackNo, t.back.localSeq) > 0))
  }

  /** What a segment is answered with. A reset goes out if and only if the segment is rejected,
      and then nothing else and the session closes; an acknowledgement goes out at once if and
      only if a FIN is counted at once; every other segment gets no answer. A reset of the
      client closes a live session that does not reject it, and urgent data changes nothing. */
  lemma AnswersExactly(t: Tcp, p: ClientSegment, e: PacketEvent)
    requires Inv(t)
    ensures var u, n := HandleTcp(t, p, e), |t.log.emitted|;
            && t.log.emitted <= u.log.emitted && |u.log.emitted| <= n + 1
            && (|u.log.emitted| == n + 1 && LastPacket(u).rst <==> Rejected(t, p))
            && (|u.log.emitted| == n + 1 && !LastPacket(u).rst <==> u.flow.fins == t.flow.fins + 1)
            && (Rejected(t, p) ==>
                  IsReset(LastPacket(u)) && (u.state.Closing? || (t.state.Close? && u.state.Close?)))
            && (p.rst && !p.urg && !Rejected(t, p) ==> u.state.Closing?)
            && (p.urg ==> u == t)
  {
    hide HeaderWindow, HandleFlags, Insert, CompareU32, Wrap;
    if !p.urg && !t.state.Closing? && !t.state.Close? {
      var u := Noted(t, p, e);
      FlagsAnswer(if p.data != [] then u.(flow := QueueTcp(u.flow, p)) else u, p, e.written);
    }
  }

  lemma FlagsAnswer(t: Tcp, p: ClientSegment, written: bool)
    requires !t.state.Closing? && !t.state.Close?
    ensures var u, n := HandleFlags(t, p, written), |t.log.emitted|;
            && t.log.emitted <= u.log.emitted && |u.log.emitted| <= n + 1
            && (|u.log.emitted| == n + 1 && LastPacket(u).rst
                <==> !p.rst && p.ack && p.ackNo != t.back.localSeq && Wrap(p.ackNo + 1) != t.back.localSeq
                     && CompareU32(p.ackNo, t.back.localSeq) > 0)
            && (|u.log.emitted| == n + 1 && LastPacket(u).rst ==> IsReset(LastPacket(u)) && u.state.Closing?)
            && (|u.log.emitted| == n + 1 && !LastPacket(u).rst <==> u.flow.fins == t.flow.fins + 1)
            && (p.rst ==> u.state.Closing?)
  {
    hide HeaderWindow, CompareU32, HandleFin, Wrap;
    FinAnswer(t, written);
    if p.ackNo != t.back.localSeq {
      CompareConverse(p.ackNo, t.back.localSeq);
    }
  }

  lemma FinAnswer(t: Tcp, written: bool)
    ensures var u, n := HandleFin(t, written), |t.log.emitted|;
            && t.log.emitted <= u.log.emitted && |u.log.emitted| <= n + 1
            && (|u.log.emitted| == n + 1 <==> u.flow.fins == t.flow.fins + 1)
            && (|u.log.emitted| == n + 1 ==> !LastPacket(u).rst)
  {
    hide HeaderWindow, Wrap;
  }

  lemma CompareConverse(a: u32, b: u32)
    requires a != b
    ensures CompareU32(a, b) > 0 <==> !(CompareU32(a, b) < 0)
  {
  }

  // ---------------------------------------------------------------- expiry

  /** The reaper closes a live session exactly when its time is up, and tells the client unless
      the connection was never made; a session that is closing it always closes. */
  lemma ReaperClosesExactly(t: Tcp, e: ReapEvent)
    requires Inv(t) && e.maxSessions > 0 && !t.state.Close?
    ensures var u := CheckTcpSession(t, e).0;
            var due := t.time + TcpTimeout(t.state, e.sessions, e.maxSessions) < e.now;
            && (u.state.Close? <==> t.state.Closing? || due)
            && (!u.state.Close? ==> u == t)
            && (|u.log.emitted| == |t.log.emitted|
                + if due && !t.state.Closing? && !t.state.Listen? then 1 else 0)
  {
    hide HeaderWindow, TcpTimeout;
  }

  /** A handled segment restarts the clock of a session: a session that survives it is not
      expired until its timeout has passed from then on. */
  lemma SegmentRestartsClock(t: Tcp, p: ClientSegment, e: PacketEvent, r: ReapEvent)
    requires Inv(t) && !t.state.Closing? && !t.state.Close? && !p.urg && r.maxSessions > 0
    ensures var u := HandleTcp(t, p, e);
            !u.state.Closing? && !u.state.Close? ==>
              (CheckTcpSession(u, r).0 == u
               <==> r.now <= e.now + TcpTimeout(u.state, r.sessions, r.maxSessions))
  {
    hide PacketFor, Insert, TcpTimeout, CompareU32;
    var u := HandleTcp(t, p, e);
    HandleTcpKept(t, p, e);
    if !u.state.Close? {
      ReaperClosesExactly(u, r);
    }
  }

  /** A timeout shrinks with the share of sessions in use: whole when there are none, never
      negative within the limit, monotone, and used up from the limit on. */
  lemma ScaledShrinks(base: nat, s: nat, s': nat, max: nat)
    requires max > 0 && s <= s'
    ensures Scaled(base, 0, max) == base
    ensures s <= max ==> 0 <= Scaled(base, s, max) <= base
    ensures Scaled(base, s', max) <= Scaled(base, s, max)
    ensures s >= max ==> Scaled(base, s, max) <= 0
  {
    var x, x' := s * 100 / max, s' * 100 / max;
    Share(s, s', max);
    Share(0, s, max);
    hide CDiv;
    ByShare(base, x, x');
    ByShare(base, 0, x);
    if s <= max {
      ByShare(base, x, 100);
    }
    if s >= max {
      ByShare(base, 100, x);
    }
  }

  /** It is the share of the sessions not in use: at least that share less one second, and at
      most that share and one percent of the whole. */
  lemma ScaledIsShare(base: nat, s: nat, max: nat)
    requires max > 0 && s <= max
    ensures base * (max - s) - max < max * Scaled(base, s, max)
    ensures 100 * (max * Scaled(base, s, max)) <= 100 * (base * (max - s)) + base * max
  {
    var x := s * 100 / max;
    Share(s, s, max);
    var c, n, f := 100 - x, Scaled(base, s, max), max - s;
    PercentFree(s, max, x);
    Hundredths(base * c, n);
    hide CDiv, Scaled;
    var d, cm, b: nat := base * c, c * max, base;
    assert d * max == b * cm by {
      Associate(base, c, max);
    }
    Bounds(b, cm, f, max);
    Slack(d, n, max);
    assert b * f == base * (max - s) && b * max == base * max;
    assert max * n == max * Scaled(base, s, max);
  }

  lemma Associate(x: int, y: int, z: int)
    ensures (x * y) * z == x * (y * z)
  {
  }

  lemma PercentFree(s: nat, max: nat, x: nat)
    requires max > 0 && s <= max && x == s * 100 / max
    ensures 100 * (max - s) <= (100 - x) * max < 100 * (max - s) + max
  {
    assert s * 100 == x * max + (s * 100) % max;
    assert (100 - x) * max == 100 * max - x * max;
  }

  lemma Hundredths(a: nat, n: int)
    requires n == CDiv(a, 100)
    ensures 100 * n <= a < 100 * n + 100
  {
  }

  lemma Bounds(base: nat, cm: nat, f: nat, max: nat)
    requires 100 * f <= cm < 100 * f + max
    ensures 100 * (base * f) <= base * cm <= 100 * (base * f) + base * max
  {
    var r := cm - 100 * f;
    assert base * cm == base * (100 * f) + base * r;
    assert base * (100 * f) == 100 * (base * f);
    assert 0 <= base * r <= base * max;
  }

  lemma Slack(d: nat, n: int, max: nat)
    requires max > 0 && 100 * n <= d < 100 * n + 100
    ensures 100 * (max * n) <= d * max < 100 * (max * n) + 100 * max
  {
    var r := d - 100 * n;
    assert d * max == (100 * n) * max + r * max;
    assert (100 * n) * max == 100 * (max * n);
    assert 0 <= r * max <= 99 * max;
  }

  /** The scaled timeout falls with the share in use, from all of it to nothing. */
  lemma ByShare(base: nat, x: nat, y: nat)
    requires x <= y
    ensures CDiv(base * (100 - y), 100) <= CDiv(base * (100 - x), 100)
    ensures CDiv(base * (100 - 0), 100) == base && CDiv(base * (100 - 100), 100) == 0
  {
    Shrink(base, x, y);
    CDivMonotone(base * (100 - y), base * (100 - x));
  }

  lemma Share(s: nat, s': nat, max: nat)
    requires max > 0 && s <= s'
    ensures 0 * 100 / max == 0 && s * 100 / max <= s' * 100 / max
    ensures s <= max ==> s * 100 / max <= 100
    ensures s >= max ==> s * 100 / max >= 100
  {
    DivMonotone(s * 100, s' * 100, max);
    if s <= max {
      DivMonotone(s * 100, 100 * max, max);
      DivExact(max);
    }
    if s >= max {
      DivMonotone(100 * max, s * 100, max);
      DivExact(max);
    }
  }

  lemma DivExact(max: nat)
    requires max > 0
    ensures 100 * max / max == 100
  {
    assert 100 * max == max * 100 + 0;
    var q := 100 * max / max;
    assert 100 * max == q * max + (100 * max) % max;
    if q < 100 {
      Step(q, 100, max);
    } else if q > 100 {
      Step(100, q, max);
    }
  }

  lemma Step(p: nat, q: nat, d: nat)
    requires p < q
    ensures p * d + d <= q * d
  {
    assert p * d + d == (p + 1) * d;
  }

  lemma DivMonotone(a: nat, b: nat, d: nat)
    requires d > 0 && a <= b
    ensures a / d <= b / d
  {
    var p, q := a / d, b / d;
    assert a == p * d + a % d && b == q * d + b % d;
    if q < p {
      Step(q, p, d);
    }
  }

  lemma Shrink(base: nat, x: nat, y: nat)
    requires x <= y
    ensures base * (100 - y) <= base * (100 - x)
  {
  }

  lemma CDivMonotone(a: int, b: int)
    requires a <= b
    ensures CDiv(a, 100) <= CDiv(b, 100)
  {
  }

  // ---------------------------------------------------------------- polling

  /** The mask asks for exactly the events that have work to do: writable when a socket that
      takes even one byte moves the forwarding on, readable when one byte from the socket can
      be passed to the client. What has to wait for anything else asks for an early look. */
  lemma MaskMatchesWork(t: Tcp, e: MonitorEvent, x: SocketEvent, stream: Stream)
    requires Inv(t) && StreamOk(t.flow, stream) && (t.state.Established? || t.state.CloseWait?) && t.mss > 0
    requires x.epollin && x.recv == Received([0])
    ensures var m := MaskFor(t, e.sendbuf, e.unsent);
            var room := ReceiveBuffer(t.socketOpen, e.sendbuf, e.unsent);
            && (m.epollout <==> |Drain(t.flow, room, [Accepted(1)]).forwarded| > |t.flow.forwarded|)
            && (m.epollin <==> ReadSocket(t, x).back.received > t.back.received)
            && ((t.flow.forward != [] && !m.epollout) || !m.epollin <==> Recheck(t, e))
  {
    hide HeaderWindow, PacketFor, SendWindow, ReceiveBuffer;
    var room := ReceiveBuffer(t.socketOpen, e.sendbuf, e.unsent);
    if Forwardable(t.flow, room) {
      OneByteMoves(t.flow, room, stream);
    }
  }

  lemma OneByteMoves(f: Flow, room: int, stream: Stream)
    requires StreamOk(f, stream) && Forwardable(f, room)
    ensures |Drain(f, room, [Accepted(1)]).forwarded| > |f.forwarded|
  {
    HeadAtPoint(f, room, stream);
    var g := SendHead(f, Accepted(1));
    SendHeadCounted(f, room, Accepted(1));
    assert |g.forwarded| == |f.forwarded| + 1;
    if |g.forward| < |f.forward| {
      DrainCounted(g, room - (f.forward[0].Len() - f.forward[0].sent), []);
    }
  }

  /** A closed send window is probed at most once per interval, with the number before the one
      expected, and the session's own numbers do not move. */
  lemma KeepAliveProbes(t: Tcp, e: MonitorEvent)
    requires Inv(t) && t.socketOpen
    ensures var u := MonitorTcp(t, e);
            var probes := (t.state.Established? || t.state.CloseWait?) && SendWindow(t.back) == 0
                          && e.ms - t.lastKeepAlive > EPOLL_MIN_CHECK;
            && u.flow == t.flow && u.back == t.back
            && |u.log.emitted| == |t.log.emitted| + (if probes then 1 else 0)
            && (probes ==> LastPacket(u).ackNo == Wrap(t.flow.remoteSeq - 1) && u.lastKeepAlive == e.ms)
  {
    hide HeaderWindow, SendWindow, Forwardable, ReceiveBuffer;
    MonitorKept(t, e);
  }
}
