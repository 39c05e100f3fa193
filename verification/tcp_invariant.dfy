/** What every reachable state of a direct session satisfies, whatever the client, the
    socket, the clock and the tun device do: counting, descriptor ownership, state order. */
module TcpInvariant {
  import opened Serial
  import opened TcpTypes
  import opened TcpSpec
  import opened TcpFrame

  /** `remote_seq` counts the SYN, the forwarded bytes and the FIN, each once; a FIN is not
      counted while bytes are queued. */
  predicate Counted(f: Flow) {
    && f.syns <= 1 && f.fins <= 1
    && f.remoteSeq == Wrap(f.start + f.syns + |f.forwarded| + f.fins)
    && |f.accepted| + f.lost == |f.forwarded|
    && (f.fins == 1 ==> f.forward == [])
    && SentFits(f.forward)
  }

  /** Which counts go with which state. */
  predicate Staged(s: State, f: Flow) {
    && (s.Listen? ==> f.syns == 0)
    && (Rank(SynRecv) <= Rank(s) < Rank(Closing) ==> f.syns == 1)
    && (Rank(s) < Rank(CloseWait) || s.FinWait1? ==> f.fins == 0)
    && (s.CloseWait? ==> (f.fins == 1 <==> f.forward == []))
    && (s.FinWait1? || s.LastAck? ==> f.forward == [])
    && (s.LastAck? ==> f.fins == 1)
  }

  /** The socket is open up to the local FIN, and it is closed once. */
  predicate Owned(t: Tcp) {
    && (Rank(t.state) <= Rank(Established) || t.state.CloseWait? ==> t.socketOpen)
    && (t.state.FinWait1? || t.state.LastAck? || t.state.Close? ==> !t.socketOpen)
    && t.log.closes == (if t.socketOpen then 0 else 1)
    && (t.log.freed ==> t.state.Close?)
    && (t.state.Close? ==> t.time == t.log.closedAt)
  }

  /** The acknowledgement of a packet covers the SYN, FIN and forwarded bytes counted when it
      was written, or one number less (a keep-alive); forwarded and accepted bytes differ by no
      more than the bytes of failed `send` calls. */
  predicate AckCovered(f: Flow, e: Emission) {
    && e.syns <= f.syns && e.fins <= f.fins && e.forwarded <= |f.forwarded|
    && e.accepted <= e.forwarded <= e.accepted + f.lost
    && (e.pkt.ack ==> || e.pkt.ackNo == Wrap(f.start + e.syns + e.forwarded + e.fins)
                      || e.pkt.ackNo == Wrap(f.start + e.syns + e.forwarded + e.fins - 1))
  }

  predicate AcksCovered(f: Flow, emitted: seq<Emission>) {
    forall e :: e in emitted ==> AckCovered(f, e)
  }

  /** The session is direct, and the scale factors are within section 2.3 of RFC 7323. */
  predicate Direct(t: Tcp) {
    !t.tunnelled && t.connect.ConnectNotSent? && t.recvScale <= MAX_SCALE && t.sendScale <= MAX_SCALE
  }

  predicate Inv(t: Tcp) {
    && Direct(t) && Counted(t.flow) && Staged(t.state, t.flow) && Owned(t)
    && AcksCovered(t.flow, t.log.emitted)
  }

  /** LISTEN < SYN_RECV < ESTABLISHED < CLOSE_WAIT, FIN_WAIT1 < LAST_ACK < CLOSING < CLOSE. */
  function Rank(s: State): nat {
    match s
    case Listen => 0
    case SynRecv => 1
    case Established => 2
    case CloseWait => 3
    case FinWait1 => 3
    case LastAck => 4
    case Closing => 5
    case Close => 6
  }

  /** A step of the state order: stay, or move strictly up. */
  predicate MovesUp(a: State, b: State) {
    a == b || Rank(a) < Rank(b)
  }

  /** What one call keeps: the invariant, the order of states, and all that was counted. */
  predicate Kept(t: Tcp, u: Tcp) {
    Inv(u) && MovesUp(t.state, u.state) && Grows(t.flow, u.flow) && u.back.start == t.back.start
  }

  // ---------------------------------------------------------------- writing

  lemma CoveredGrows(f: Flow, g: Flow, emitted: seq<Emission>)
    requires AcksCovered(f, emitted) && Grows(f, g)
    ensures AcksCovered(g, emitted)
  {
    forall e | e in emitted
      ensures AckCovered(g, e)
    {
      assert AckCovered(f, e);
    }
  }

  lemma CoveredOneMore(f: Flow, emitted: seq<Emission>, e: Emission)
    requires AcksCovered(f, emitted) && AckCovered(f, e)
    ensures AcksCovered(f, emitted + [e])
  {
  }

  /** `write_tcp` with the present counts emits a covered packet. */
  lemma WriteCovered(t: Tcp, syn: bool, ack: bool, fin: bool, rst: bool, data: seq<byte>, written: bool)
    requires Counted(t.flow) && AcksCovered(t.flow, t.log.emitted)
    ensures AcksCovered(t.flow, WriteTcp(t, syn, ack, fin, rst, data, written).log.emitted)
  {
    CoveredOneMore(t.flow, t.log.emitted, Stamped(PacketFor(t, syn, ack, fin, rst, data), t.flow, written));
  }

  lemma CountSynCounted(f: Flow)
    requires Counted(f) && f.syns == 0
    ensures Counted(CountSyn(f)) && Grows(f, CountSyn(f))
  {
    WrapAdd(f.start + |f.forwarded| + f.fins, 1);
  }

  lemma CountFinCounted(f: Flow)
    requires Counted(f) && f.fins == 0 && f.forward == []
    ensures Counted(CountFin(f)) && Grows(f, CountFin(f))
  {
    WrapAdd(f.start + f.syns + |f.forwarded|, 1);
  }

  lemma WriteRstKept(t: Tcp)
    requires Inv(t)
    ensures Kept(t, WriteRst(t))
  {
    var c := if t.state.Listen? then t.(flow := CountSyn(t.flow)) else t;
    if t.state.Listen? {
      CountSynCounted(t.flow);
    }
    CoveredGrows(t.flow, c.flow, t.log.emitted);
    WriteCovered(c, false, t.state.Listen?, false, true, [], false);
  }

  // ---------------------------------------------------------------- the forward queue

  lemma {:induction false} InsertKeepsFit(q: seq<Segment>, n: Segment)
    requires SentFits(q) && n.sent <= n.Len()
    ensures SentFits(Insert(q, n)) && Insert(q, n) != []
  {
    if q != [] && CompareU32(q[0].seqNo, n.seqNo) < 0 {
      InsertKeepsFit(q[1..], n);
    }
  }

  lemma QueueCounted(f: Flow, p: ClientSegment)
    requires Counted(f) && f.fins == 0
    ensures Counted(QueueTcp(f, p)) && Grows(f, QueueTcp(f, p))
  {
    InsertKeepsFit(f.forward, Segment(p.seqNo, 0, p.psh, p.data));
  }

  /** One `send` moves `remote_seq` by the bytes it takes. */
  lemma SendHeadCounted(f: Flow, room: int, r: SendResult)
    requires Counted(f) && Forwardable(f, room)
    ensures Counted(SendHead(f, r)) && Grows(f, SendHead(f, r))
  {
    var g := f.forward[0];
    var n := Taken(r, g.Len() - g.sent);
    WrapAdd(g.seqNo + g.sent, n);
    WrapAdd(f.start + f.syns + |f.forwarded| + f.fins, n);
  }

  /** The forward loop keeps `remote_seq` equal to what was counted, for all send results. */
  lemma {:induction false} DrainCounted(f: Flow, room: int, sends: seq<SendResult>)
    requires Counted(f)
    ensures var d := Drain(f, room, sends);
            Counted(d) && Grows(f, d) && d.syns == f.syns && d.fins == f.fins
    ensures Drain(f, room, sends) == f || Forwardable(f, room)
    ensures f.forward == [] ==> Drain(f, room, sends) == f
    decreases |f.forward|
  {
    if Forwardable(f, room) {
      var g := SendHead(f, SendAt(sends));
      SendHeadCounted(f, room, SendAt(sends));
      if |g.forward| < |f.forward| {
        DrainCounted(g, room - (f.forward[0].Len() - f.forward[0].sent), Rest(sends));
      }
    }
  }

  // ---------------------------------------------------------------- socket events

  lemma ForwardAndAcknowledgeKept(t: Tcp, e: SocketEvent)
    requires Inv(t) && t.socketOpen && !t.state.Listen? && e.sendbuf < TWO32
    ensures Kept(t, ForwardAndAcknowledge(t, e))
    ensures ForwardAndAcknowledge(t, e).socketOpen
  {
    if e.epollout {
      var room := ReceiveBuffer(t.socketOpen, e.sendbuf, e.unsent);
      DrainCounted(t.flow, room, e.sends);
      AcknowledgeKept(t, t.(flow := Drain(t.flow, room, e.sends)), Forwardable(t.flow, room), e);
    } else {
      AcknowledgeKept(t, t, false, e);
    }
  }

  /** The acknowledgement after the forward loop, which turned t into d. */
  lemma AcknowledgeKept(t: Tcp, d: Tcp, fwd: bool, e: SocketEvent)
    requires Inv(t) && t.socketOpen && e.sendbuf < TWO32
    requires d == t.(flow := d.flow) && Counted(d.flow) && Grows(t.flow, d.flow)
    requires d.flow.syns == t.flow.syns && d.flow.fins == t.flow.fins
    requires d.flow != t.flow ==> fwd
    requires fwd ==> t.flow.forward != []
    ensures Kept(t, Acknowledge(d, fwd, e)) && Acknowledge(d, fwd, e).socketOpen
  {
    var flow := if fwd && d.flow.forward == [] && d.state.CloseWait? then CountFin(d.flow) else d.flow;
    if flow != d.flow {
      CountFinCounted(d.flow);
    }
    var c := d.(recvWindow := NewWindow(d, e), flow := flow);
    CoveredGrows(t.flow, flow, t.log.emitted);
    WriteCovered(c, false, true, false, false, [], e.ackWritten);
  }

  lemma SocketEofKept(t: Tcp, written: bool)
    requires Inv(t) && t.socketOpen && (t.state.Established? || t.state.CloseWait?)
    ensures Kept(t, SocketEof(t, written))
  {
    WriteCovered(t, false, true, true, false, [], written);
    WriteRstKept(t);
  }

  lemma ReadSocketKept(t: Tcp, e: SocketEvent)
    requires Inv(t) && t.socketOpen && (t.state.Established? || t.state.CloseWait?)
    ensures Kept(t, ReadSocket(t, e))
  {
    if e.epollin && SendWindow(t.back) > 0 {
      var u := t.(time := e.now);
      match e.recv
      case RecvError(transient) => WriteRstKept(u);
      case Received(data) =>
        var chunk := ReadChunk(t.back, t.mss, data);
        if chunk == [] {
          SocketEofKept(u, e.replyWritten);
        } else {
          var b := u.back.(received := u.back.received + |chunk|, read := u.back.read + chunk);
          WriteCovered(u.(back := b), false, true, false, false, chunk, e.replyWritten);
        }
    }
  }

  lemma AcceptConnectionKept(t: Tcp, e: SocketEvent)
    requires Inv(t) && t.state.Listen?
    ensures Kept(t, AcceptConnection(t, e))
  {
    CountSynCounted(t.flow);
    CoveredGrows(t.flow, CountSyn(t.flow), t.log.emitted);
    WriteCovered(t.(flow := CountSyn(t.flow)), true, true, false, false, [], e.replyWritten);
  }

  lemma CheckTcpSocketKept(t: Tcp, e: SocketEvent)
    requires Inv(t) && t.socketOpen && e.sendbuf < TWO32
    ensures Kept(t, CheckTcpSocket(t, e))
  {
    if e.err {
      WriteRstKept(t.(time := e.now));
    } else if t.state.Listen? {
      WriteRstKept(t);
      AcceptConnectionKept(t, e);
    } else {
      ForwardAndAcknowledgeKept(t, e);
      var a := ForwardAndAcknowledge(t, e);
      if a.state.Established? || a.state.CloseWait? {
        ReadSocketKept(a, e);
      }
    }
  }

  // ---------------------------------------------------------------- packets from tun

  lemma HandleFinKept(t: Tcp, written: bool)
    requires Inv(t)
    ensures Kept(t, HandleFin(t, written))
  {
    if t.state.FinWait1? || (t.state.Established? && t.flow.forward == []) {
      CountFinCounted(t.flow);
      CoveredGrows(t.flow, CountFin(t.flow), t.log.emitted);
      WriteCovered(t.(flow := CountFin(t.flow)), false, true, false, false, [], written);
    }
  }

  lemma HandleFlagsKept(t: Tcp, p: ClientSegment, written: bool)
    requires Inv(t) && !t.state.Closing? && !t.state.Close?
    ensures Kept(t, HandleFlags(t, p, written))
  {
    HandleFinKept(t, written);
    HandleOtherAckKept(t, p.ackNo);
  }

  lemma HandleOtherAckKept(t: Tcp, ackNo: u32)
    requires Inv(t)
    ensures Kept(t, HandleOtherAck(t, ackNo))
  {
    WriteRstKept(t);
  }

  lemma HandleTcpKept(t: Tcp, p: ClientSegment, e: PacketEvent)
    requires Inv(t)
    ensures Kept(t, HandleTcp(t, p, e))
  {
    if p.urg {
    } else if t.state.Closing? || t.state.Close? {
      WriteRstKept(t);
    } else {
      var u := Noted(t, p, e);
      if p.data != [] && (!u.socketOpen || u.state.CloseWait?) {
        WriteRstKept(u);
      } else {
        if p.data != [] {
          QueueCounted(u.flow, p);
          CoveredGrows(u.flow, QueueTcp(u.flow, p), u.log.emitted);
        }
        HandleFlagsKept(if p.data != [] then u.(flow := QueueTcp(u.flow, p)) else u, p, e.written);
      }
    }
  }

  // ---------------------------------------------------------------- monitoring and reaping

  /** The keep-alive leaves the counts where they were and acknowledges one number less. */
  lemma KeepAliveRestores(t: Tcp, e: MonitorEvent)
    requires Inv(t) && t.socketOpen && (t.state.Established? || t.state.CloseWait?)
    ensures KeepAlive(t, e).flow == t.flow
    ensures Kept(t, KeepAlive(t, e))
  {
    hide HeaderWindow, SendWindow;
    var n := t.flow.start + t.flow.syns + |t.flow.forwarded| + t.flow.fins;
    WrapAdd(n, -1);
    WrapAdd(n - 1, 1);
    var c := t.(flow := t.flow.(remoteSeq := Wrap(t.flow.remoteSeq - 1)));
    CoveredOneMore(t.flow, t.log.emitted, Stamped(PacketFor(c, false, true, false, false, []), t.flow, e.written));
  }

  lemma MonitorKept(t: Tcp, e: MonitorEvent)
    requires Inv(t) && t.socketOpen
    ensures Kept(t, MonitorTcp(t, e)) && MonitorTcp(t, e).flow == t.flow
  {
    if t.state.Established? || t.state.CloseWait? {
      KeepAliveRestores(t, e);
    }
  }

  lemma CheckTcpSessionKept(t: Tcp, e: ReapEvent)
    requires Inv(t) && e.maxSessions > 0
    ensures Kept(t, CheckTcpSession(t, e).0)
  {
    WriteRstKept(t);
  }

  // ---------------------------------------------------------------- runs

  /** Every step of every kind keeps the invariant and moves the state up the order. */
  lemma StepKept(t: Tcp, s: Step)
    requires Inv(t) && Enabled(t, s)
    ensures Kept(t, Apply(t, s))
  {
    match s
    case FromTun(p, e) => HandleTcpKept(t, p, e);
    case FromSocket(e) => CheckTcpSocketKept(t, e);
    case Monitor(e) => MonitorKept(t, e);
    case Reap(e) => CheckTcpSessionKept(t, e);
    case Terminate => WriteRstKept(t);
  }

  /** A fresh direct session. */
  function NewDirect(isn: u32, localIsn: u32, mss: nat, scale: nat, window: u16, room: nat, now: int): (t: Tcp)
    requires scale <= MAX_SCALE && room < TWO32
    ensures Inv(t)
  {
    NewSession(false, isn, localIsn, mss, scale, window, room, now)
  }

  /** A run of a direct session: each step is enabled where it happens. */
  predicate Run(t: Tcp, steps: seq<Step>)
    requires Inv(t)
    decreases |steps|
  {
    steps == [] ||
    (Enabled(t, steps[0]) && (StepKept(t, steps[0]); Run(Apply(t, steps[0]), steps[1..])))
  }

  /** The state after a run. */
  function After(t: Tcp, steps: seq<Step>): Tcp
    requires Inv(t) && Run(t, steps)
    decreases |steps|
  {
    if steps == [] then t else StepKept(t, steps[0]); After(Apply(t, steps[0]), steps[1..])
  }

  /** Over every run the invariant holds, the state only moves up, and what was forwarded
      stays forwarded. */
  lemma {:induction false} RunKept(t: Tcp, steps: seq<Step>)
    requires Inv(t) && Run(t, steps)
    ensures Kept(t, After(t, steps))
    decreases |steps|
  {
    if steps != [] {
      StepKept(t, steps[0]);
      RunKept(Apply(t, steps[0]), steps[1..]);
    }
  }

  /** Conservation over every run: from SYN_RECV to LAST_ACK `remote_seq` is the client's first
      number plus one, the bytes the socket accepted, the bytes of failed `send` calls and one
      for the FIN; the FIN is counted at most once and never while bytes are queued, in
      CLOSE_WAIT exactly when none are, and none are in FIN_WAIT1 and LAST_ACK. */
  lemma NumbersCounted(isn: u32, localIsn: u32, mss: nat, scale: nat, window: u16, room: nat, now: int,
                       steps: seq<Step>)
    requires scale <= MAX_SCALE && room < TWO32
    requires Run(NewDirect(isn, localIsn, mss, scale, window, room, now), steps)
    ensures var u := After(NewDirect(isn, localIsn, mss, scale, window, room, now), steps);
            var f := u.flow;
            && (Rank(SynRecv) <= Rank(u.state) < Rank(Closing) ==>
                  f.remoteSeq == Wrap(isn + 1 + |f.accepted| + f.lost + f.fins))
            && f.fins <= 1 && (f.fins == 1 ==> f.forward == [])
            && (u.state.CloseWait? ==> (f.fins == 1 <==> f.forward == []))
            && (u.state.FinWait1? || u.state.LastAck? ==> f.forward == [])
            && (u.state.LastAck? ==> f.fins == 1)
  {
    RunKept(NewDirect(isn, localIsn, mss, scale, window, room, now), steps);
  }

  /** Descriptor ownership over every run: the socket is open up to CLOSE_WAIT and closed in
      FIN_WAIT1, LAST_ACK and CLOSE; it is closed at most once, and exactly once before the
      session is freed. */
  lemma SocketClosedOnce(isn: u32, localIsn: u32, mss: nat, scale: nat, window: u16, room: nat, now: int,
                         steps: seq<Step>)
    requires scale <= MAX_SCALE && room < TWO32
    requires Run(NewDirect(isn, localIsn, mss, scale, window, room, now), steps)
    ensures var u := After(NewDirect(isn, localIsn, mss, scale, window, room, now), steps);
            && (Rank(u.state) < Rank(CloseWait) || u.state.CloseWait? ==> u.socketOpen)
            && (u.state.FinWait1? || u.state.LastAck? || u.state.Close? ==> !u.socketOpen)
            && u.log.closes == (if u.socketOpen then 0 else 1)
            && (u.log.freed ==> u.state.Close? && u.log.closes == 1)
  {
    RunKept(NewDirect(isn, localIsn, mss, scale, window, room, now), steps);
  }

  /** The number of steps of a run that change the state. */
  function StateChanges(t: Tcp, steps: seq<Step>): nat
    requires Inv(t) && Run(t, steps)
    decreases |steps|
  {
    if steps == [] then 0
    else
      StepKept(t, steps[0]);
      var u := Apply(t, steps[0]);
      (if u.state == t.state then 0 else 1) + StateChanges(u, steps[1..])
  }

  /** A session makes at most six state changes, and a closed one makes none. */
  lemma {:induction false} AtMostSixStateChanges(t: Tcp, steps: seq<Step>)
    requires Inv(t) && Run(t, steps)
    ensures StateChanges(t, steps) + Rank(t.state) <= Rank(After(t, steps).state) <= 6
    ensures t.state.Close? ==> StateChanges(t, steps) == 0 && After(t, steps).state.Close?
    decreases |steps|
  {
    if steps != [] {
      StepKept(t, steps[0]);
      AtMostSixStateChanges(Apply(t, steps[0]), steps[1..]);
    }
  }

  /** A session that is freed had been in CLOSE for more than `TCP_KEEP_TIMEOUT` seconds, and
      its socket was closed exactly once. */
  lemma FreedSessionWasClosed(t: Tcp, e: ReapEvent)
    requires Inv(t) && Enabled(t, Reap(e))
    ensures var (z, del) := CheckTcpSession(t, e);
            del <==> t.state.Close? && e.now - t.log.closedAt > TCP_KEEP_TIMEOUT
    ensures var (z, del) := CheckTcpSession(t, e);
            del ==> z.state.Close? && z.log.closes == 1
  {
    CheckTcpSessionKept(t, e);
  }
}
