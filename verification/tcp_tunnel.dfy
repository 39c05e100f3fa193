/** Sessions to port 443: the CONNECT request to the proxy and the gate in front of the
    client's data. */
module TcpTunnel {
  import opened Serial
  import opened TcpTypes
  import opened Powers
  import opened TcpSpec
  import opened TcpFrame
  import opened TcpInvariant

  /** NOT_SENT < SENT < ESTABLISHED. */
  function ConnectRank(c: ConnectSent): nat {
    match c
    case ConnectNotSent => 0
    case ConnectSent => 1
    case ConnectEstablished => 2
  }

  /** The proxy's reply was read before the session connects; CONNECT was sent at most once. */
  predicate Tunnel(t: Tcp) {
    && t.tunnelled && t.recvScale <= MAX_SCALE && t.sendScale <= MAX_SCALE && SentFits(t.flow.forward)
    && t.log.connects == (if t.connect.ConnectNotSent? then 0 else 1)
    && (Rank(Established) <= Rank(t.state) < Rank(Closing) ==> t.connect.ConnectEstablished?)
  }

  /** The bytes of the client that have left the queue, with or without those of failed `send`
      calls. */
  function Passed(f: Flow, failed: bool): nat {
    if failed then |f.forwarded| else |f.accepted|
  }

  // ---------------------------------------------------------------- the forward loop

  /** The queue holds a byte that the forward loop passes on: the segments in front of it are
      empty, or taken by failed `send` calls when these do not count; all are in order and in
      the room, and the `send` of the byte takes some. */
  predicate PassesByte(q: seq<Segment>, r: u32, room: int, sends: seq<SendResult>, failed: bool) {
    q != [] && Wrap(q[0].seqNo + q[0].sent) == r &&
    var n := q[0].Len() - q[0].sent;
    n < room &&
    if n == 0 || (SendAt(sends).SendError? && !failed) then
      PassesByte(q[1..], Wrap(q[0].seqNo + q[0].Len()), room - n, Rest(sends), failed)
    else SendAt(sends) != Accepted(0)
  }

  /** One `send` of the head passes a byte, or takes all of the head without passing one, or
      leaves the flow's bytes where they were and ends the loop. */
  lemma SendHeadPasses(f: Flow, r: SendResult, failed: bool)
    requires SentFits(f.forward) && f.forward != []
    ensures var g := SendHead(f, r);
            var n := f.forward[0].Len() - f.forward[0].sent;
            && Passed(f, failed) <= Passed(g, failed) && SentFits(g.forward)
            && (Passed(f, failed) < Passed(g, failed)
                <==> n > 0 && r != Accepted(0) && (r.SendError? ==> failed))
            && (n == 0 || r.SendError? ==>
                  g.forward == f.forward[1..] && g.remoteSeq == Wrap(f.forward[0].seqNo + f.forward[0].Len()))
            && (n > 0 && r == Accepted(0) ==> |g.forward| == |f.forward|)
  {
    hide Wrap;
  }

  /** The forward loop takes bytes off the queue if and only if `PassesByte` says so. */
  lemma {:induction false} DrainPasses(f: Flow, room: int, sends: seq<SendResult>, failed: bool)
    requires SentFits(f.forward)
    ensures var d := Drain(f, room, sends);
            && Passed(f, failed) <= Passed(d, failed)
            && (Passed(f, failed) < Passed(d, failed)
                <==> PassesByte(f.forward, f.remoteSeq, room, sends, failed))
    decreases |f.forward|
  {
    hide Wrap, SendHead, Passed;
    if Forwardable(f, room) {
      var g := SendHead(f, SendAt(sends));
      SendHeadPasses(f, SendAt(sends), failed);
      if |g.forward| < |f.forward| {
        DrainPasses(g, room - (f.forward[0].Len() - f.forward[0].sent), Rest(sends), failed);
      }
    }
  }

  // ---------------------------------------------------------------- steps

  /** The step lets client data through the gate: no reply was read, the session is past LISTEN
      (it waits for its handshake, or is closing), and a writable event finds a byte to pass. */
  predicate PassesGate(t: Tcp, s: Step, failed: bool) {
    && s.FromSocket? && !t.connect.ConnectEstablished? && !t.state.Listen?
    && !s.se.err && s.se.epollout
    && PassesByte(t.flow.forward, t.flow.remoteSeq,
                  ReceiveBuffer(t.socketOpen, s.se.sendbuf, s.se.unsent), s.se.sends, failed)
  }

  /** What a step does to the tunnel: `connect_sent` moves up by at most one, and before the
      reply bytes leave the queue if and only if the step passes the gate. */
  predicate GateKept(t: Tcp, u: Tcp, passes: bool, failed: bool) {
    && Tunnel(u) && ConnectRank(t.connect) <= ConnectRank(u.connect) <= ConnectRank(t.connect) + 1
    && Passed(t.flow, failed) <= Passed(u.flow, failed) && (passes ==> !t.connect.ConnectEstablished?)
    && (!t.connect.ConnectEstablished? ==> (Passed(t.flow, failed) < Passed(u.flow, failed) <==> passes))
  }

  lemma SocketGate(t: Tcp, e: SocketEvent, failed: bool)
    requires Tunnel(t) && e.sendbuf < TWO32
    ensures GateKept(t, CheckTcpSocket(t, e), PassesGate(t, FromSocket(e), failed), failed)
  {
    hide PacketFor, NewWindow, SendWindow, Drain, PassesByte, Forwardable, ReceiveBuffer;
    if !e.err && !t.state.Listen? {
      var room := ReceiveBuffer(t.socketOpen, e.sendbuf, e.unsent);
      CheckTcpSocketFramed(t, e);
      DrainPasses(t.flow, room, e.sends, failed);
      NeverConnects(t, e);
    }
  }

  /** Only a session past the proxy gets to its read path. */
  lemma NeverConnects(t: Tcp, e: SocketEvent)
    requires Tunnel(t) && e.sendbuf < TWO32 && !e.err && !t.state.Listen?
    ensures !t.connect.ConnectEstablished? ==> Rank(CheckTcpSocket(t, e).state) !in {2, 3, 4}
  {
    hide PacketFor, Drain, ReadSocket, Acknowledge;
    var d := t.(flow := Drained(t, e));
    var fwd := e.epollout && Forwardable(t.flow, ReceiveBuffer(t.socketOpen, e.sendbuf, e.unsent));
    AcknowledgeFramed(d, fwd, e);
  }

  lemma RequestGate(t: Tcp, e: PacketEvent, failed: bool)
    requires Tunnel(t)
    ensures GateKept(t, RequestTunnel(t, e), false, failed)
    ensures RequestTunnel(t, e).flow.forward == t.flow.forward
    ensures RequestTunnel(t, e).connect.ConnectEstablished? <==> t.connect.ConnectEstablished?
    ensures t.connect.ConnectEstablished? ==> RequestTunnel(t, e) == t
  {
    hide PacketFor;
  }

  lemma PacketGate(t: Tcp, p: ClientSegment, e: PacketEvent, failed: bool)
    requires Tunnel(t)
    ensures GateKept(t, HandleTcp(t, p, e), false, failed)
  {
    hide PacketFor, HandleSegment, Insert, RequestTunnel;
    RequestGate(t, e, failed);
    InsertKeepsFit(t.flow.forward, Segment(p.seqNo, 0, p.psh, p.data));
    if t.connect.ConnectEstablished? {
      HandleTcpFramed(t, p, e);
    }
  }

  lemma MonitorGate(t: Tcp, e: MonitorEvent, failed: bool)
    requires Tunnel(t)
    ensures GateKept(t, MonitorTcp(t, e), false, failed)
  {
    hide PacketFor, MaskFor, SendWindow, Wrap;
  }

  lemma ReapGate(t: Tcp, e: ReapEvent, failed: bool)
    requires Tunnel(t) && e.maxSessions > 0
    ensures GateKept(t, CheckTcpSession(t, e).0, false, failed)
    ensures GateKept(t, TerminateTcp(t), false, failed)
  {
    hide PacketFor, TcpTimeout, Wrap;
  }

  /** Every step of a tunnelled session, whatever its event bits, keeps the tunnel; and before
      the proxy's reply it takes client bytes off the queue exactly when it passes the gate. */
  lemma StepGate(t: Tcp, s: Step, failed: bool)
    requires Tunnel(t) && Enabled(t, s)
    ensures GateKept(t, Apply(t, s), PassesGate(t, s, failed), failed)
  {
    hide CheckTcpSocket, HandleTcp, MonitorTcp, CheckTcpSession, TerminateTcp, PassesByte;
    match s
    case FromTun(p, e) => PacketGate(t, p, e, failed);
    case FromSocket(e) => SocketGate(t, e, failed);
    case Monitor(e) => MonitorGate(t, e, failed);
    case Reap(e) => ReapGate(t, e, failed);
    case Terminate => ReapGate(t, ReapEvent(0, 0, 0, 1), failed);
  }

  // ---------------------------------------------------------------- runs

  predicate TunnelRun(t: Tcp, steps: seq<Step>)
    requires Tunnel(t)
    decreases |steps|
  {
    steps == [] ||
    (Enabled(t, steps[0]) && (StepGate(t, steps[0], true); TunnelRun(Apply(t, steps[0]), steps[1..])))
  }

  function AfterTunnel(t: Tcp, steps: seq<Step>): Tcp
    requires Tunnel(t) && TunnelRun(t, steps)
    decreases |steps|
  {
    if steps == [] then t else StepGate(t, steps[0], true); AfterTunnel(Apply(t, steps[0]), steps[1..])
  }

  /** The client's bytes that leave the queue during a run before the proxy's reply is read. */
  function Early(t: Tcp, steps: seq<Step>, failed: bool): nat
    requires Tunnel(t) && TunnelRun(t, steps)
    decreases |steps|
  {
    if steps == [] then 0
    else
      StepGate(t, steps[0], failed);
      var u := Apply(t, steps[0]);
      (if t.connect.ConnectEstablished? then 0 else Passed(u.flow, failed) - Passed(t.flow, failed))
      + Early(u, steps[1..], failed)
  }

  /** No step of the run passes the gate. */
  predicate NonePasses(t: Tcp, steps: seq<Step>, failed: bool)
    requires Tunnel(t) && TunnelRun(t, steps)
    decreases |steps|
  {
    steps == [] ||
    (!PassesGate(t, steps[0], failed)
     && (StepGate(t, steps[0], failed); NonePasses(Apply(t, steps[0]), steps[1..], failed)))
  }

  /** A fresh session to port 443. */
  function NewTunnel(isn: u32, localIsn: u32, mss: nat, scale: nat, window: u16, room: nat, now: int): (t: Tcp)
    requires scale <= MAX_SCALE && room < TWO32
    ensures Tunnel(t) && t.flow.forwarded == t.flow.accepted == []
  {
    NewSession(true, isn, localIsn, mss, scale, window, room, now)
  }

  /** Over every run of a tunnelled session CONNECT is sent at most once and `connect_sent` only
      moves up. Bytes of the client leave the queue, or reach the socket, before the proxy's
      reply is read if and only if some step of the run passes the gate. */
  lemma {:induction false} RunGated(t: Tcp, steps: seq<Step>, failed: bool)
    requires Tunnel(t) && TunnelRun(t, steps)
    ensures var u := AfterTunnel(t, steps);
            && Tunnel(u) && u.log.connects <= 1
            && ConnectRank(t.connect) <= ConnectRank(u.connect)
            && (Early(t, steps, failed) == 0 <==> NonePasses(t, steps, failed))
            && (!u.connect.ConnectEstablished? ==>
                  Passed(u.flow, failed) == Passed(t.flow, failed) + Early(t, steps, failed))
    decreases |steps|
  {
    hide PassesGate, Passed;
    if steps != [] {
      StepGate(t, steps[0], failed);
      RunGated(Apply(t, steps[0]), steps[1..], failed);
    }
  }

  // ---------------------------------------------------------------- events within the mask

  /** The bits of a socket event are in the mask that `monitor_tcp_session` computes for the
      present state. */
  predicate Masked(t: Tcp, s: Step) {
    s.FromSocket? ==>
      var m := MaskFor(t, s.se.sendbuf, s.se.unsent);
      (s.se.epollin ==> m.epollin) && (s.se.epollout ==> m.epollout)
  }

  predicate MaskedRun(t: Tcp, steps: seq<Step>)
    requires Tunnel(t) && TunnelRun(t, steps)
    decreases |steps|
  {
    steps == [] ||
    (Masked(t, steps[0]) && (StepGate(t, steps[0], true); MaskedRun(Apply(t, steps[0]), steps[1..])))
  }

  lemma {:induction false} MaskedNonePasses(t: Tcp, steps: seq<Step>, failed: bool)
    requires Tunnel(t) && TunnelRun(t, steps) && MaskedRun(t, steps)
    ensures NonePasses(t, steps, failed)
    decreases |steps|
  {
    hide PassesByte, Passed, Apply;
    if steps != [] {
      StepGate(t, steps[0], failed);
      MaskedNonePasses(Apply(t, steps[0]), steps[1..], failed);
    }
  }

  /** With all events within the mask of their moment no byte passes before the reply. */
  lemma {:induction false} MaskedRunIsGated(t: Tcp, steps: seq<Step>, failed: bool)
    requires Tunnel(t) && TunnelRun(t, steps) && MaskedRun(t, steps)
    ensures Early(t, steps, failed) == 0
  {
    hide TunnelRun, MaskedRun, Early, NonePasses;
    MaskedNonePasses(t, steps, failed);
    RunGated(t, steps, failed);
  }

  // ---------------------------------------------------------------- past the reply

  /** The session without its tunnel. */
  function AsDirect(t: Tcp): Tcp {
    t.(tunnelled := false, connect := ConnectNotSent)
  }

  lemma RstLikeDirect(t: Tcp)
    ensures WriteRst(AsDirect(t)) == AsDirect(WriteRst(t))
  {
    hide WindowField, Wrap;
  }

  lemma AckingLikeDirect(t: Tcp, syn: bool, fin: bool, data: seq<byte>, written: bool)
    ensures WriteAcking(AsDirect(t), syn, fin, data, written) == AsDirect(WriteAcking(t, syn, fin, data, written))
  {
    hide WindowField;
  }

  lemma AcknowledgeLikeDirect(t: Tcp, fwd: bool, e: SocketEvent)
    requires e.sendbuf < TWO32
    ensures Acknowledge(AsDirect(t), fwd, e) == AsDirect(Acknowledge(t, fwd, e))
  {
    hide WriteAcking, ReceiveWindow, ReceiveBuffer, CountFin;
    var window := NewWindow(t, e);
    assert NewWindow(AsDirect(t), e) == window;
    var flow := if fwd && t.flow.forward == [] && t.state.CloseWait? then CountFin(t.flow) else t.flow;
    AckingLikeDirect(t.(recvWindow := window, flow := flow), false, false, [], e.ackWritten);
  }

  lemma ReadLikeDirect(t: Tcp, e: SocketEvent)
    ensures ReadSocket(AsDirect(t), e) == AsDirect(ReadSocket(t, e))
  {
    hide WriteAcking, WriteRst, SendWindow, Wrap;
    var u := t.(time := e.now);
    RstLikeDirect(u);
    AckingLikeDirect(u, false, true, [], e.replyWritten);
    if e.recv.Received? {
      var chunk := ReadChunk(t.back, t.mss, e.recv.data);
      var b := t.back.(received := t.back.received + |chunk|, read := t.back.read + chunk);
      AckingLikeDirect(u.(back := b), false, false, chunk, e.replyWritten);
    }
  }

  lemma SocketLikeDirect(t: Tcp, e: SocketEvent)
    requires t.tunnelled && SentFits(t.flow.forward) && e.sendbuf < TWO32 && !t.state.Listen?
    ensures CheckTcpSocket(AsDirect(t), e) == AsDirect(CheckTcpSocket(t, e))
  {
    hide WriteRst, Acknowledge, ReadSocket, Drain, Forwardable, ReceiveBuffer;
    RstLikeDirect(t.(time := e.now));
    var room := ReceiveBuffer(t.socketOpen, e.sendbuf, e.unsent);
    var d := if e.epollout then t.(flow := Drain(t.flow, room, e.sends)) else t;
    AcknowledgeLikeDirect(d, e.epollout && Forwardable(t.flow, room), e);
    ReadLikeDirect(ForwardAndAcknowledge(t, e), e);
  }

  lemma FlagsLikeDirect(t: Tcp, p: ClientSegment, written: bool)
    ensures HandleFlags(AsDirect(t), p, written) == AsDirect(HandleFlags(t, p, written))
  {
    hide WriteAcking, WriteRst, CountFin, CompareU32, Wrap;
    RstLikeDirect(t);
    AckingLikeDirect(t.(flow := CountFin(t.flow)), false, false, [], written);
  }

  lemma PacketLikeDirect(t: Tcp, p: ClientSegment, e: PacketEvent)
    requires t.tunnelled && t.connect.ConnectEstablished? && t.sendScale <= MAX_SCALE
    ensures HandleTcp(AsDirect(t), p, e) == AsDirect(HandleTcp(t, p, e))
  {
    hide WriteRst, HandleFlags, QueueTcp, Pow2;
    var u := Noted(t, p, e);
    RstLikeDirect(t);
    RstLikeDirect(u);
    FlagsLikeDirect(if p.data != [] then u.(flow := QueueTcp(u.flow, p)) else u, p, e.written);
  }

  lemma TimersLikeDirect(t: Tcp, m: MonitorEvent, r: ReapEvent)
    requires t.tunnelled && r.maxSessions > 0
    ensures !t.state.Listen? ==> MonitorTcp(AsDirect(t), m) == AsDirect(MonitorTcp(t, m))
    ensures CheckTcpSession(AsDirect(t), r) == (AsDirect(CheckTcpSession(t, r).0), CheckTcpSession(t, r).1)
    ensures TerminateTcp(AsDirect(t)) == AsDirect(TerminateTcp(t))
  {
    hide WriteRst, WriteAcking, TcpTimeout, SendWindow, Forwardable, ReceiveBuffer, Wrap;
    RstLikeDirect(t);
    var f := t.flow.(remoteSeq := Wrap(t.flow.remoteSeq - 1));
    AckingLikeDirect(t.(flow := f, lastKeepAlive := m.ms), false, false, [], m.written);
  }

  /** Once the reply was read and the session is past LISTEN, every step does to a tunnelled
      session exactly what it does to a direct one. */
  lemma PastReplyLikeDirect(t: Tcp, s: Step)
    requires Tunnel(t) && Enabled(t, s) && t.connect.ConnectEstablished? && !t.state.Listen?
    ensures Apply(AsDirect(t), s) == AsDirect(Apply(t, s))
  {
    hide CheckTcpSocket, HandleTcp, MonitorTcp, CheckTcpSession, TerminateTcp;
    match s
    case FromTun(p, e) => PacketLikeDirect(t, p, e);
    case FromSocket(e) => SocketLikeDirect(t, e);
    case Monitor(e) => TimersLikeDirect(t, e, ReapEvent(0, 0, 0, 1));
    case Reap(e) => TimersLikeDirect(t, MonitorEvent(0, true, 0, 0, false), e);
    case Terminate => TimersLikeDirect(t, MonitorEvent(0, true, 0, 0, false), ReapEvent(0, 0, 0, 1));
  }

  // ---------------------------------------------------------------- opening

  /** What a segment does before the proxy's reply: its data is queued; and with a known host name
      CONNECT is sent, once, after which the session waits for the reply in LISTEN, or the session
      is reset when it could not be sent. */
  lemma RequestExactly(t: Tcp, p: ClientSegment, e: PacketEvent)
    requires Tunnel(t) && !p.urg && !t.connect.ConnectEstablished?
    ensures var u := HandleTcp(t, p, e);
            var requests, n := t.connect.ConnectNotSent? && e.hasHost, |t.log.emitted|;
            && (requests && e.connect.Accepted? ==>
                  && u.connect.ConnectSent? && u.state.Listen? && u.log.connects == t.log.connects + 1
                  && u.log.emitted == t.log.emitted)
            && (requests && e.connect.SendError? ==>
                  && u.connect == t.connect && u.state == (if t.state.Close? then Close else Closing)
                  && |u.log.emitted| == n + 1 && u.log.emitted[n].pkt.rst)
            && (!requests ==> u.connect == t.connect && u.state == t.state && u.log == t.log)
            && (!(requests && e.connect.SendError?) ==> u.flow == QueueTcp(t.flow, p))
            && u.socketOpen == t.socketOpen && u.back == t.back && u.log.freed == t.log.freed
  {
    hide WindowField, QueueTcp, HandleSegment, Wrap;
  }

  /** A readable socket in LISTEN opens the tunnel if and only if CONNECT was sent and something
      was received: then the session is established without any packet, and nothing else about it
      changes. Otherwise it is reset. */
  lemma ReplyExactly(t: Tcp, e: SocketEvent)
    requires t.tunnelled && t.state.Listen? && SentFits(t.flow.forward) && e.sendbuf < TWO32
    requires !e.err && e.epollin
    ensures var u, n := CheckTcpSocket(t, e), |t.log.emitted|;
            && (t.connect.ConnectSent? && e.recv.Received? ==>
                  u == t.(connect := ConnectEstablished, state := Established))
            && (!(t.connect.ConnectSent? && e.recv.Received?) ==>
                  u.connect == t.connect && u.state.Closing? && |u.log.emitted| == n + 1 && u.log.emitted[n].pkt.rst)
  {
    hide WindowField, Wrap;
  }

  lemma TunnelCons(t: Tcp, s: Step, rest: seq<Step>)
    requires Tunnel(t) && Enabled(t, s) && Tunnel(Apply(t, s)) && TunnelRun(Apply(t, s), rest)
    ensures TunnelRun(t, [s] + rest) && AfterTunnel(t, [s] + rest) == AfterTunnel(Apply(t, s), rest)
  {
    hide Apply, Enabled, Tunnel;
    StepGate(t, s, true);
    assert ([s] + rest)[1..] == rest;
  }

  /** The first three steps of a tunnel: the connected socket answers the SYN, the first data of
      the client brings the host name and sends CONNECT, the proxy replies. */
  const CONNECTED := SocketEvent(false, false, true, 0, 0, 0, 0, [], true, Received([]), true)
  const REPLY := SocketEvent(false, true, false, 0, 0, 0, 0, [], true, Received([0x48]), true)

  function HelloSegment(data: seq<byte>): ClientSegment {
    ClientSegment(1001, 5001, false, true, true, false, false, false, 1000, data)
  }

  function Forwarding(data: seq<byte>): SocketEvent {
    SocketEvent(false, false, true, 0, 0, 0, 0, [Accepted(|data|)], true, Received([]), true)
  }

  function OpeningSteps(data: seq<byte>): seq<Step> {
    [FromSocket(CONNECTED)]
    + ([FromTun(HelloSegment(data), PacketEvent(0, true, true, Accepted(60)))]
       + ([FromSocket(REPLY)] + ([FromSocket(Forwarding(data))] + [])))
  }

  lemma ConnectedAnswers(t: Tcp)
    requires t == NewTunnel(1000, 5000, 1460, 0, 1000, 8000, 0)
    ensures var u := CheckTcpSocket(t, CONNECTED);
            && Tunnel(u) && u.state.SynRecv? && u.connect.ConnectNotSent? && u.socketOpen && !u.log.freed
            && u.flow == Flow(1000, 1001, [], 1, 0, [], [], 0) && u.log.connects == 0
            && |u.log.emitted| == 1 && u.log.emitted[0].pkt.syn
  {
    hide WindowField;
    StepGate(t, FromSocket(CONNECTED), true);
  }

  lemma HelloForwarded(t: Tcp, data: seq<byte>)
    requires Tunnel(t) && t.state.Established? && t.connect.ConnectEstablished? && t.socketOpen
    requires 1 <= |data| < 8192 && t.flow == Flow(1000, 1001, [Segment(1001, 0, true, data)], 1, 0, [], [], 0)
    ensures var u := CheckTcpSocket(t, Forwarding(data));
            && u.state.Established? && u.flow.accepted == data && u.flow.forward == []
            && u.flow.remoteSeq == Wrap(1001 + |data|)
  {
    hide PacketFor, NewWindow, SendWindow;
    var e := Forwarding(data);
    var d := SendHead(t.flow, Accepted(|data|));
    assert Drain(t.flow, 8192, e.sends) == Drain(d, 8192 - |data|, []) == d;
    assert ReceiveBuffer(true, 0, 0) == 8192;
  }

  /** A tunnel does open: for any first data of the client the fresh session sends one CONNECT,
      and after the proxy's reply hands exactly this data to the proxy. */
  lemma TunnelOpens(data: seq<byte>)
    requires 1 <= |data| < 8192
    ensures var t, run := NewTunnel(1000, 5000, 1460, 0, 1000, 8000, 0), OpeningSteps(data);
            && TunnelRun(t, run)
            && var u := AfterTunnel(t, run);
               u.state.Established? && u.connect.ConnectEstablished? && u.log.connects == 1 && u.flow.accepted == data
  {
    hide CheckTcpSocket, HandleTcp, TunnelRun, AfterTunnel, Insert;
    var t := NewTunnel(1000, 5000, 1460, 0, 1000, 8000, 0);
    ConnectedAnswers(t);
    var a, pe := CheckTcpSocket(t, CONNECTED), PacketEvent(0, true, true, Accepted(60));
    var s2, s3, s4 := FromTun(HelloSegment(data), pe), FromSocket(REPLY), FromSocket(Forwarding(data));
    StepGate(a, s2, true);
    RequestExactly(a, HelloSegment(data), pe);
    var b := Apply(a, s2);
    HelloQueued(a.flow, data);
    StepGate(b, s3, true);
    ReplyExactly(b, REPLY);
    var c := Apply(b, s3);
    StepGate(c, s4, true);
    HelloForwarded(c, data);
    EndOfRun(Apply(c, s4));
    TunnelCons(c, s4, []);
    TunnelCons(b, s3, [s4] + []);
    TunnelCons(a, s2, [s3] + ([s4] + []));
    TunnelCons(t, FromSocket(CONNECTED), [s2] + ([s3] + ([s4] + [])));
    ConnectsOnce(c, s4);
  }

  lemma HelloQueued(f: Flow, data: seq<byte>)
    requires f == Flow(1000, 1001, [], 1, 0, [], [], 0)
    ensures QueueTcp(f, HelloSegment(data)) == f.(forward := [Segment(1001, 0, true, data)])
  {
  }

  lemma EndOfRun(t: Tcp)
    requires Tunnel(t)
    ensures TunnelRun(t, []) && AfterTunnel(t, []) == t
  {
  }

  /** An established tunnel sends no further CONNECT. */
  lemma ConnectsOnce(t: Tcp, s: Step)
    requires Tunnel(t) && Enabled(t, s) && t.connect.ConnectEstablished?
    ensures Apply(t, s).connect.ConnectEstablished? && Apply(t, s).log.connects == t.log.connects == 1
  {
    hide Apply;
    StepGate(t, s, true);
  }

  // ---------------------------------------------------------------- a stale event

  /** A failed CONNECT closes the session and queues the segment that came with it. */
  lemma FailedConnectQueues(t: Tcp, p: ClientSegment, pe: PacketEvent)
    requires t == NewTunnel(1000, 5000, 1460, 0, 1000, 100, 0)
    requires p == ClientSegment(1001, 5000, false, true, true, false, false, false, 1000, [7])
    requires pe == PacketEvent(0, true, true, SendError)
    ensures var c := HandleTcp(t, p, pe);
            && c.state.Closing? && c.socketOpen && c.connect.ConnectNotSent? && !c.log.freed
            && c.flow.remoteSeq == 1001 && c.flow.forward == [Segment(1001, 0, true, [7])]
            && c.flow.accepted == []
  {
    hide HeaderWindow;
  }

  /** A step that passes the gate does occur: a writable event that is older than a failed
      CONNECT hands the client's first segment to the proxy without any CONNECT. */
  lemma StaleEventPassesGate(t: Tcp, p: ClientSegment, pe: PacketEvent, e: SocketEvent)
    requires t == NewTunnel(1000, 5000, 1460, 0, 1000, 100, 0)
    requires p == ClientSegment(1001, 5000, false, true, true, false, false, false, 1000, [7])
    requires pe == PacketEvent(0, true, true, SendError)
    requires e == SocketEvent(false, false, true, 0, 1000, 0, 0, [Accepted(1)], true, Received([]), true)
    ensures var run := [FromTun(p, pe), FromSocket(e)];
            TunnelRun(t, run) && Early(t, run, false) > 0
  {
    FailedConnectQueues(t, p, pe);
    hide HandleTcp, CheckTcpSocket;
    var c, run := HandleTcp(t, p, pe), [FromTun(p, pe), FromSocket(e)];
    StepGate(t, run[0], true);
    StepGate(t, run[0], false);
    assert run[1..] == [FromSocket(e)] && run[1..][1..] == [];
    OneStep(c, FromSocket(e));
  }

  /** A run of one step that passes the gate. */
  lemma OneStep(c: Tcp, s: Step)
    requires Tunnel(c) && Enabled(c, s) && PassesGate(c, s, false)
    ensures TunnelRun(c, [s]) && Early(c, [s], false) > 0
  {
    hide Apply, PassesByte;
    StepGate(c, s, true);
    StepGate(c, s, false);
    assert [s][1..] == [];
    assert TunnelRun(Apply(c, s), []);
  }
}
