/** What the calls of a session leave alone. */
module TcpFrame {
  import opened Serial
  import opened TcpTypes
  import opened TcpSpec

  /** Nothing counted, forwarded or accepted is taken back. */
  predicate Grows(f: Flow, g: Flow) {
    && g.start == f.start && f.syns <= g.syns && f.fins <= g.fins
    && f.forwarded <= g.forwarded && f.accepted <= g.accepted && f.lost <= g.lost
  }

  /** The queue and all that was forwarded and accepted are untouched. */
  predicate SameQueue(f: Flow, g: Flow) {
    && g.forward == f.forward && g.forwarded == f.forwarded
    && g.accepted == f.accepted && g.lost == f.lost
  }

  /** A call that neither queues, forwards nor connects to the proxy, and forgets no packet. */
  predicate Framed(t: Tcp, u: Tcp) {
    && SameQueue(t.flow, u.flow) && Grows(t.flow, u.flow) && t.log.emitted <= u.log.emitted
    && u.tunnelled == t.tunnelled && u.recvScale == t.recvScale && u.sendScale == t.sendScale
    && u.connect == t.connect && u.log.connects == t.log.connects
  }

  lemma AcknowledgeFramed(t: Tcp, fwd: bool, e: SocketEvent)
    requires e.sendbuf < TWO32
    ensures var a := Acknowledge(t, fwd, e);
            && Framed(t, a) && a.back == t.back && a.socketOpen == t.socketOpen
            && (a.state == t.state || a.state.Closing?)
  {
    hide PacketFor, NewWindow;
  }

  lemma WriteRstFramed(t: Tcp)
    ensures Framed(t, WriteRst(t)) && WriteRst(t).recvWindow == t.recvWindow
  {
    hide PacketFor;
  }

  lemma SocketEofFramed(t: Tcp, written: bool)
    ensures Framed(t, SocketEof(t, written)) && SocketEof(t, written).recvWindow == t.recvWindow
  {
    hide PacketFor, WriteRst;
    WriteRstFramed(t);
  }

  lemma SocketDataFramed(t: Tcp, chunk: seq<byte>, written: bool)
    ensures Framed(t, SocketData(t, chunk, written)) && SocketData(t, chunk, written).recvWindow == t.recvWindow
  {
    hide PacketFor;
  }

  lemma ReadSocketFramed(t: Tcp, e: SocketEvent)
    ensures Framed(t, ReadSocket(t, e)) && ReadSocket(t, e).recvWindow == t.recvWindow
  {
    hide WriteRst, SocketEof, SocketData, SendWindow;
    var u := t.(time := e.now);
    WriteRstFramed(u);
    SocketEofFramed(u, e.replyWritten);
    if e.recv.Received? {
      SocketDataFramed(u, ReadChunk(t.back, t.mss, e.recv.data), e.replyWritten);
    }
  }

  /** The flow after the forward loop of a socket event. */
  function Drained(t: Tcp, e: SocketEvent): (d: Flow)
    requires SentFits(t.flow.forward)
  {
    if !e.err && e.epollout && !t.state.Listen? then
      Drain(t.flow, ReceiveBuffer(t.socketOpen, e.sendbuf, e.unsent), e.sends)
    else t.flow
  }

  /** Outside LISTEN a socket event changes the queue and the forwarded bytes by its forward
      loop alone. */
  lemma CheckTcpSocketFramed(t: Tcp, e: SocketEvent)
    requires SentFits(t.flow.forward) && e.sendbuf < TWO32 && (t.state.Listen? ==> e.err || !e.epollin)
    ensures Framed(t.(flow := Drained(t, e)), CheckTcpSocket(t, e))
  {
    hide PacketFor, Acknowledge, ReadSocket, Drain;
    if !e.err && !t.state.Listen? {
      var d := t.(flow := Drained(t, e));
      var fwd := e.epollout && Forwardable(t.flow, ReceiveBuffer(t.socketOpen, e.sendbuf, e.unsent));
      AcknowledgeFramed(d, fwd, e);
      ReadSocketFramed(Acknowledge(d, fwd, e), e);
    }
  }

  lemma HandleFlagsFramed(t: Tcp, p: ClientSegment, written: bool)
    ensures Framed(t, HandleFlags(t, p, written)) && HandleFlags(t, p, written).recvWindow == t.recvWindow
  {
    hide WriteRst, CompareU32, HandleFin;
    HandleFinFramed(t, written);
    WriteRstFramed(t);
  }

  lemma HandleFinFramed(t: Tcp, written: bool)
    ensures Framed(t, HandleFin(t, written)) && HandleFin(t, written).recvWindow == t.recvWindow
  {
    hide PacketFor;
  }

  /** The segment's data is queued by a session past the proxy: it is live, its socket is open
      and it has not seen the FIN. */
  predicate Queues(t: Tcp, p: ClientSegment) {
    && p.data != [] && !p.urg && t.socketOpen
    && !t.state.CloseWait? && !t.state.Closing? && !t.state.Close?
  }

  /** A session past the proxy, or without one, changes the queue by `queue_tcp` alone. */
  lemma HandleTcpFramed(t: Tcp, p: ClientSegment, e: PacketEvent)
    requires t.sendScale <= MAX_SCALE && (t.tunnelled ==> t.connect.ConnectEstablished?)
    ensures var q := if Queues(t, p) then t.(flow := QueueTcp(t.flow, p)) else t;
            Framed(q, HandleTcp(t, p, e)) && HandleTcp(t, p, e).recvWindow == t.recvWindow
  {
    hide PacketFor, QueueTcp, HandleFlags;
    if !p.urg && !t.state.Closing? && !t.state.Close? {
      var u := Noted(t, p, e);
      HandleFlagsFramed(if p.data != [] then u.(flow := QueueTcp(u.flow, p)) else u, p, e.written);
    }
  }
}
