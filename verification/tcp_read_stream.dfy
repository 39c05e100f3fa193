/** The bytes from the socket to the client: what is read leaves in data packets as one
    contiguous, correctly numbered stream. */
module TcpReadStream {
  import opened Serial
  import opened TcpTypes
  import opened TcpSpec
  import opened TcpInvariant
  import opened TcpSendSide

  // ---------------------------------------------------------------- what the packets carry

  /** The data of the packets, in the order they were handed to `write`. */
  function DataOf(es: seq<Emission>): seq<byte> {
    if es == [] then [] else DataOf(es[..|es| - 1]) + es[|es| - 1].pkt.data
  }

  /** The data of the packets whose write succeeded. */
  function WrittenOf(es: seq<Emission>): seq<byte> {
    if es == [] then []
    else WrittenOf(es[..|es| - 1]) + if es[|es| - 1].written then es[|es| - 1].pkt.data else []
  }

  /** No write of a data packet failed. */
  predicate AllWritten(es: seq<Emission>) {
    forall e :: e in es && e.pkt.data != [] ==> e.written
  }

  predicate NoFin(es: seq<Emission>) {
    forall e :: e in es ==> !e.pkt.fin
  }

  /** A data packet has the number of its first byte's place in the stream; a FIN has the number
      after all data, none of which follows it. */
  predicate NumberedAt(es: seq<Emission>, start: u32, i: nat)
    requires i < |es|
  {
    && (es[i].pkt.data != [] ==> es[i].pkt.seqNo == Wrap(start + 1 + |DataOf(es[..i])|))
    && (es[i].pkt.fin ==> es[i].pkt.seqNo == Wrap(start + 1 + |DataOf(es)|))
  }

  predicate Numbered(es: seq<Emission>, start: u32) {
    forall i :: 0 <= i < |es| ==> NumberedAt(es, start, i)
  }

  lemma Append(es: seq<Emission>, e: Emission)
    ensures DataOf(es + [e]) == DataOf(es) + e.pkt.data
    ensures WrittenOf(es + [e]) == WrittenOf(es) + if e.written then e.pkt.data else []
  {
    assert (es + [e])[..|es|] == es;
  }

  lemma NumberedAppend(es: seq<Emission>, e: Emission, start: u32)
    requires Numbered(es, start) && (e.pkt.data != [] ==> NoFin(es) && !e.pkt.fin)
    requires e.pkt.data != [] || e.pkt.fin ==> e.pkt.seqNo == Wrap(start + 1 + |DataOf(es)|)
    ensures Numbered(es + [e], start)
  {
    hide NumberedAt;
    forall i | 0 <= i < |es + [e]|
      ensures NumberedAt(es + [e], start, i)
    {
      NumberedStays(es, e, start, i);
    }
  }

  lemma NumberedStays(es: seq<Emission>, e: Emission, start: u32, i: nat)
    requires i <= |es| && (i < |es| ==> NumberedAt(es, start, i))
    requires e.pkt.data != [] ==> NoFin(es) && !e.pkt.fin
    requires e.pkt.data != [] || e.pkt.fin ==> e.pkt.seqNo == Wrap(start + 1 + |DataOf(es)|)
    ensures NumberedAt(es + [e], start, i)
  {
    hide Wrap, DataOf;
    Append(es, e);
    assert (es + [e])[..i] == es[..i];
    assert es[..|es|] == es;
  }

  /** Failed writes are the only difference between the two. */
  lemma {:induction false} WrittenIsAll(es: seq<Emission>)
    ensures |WrittenOf(es)| <= |DataOf(es)|
    ensures WrittenOf(es) == DataOf(es) <==> AllWritten(es)
  {
    if es != [] {
      var front, e := es[..|es| - 1], es[|es| - 1];
      WrittenIsAll(front);
      assert es == front + [e];
      assert AllWritten(es) <==> AllWritten(front) && (e.pkt.data != [] ==> e.written);
      if |WrittenOf(front)| == |DataOf(front)| && WrittenOf(es) == DataOf(es) {
        assert WrittenOf(es)[..|WrittenOf(front)|] == WrittenOf(front);
        assert DataOf(es)[..|DataOf(front)|] == DataOf(front);
      }
    }
  }

  lemma {:induction false} DataAt(es: seq<Emission>, i: nat)
    requires i < |es|
    ensures var k := |DataOf(es[..i])|;
            k + |es[i].pkt.data| <= |DataOf(es)| && DataOf(es)[k..k + |es[i].pkt.data|] == es[i].pkt.data
  {
    var front := es[..|es| - 1];
    if i < |front| {
      DataAt(front, i);
      assert front[..i] == es[..i];
    }
  }

  // ---------------------------------------------------------------- the invariant

  /** `local_seq` counts the local SYN, the bytes read and the local FIN. */
  predicate LocalOk(s: State, b: Back) {
    && (s.Listen? ==> b.localSeq == b.start && b.read == [])
    && (s.SynRecv? ==> b.localSeq == Wrap(b.start + 1) && b.read == [])
    && (Connected(s) ==> b.localSeq == Wrap(b.start + 1 + |b.read| + FinSent(s)))
  }

  predicate LogOk(t: Tcp) {
    && DataOf(t.log.emitted) == t.back.read && Numbered(t.log.emitted, t.back.start)
    && WrittenOf(t.log.emitted) <= t.back.read
    && (Rank(t.state) < Rank(Closing) ==> WrittenOf(t.log.emitted) == t.back.read)
    && (Rank(t.state) <= Rank(Established) || t.state.CloseWait? ==> NoFin(t.log.emitted))
  }

  predicate ReadOk(t: Tcp) {
    LocalOk(t.state, t.back) && LogOk(t)
  }

  /** A call that emits at most one packet, without data or FIN, and reads nothing. */
  predicate Quietly(t: Tcp, u: Tcp) {
    && u.back.read == t.back.read && u.back.start == t.back.start
    && (u.log.emitted == t.log.emitted ||
        (|u.log.emitted| == |t.log.emitted| + 1 && t.log.emitted <= u.log.emitted &&
         var e := u.log.emitted[|t.log.emitted|]; e.pkt.data == [] && !e.pkt.fin))
  }

  lemma QuietLog(t: Tcp, u: Tcp)
    requires LogOk(t) && Quietly(t, u) && MovesUp(t.state, u.state)
    ensures LogOk(u)
  {
    hide DataOf, WrittenOf, Numbered;
    var es := t.log.emitted;
    if u.log.emitted != es {
      var e := u.log.emitted[|es|];
      assert u.log.emitted == es + [e];
      Append(es, e);
      NumberedAppend(es, e, t.back.start);
    }
  }

  /** A quiet call that also leaves the numbers right. */
  predicate QuietKept(t: Tcp, u: Tcp) {
    Quietly(t, u) && (LocalOk(t.state, t.back) ==> LocalOk(u.state, u.back))
  }

  // ---------------------------------------------------------------- calls

  lemma WriteRstQuiet(t: Tcp)
    ensures QuietKept(t, WriteRst(t))
  {
  }

  lemma AcknowledgeQuiet(t: Tcp, fwd: bool, e: SocketEvent)
    requires e.sendbuf < TWO32
    ensures QuietKept(t, Acknowledge(t, fwd, e)) && Acknowledge(t, fwd, e).back == t.back
    ensures Acknowledge(t, fwd, e).state == t.state || Acknowledge(t, fwd, e).state.Closing?
  {
    hide NewWindow, HeaderWindow;
  }

  lemma ListenQuiet(t: Tcp, e: SocketEvent)
    requires t.state.Listen? && t.connect.ConnectNotSent?
    ensures QuietKept(t, ReadProxyReply(t, e)) && QuietKept(t, AcceptConnection(t, e))
  {
    hide HeaderWindow;
  }

  lemma SocketDataRead(t: Tcp, chunk: seq<byte>, written: bool)
    requires ReadOk(t) && (t.state.Established? || t.state.CloseWait?) && chunk != []
    ensures ReadOk(SocketData(t, chunk, written))
  {
    hide DataOf, WrittenOf, Numbered, HeaderWindow;
    var u, es := SocketData(t, chunk, written), t.log.emitted;
    var e := u.log.emitted[|es|];
    Append(es, e);
    NumberedAppend(es, e, t.back.start);
    WrapAdd(t.back.start + 1 + |t.back.read|, |chunk|);
  }

  lemma WriteRstRead(t: Tcp)
    requires ReadOk(t)
    ensures ReadOk(WriteRst(t))
  {
    hide LogOk, HeaderWindow;
    WriteRstQuiet(t);
    QuietLog(t, WriteRst(t));
  }

  lemma FinRead(t: Tcp, w: Tcp, written: bool)
    requires ReadOk(t) && (t.state.Established? || t.state.CloseWait?)
    requires w == WriteAcking(t, false, true, [], written)
    ensures LogOk(w.(state := if written then LastAck else Closing))
  {
    hide DataOf, WrittenOf, Numbered, HeaderWindow;
    var es := t.log.emitted;
    var e := w.log.emitted[|es|];
    assert w.log.emitted == es + [e];
    Append(es, e);
    NumberedAppend(es, e, t.back.start);
  }

  lemma SocketEofRead(t: Tcp, written: bool)
    requires ReadOk(t) && (t.state.Established? || t.state.CloseWait?)
    ensures ReadOk(SocketEof(t, written))
  {
    hide DataOf, WrittenOf, Numbered, WriteRst, PacketFor;
    FinRead(t, WriteAcking(t, false, true, [], written), written);
    WriteRstRead(t);
    WrapAdd(t.back.start + 1 + |t.back.read|, 1);
  }

  lemma ReadSocketRead(t: Tcp, e: SocketEvent)
    requires ReadOk(t) && (t.state.Established? || t.state.CloseWait?)
    ensures ReadOk(ReadSocket(t, e))
  {
    hide DataOf, WrittenOf, Numbered, NoFin, SendWindow, WriteRst, SocketEof, SocketData;
    var u := t.(time := e.now);
    WriteRstRead(u);
    if e.epollin && SendWindow(t.back) > 0 && e.recv.Received? {
      var chunk := ReadChunk(t.back, t.mss, e.recv.data);
      if chunk == [] {
        SocketEofRead(u, e.replyWritten);
      } else {
        SocketDataRead(u, chunk, e.replyWritten);
      }
    }
  }

  lemma ForwardAndAcknowledgeRead(t: Tcp, e: SocketEvent)
    requires ReadOk(t) && SentFits(t.flow.forward) && e.sendbuf < TWO32 && !t.state.Close?
    ensures ReadOk(ForwardAndAcknowledge(t, e))
  {
    hide LogOk, Acknowledge, Drain, Forwardable;
    var room := ReceiveBuffer(t.socketOpen, e.sendbuf, e.unsent);
    var d := if e.epollout then t.(flow := Drain(t.flow, room, e.sends)) else t;
    var fwd := e.epollout && Forwardable(t.flow, room);
    AcknowledgeQuiet(d, fwd, e);
    QuietLog(t, Acknowledge(d, fwd, e));
  }

  lemma CheckTcpSocketRead(t: Tcp, e: SocketEvent)
    requires Direct(t) && ReadOk(t) && SentFits(t.flow.forward) && e.sendbuf < TWO32 && !t.state.Close?
    ensures ReadOk(CheckTcpSocket(t, e))
  {
    hide DataOf, WrittenOf, Numbered, NoFin, WriteRst, ReadSocket, ForwardAndAcknowledge;
    WriteRstRead(t.(time := e.now));
    if t.state.Listen? {
      ListenRead(t, e);
    } else {
      ForwardAndAcknowledgeRead(t, e);
      var a := ForwardAndAcknowledge(t, e);
      if a.state.Established? || a.state.CloseWait? {
        ReadSocketRead(a, e);
      }
    }
  }

  lemma ListenRead(t: Tcp, e: SocketEvent)
    requires ReadOk(t) && t.state.Listen? && t.connect.ConnectNotSent?
    ensures ReadOk(ReadProxyReply(t, e)) && ReadOk(AcceptConnection(t, e))
  {
    hide LogOk, HeaderWindow;
    ListenQuiet(t, e);
    QuietLog(t, ReadProxyReply(t, e));
    QuietLog(t, AcceptConnection(t, e));
  }

  lemma HandleFinQuiet(t: Tcp, written: bool)
    ensures QuietKept(t, HandleFin(t, written))
  {
    hide HeaderWindow, Wrap;
  }

  lemma HandleFlagsQuiet(t: Tcp, p: ClientSegment, written: bool)
    ensures QuietKept(t, HandleFlags(t, p, written))
  {
    hide CompareU32, HandleFin, WriteRst, Wrap;
    HandleFinQuiet(t, written);
    WriteRstQuiet(t);
  }

  lemma HandleTcpQuiet(t: Tcp, p: ClientSegment, e: PacketEvent)
    requires Direct(t)
    ensures QuietKept(t, HandleTcp(t, p, e))
  {
    hide QueueTcp, HandleFlags, WriteRst, Wrap;
    WriteRstQuiet(t);
    if !p.urg && !t.state.Closing? && !t.state.Close? {
      var u := Noted(t, p, e);
      WriteRstQuiet(u);
      HandleFlagsQuiet(if p.data != [] then u.(flow := QueueTcp(u.flow, p)) else u, p, e.written);
    }
  }

  lemma MonitorQuiet(t: Tcp, e: MonitorEvent)
    ensures QuietKept(t, MonitorTcp(t, e))
  {
    hide HeaderWindow, MaskFor, SendWindow, Wrap;
  }

  lemma ReapQuiet(t: Tcp, e: ReapEvent)
    requires e.maxSessions > 0
    ensures QuietKept(t, CheckTcpSession(t, e).0) && QuietKept(t, TerminateTcp(t))
  {
    hide HeaderWindow, TcpTimeout;
  }

  // ---------------------------------------------------------------- runs

  lemma StepRead(t: Tcp, s: Step)
    requires Inv(t) && Enabled(t, s) && ReadOk(t)
    ensures ReadOk(Apply(t, s))
  {
    hide LogOk, CheckTcpSocket, HandleTcp, MonitorTcp, CheckTcpSession, TerminateTcp;
    StepKept(t, s);
    match s
    case FromTun(p, e) => HandleTcpQuiet(t, p, e); QuietLog(t, Apply(t, s));
    case FromSocket(e) => CheckTcpSocketRead(t, e);
    case Monitor(e) => MonitorQuiet(t, e); QuietLog(t, Apply(t, s));
    case Reap(e) => ReapQuiet(t, e); QuietLog(t, Apply(t, s));
    case Terminate => ReapQuiet(t, ReapEvent(0, 0, 0, 1)); QuietLog(t, Apply(t, s));
  }

  lemma {:induction false} RunRead(t: Tcp, steps: seq<Step>)
    requires Inv(t) && Run(t, steps) && ReadOk(t)
    ensures ReadOk(After(t, steps))
    decreases |steps|
  {
    hide ReadOk, Apply;
    if steps != [] {
      StepKept(t, steps[0]);
      StepRead(t, steps[0]);
      RunRead(Apply(t, steps[0]), steps[1..]);
    }
  }

  /** Read stream refinement. Over every run of a direct session the packets handed to `write`
      carry, in order and each once, exactly the bytes read from the socket, a packet at offset
      k with the number of byte k, and a FIN the number after the last byte. The packets really
      written carry a prefix of those bytes: all of them if and only if no write of a data
      packet failed, which is so while the session is not closing. */
  lemma {:induction false} ReadStreamRefinement(
      isn: u32, localIsn: u32, mss: nat, scale: nat, window: u16, room: nat, now: int, steps: seq<Step>)
    requires scale <= MAX_SCALE && room < TWO32
    requires Run(NewDirect(isn, localIsn, mss, scale, window, room, now), steps)
    ensures var u := After(NewDirect(isn, localIsn, mss, scale, window, room, now), steps);
            var es, bytes := u.log.emitted, u.back.read;
            && DataOf(es) == bytes
            && (forall i :: 0 <= i < |es| && es[i].pkt.data != [] ==>
                  var k := |DataOf(es[..i])|;
                  && es[i].pkt.seqNo == Wrap(localIsn + 1 + k)
                  && k + |es[i].pkt.data| <= |bytes| && es[i].pkt.data == bytes[k..k + |es[i].pkt.data|])
            && (forall e :: e in es && e.pkt.fin ==> e.pkt.seqNo == Wrap(localIsn + 1 + |bytes|))
            && WrittenOf(es) <= bytes
            && (WrittenOf(es) == bytes <==> AllWritten(es))
            && (Rank(u.state) < Rank(Closing) ==> AllWritten(es))
  {
    hide Run, After, Inv, DataOf, WrittenOf, AllWritten, NoFin;
    var t := NewDirect(isn, localIsn, mss, scale, window, room, now);
    FreshRead(t);
    RunRead(t, steps);
    RunKept(t, steps);
    var es := After(t, steps).log.emitted;
    WrittenIsAll(es);
    forall i | 0 <= i < |es|
      ensures NumberedAt(es, localIsn, i)
      ensures var k := |DataOf(es[..i])|;
              k + |es[i].pkt.data| <= |DataOf(es)| && DataOf(es)[k..k + |es[i].pkt.data|] == es[i].pkt.data
    {
      DataAt(es, i);
    }
  }

  lemma FreshRead(t: Tcp)
    requires t.state.Listen? && t.log.emitted == [] && t.back.read == [] && t.back.localSeq == t.back.start
    ensures ReadOk(t)
  {
  }
}
