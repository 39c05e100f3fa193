/** What every packet of a session states: numbers, window, flags, and what follows from a write
    that fails. */
module TcpPackets {
  import opened Serial
  import opened TcpTypes
  import opened TcpSpec
  import opened TcpFrame
  import opened TcpInvariant

  /** The numbers that a packet takes if it was written. */
  function Weight(e: Emission): nat {
    if e.written then |e.pkt.data| + (if e.pkt.syn then 1 else 0) + (if e.pkt.fin then 1 else 0) else 0
  }

  /** A packet e written by a step from t to u states the numbers before the step, what has been
      forwarded after it and the window after it. A reset acknowledges in LISTEN only, and closes;
      any other packet that could not be written closes too. */
  predicate PacketOk(t: Tcp, u: Tcp, ackNo: u32, e: Emission) {
    && e.pkt.seqNo == t.back.localSeq && e.pkt.window == HeaderWindow(u)
    && e.pkt.ackNo == (if e.pkt.ack then ackNo else 0)
    && (e.pkt.ack <==> !e.pkt.rst || t.state.Listen?)
    && (e.pkt.rst ==> !e.pkt.syn && !e.pkt.fin && e.pkt.data == [] && !e.written
                      && (u.state.Closing? || u.state.Close?))
    && (!e.pkt.rst && !e.written ==> u.state.Closing?)
    && (e.pkt.syn ==> t.state.Listen? && !e.pkt.fin && e.pkt.data == [])
    && (e.pkt.fin ==> e.pkt.data == [])
    && e.forwarded == |u.flow.forwarded| && e.accepted == |u.flow.accepted|
    && e.syns == u.flow.syns && e.fins == u.flow.fins
  }

  /** The packets of a step: at most two, of which the last alone can take numbers, and
      `local_seq` moves by these. */
  predicate PacketsOk(t: Tcp, u: Tcp, ackNo: u32) {
    var m, n := |t.log.emitted|, |u.log.emitted|;
    && t.log.emitted <= u.log.emitted && n <= m + 2
    && (forall i :: m <= i < n ==> PacketOk(t, u, ackNo, u.log.emitted[i]))
    && (n == m + 2 ==> Weight(u.log.emitted[m]) == 0)
    && u.back.localSeq == Wrap(t.back.localSeq + if n == m then 0 else Weight(u.log.emitted[n - 1]))
    && u.back.start == t.back.start
  }

  predicate OneAtMost(t: Tcp, u: Tcp) {
    |u.log.emitted| <= |t.log.emitted| + 1
  }

  // ---------------------------------------------------------------- calls

  lemma WriteRstPackets(t: Tcp)
    ensures PacketsOk(t, WriteRst(t), WriteRst(t).flow.remoteSeq) && OneAtMost(t, WriteRst(t))
  {
    hide WindowField;
    SameNumber(t.back.localSeq);
  }

  lemma SameNumber(s: u32)
    ensures Wrap(s) == s == Wrap(s + 0)
  {
  }

  lemma AcknowledgePackets(t: Tcp, fwd: bool, e: SocketEvent)
    requires e.sendbuf < TWO32
    ensures var a := Acknowledge(t, fwd, e);
            && PacketsOk(t, a, a.flow.remoteSeq) && OneAtMost(t, a) && a.back == t.back
            && (|a.log.emitted| > |t.log.emitted| ==>
                  var k := a.log.emitted[|t.log.emitted|];
                  Weight(k) == 0 && !k.pkt.rst && (!k.written ==> a.state.Closing?))
            && (a.state == t.state || a.state.Closing?)
            && a.recvScale == t.recvScale
  {
    hide NewWindow, WindowField;
    SameNumber(t.back.localSeq);
  }

  lemma AcceptConnectionPackets(t: Tcp, e: SocketEvent)
    requires t.state.Listen?
    ensures var u := AcceptConnection(t, e); PacketsOk(t, u, u.flow.remoteSeq) && OneAtMost(t, u)
  {
    hide WindowField;
    SameNumber(t.back.localSeq);
  }

  lemma SocketDataPackets(t: Tcp, chunk: seq<byte>, written: bool)
    requires !t.state.Listen?
    ensures var u := SocketData(t, chunk, written); PacketsOk(t, u, u.flow.remoteSeq) && OneAtMost(t, u)
    ensures SameForward(t, SocketData(t, chunk, written))
  {
    hide WindowField, Wrap;
    SameNumber(t.back.localSeq);
  }

  lemma FinPackets(t: Tcp, written: bool)
    requires !t.state.Listen? && t.flow.forward == []
    ensures var u := SocketEof(t, written); PacketsOk(t, u, u.flow.remoteSeq) && OneAtMost(t, u)
  {
    hide WindowField, Wrap;
    SameNumber(t.back.localSeq);
  }

  lemma SocketEofPackets(t: Tcp, written: bool)
    requires !t.state.Listen?
    ensures var u := SocketEof(t, written); PacketsOk(t, u, u.flow.remoteSeq) && OneAtMost(t, u)
    ensures SameForward(t, SocketEof(t, written))
  {
    hide PacketOk, Weight, WriteRst, Wrap;
    RstKeepsFlow(t);
    var u := SocketEof(t, written);
    if t.flow.forward != [] {
      WriteRstPackets(t);
      Afterwards(t, WriteRst(t), u, u.flow.remoteSeq);
    } else {
      FinPackets(t, written);
    }
  }

  /** The flow and the stored window are untouched. */
  predicate SameForward(t: Tcp, u: Tcp) {
    u.flow == t.flow && u.recvWindow == t.recvWindow && u.recvScale == t.recvScale
  }

  lemma ReadSocketPackets(t: Tcp, e: SocketEvent)
    requires !t.state.Listen?
    ensures var u := ReadSocket(t, e); PacketsOk(t, u, u.flow.remoteSeq) && OneAtMost(t, u)
    ensures SameForward(t, ReadSocket(t, e))
  {
    hide PacketOk, SendWindow, WriteRst, SocketEof, SocketData, Wrap, Weight;
    var v := t.(time := e.now);
    SameNumber(t.back.localSeq);
    WriteRstPackets(v);
    RstKeepsFlow(v);
    SocketEofPackets(v, e.replyWritten);
    var u := ReadSocket(t, e);
    if e.recv.Received? {
      SocketDataPackets(v, ReadChunk(t.back, t.mss, e.recv.data), e.replyWritten);
    }
    if PacketsOk(v, u, u.flow.remoteSeq) {
      Unseen(t, v, u, u.flow.remoteSeq);
    }
  }

  lemma RstKeepsFlow(t: Tcp)
    requires !t.state.Listen?
    ensures WriteRst(t).flow == t.flow && WriteRst(t).recvWindow == t.recvWindow
    ensures WriteRst(t).recvScale == t.recvScale
  {
    hide PacketFor;
  }

  /** A packet without numbers, and then the packets of a second call. */
  lemma Compose(t: Tcp, a: Tcp, u: Tcp)
    requires PacketsOk(t, a, a.flow.remoteSeq) && OneAtMost(t, a) && a.back == t.back
    requires |a.log.emitted| > |t.log.emitted| ==>
               var k := a.log.emitted[|t.log.emitted|];
               Weight(k) == 0 && !k.pkt.rst && k.written
    requires PacketsOk(a, u, u.flow.remoteSeq) && OneAtMost(a, u)
    requires u.flow == a.flow && HeaderWindow(u) == HeaderWindow(a)
    requires !t.state.Listen? && !a.state.Listen?
    ensures PacketsOk(t, u, u.flow.remoteSeq)
  {
    hide WindowField, Wrap;
    forall i | |t.log.emitted| <= i < |u.log.emitted|
      ensures PacketOk(t, u, u.flow.remoteSeq, u.log.emitted[i])
    {
      if i < |a.log.emitted| {
        assert PacketOk(t, a, a.flow.remoteSeq, a.log.emitted[i]);
      } else {
        assert PacketOk(a, u, u.flow.remoteSeq, u.log.emitted[i]);
      }
    }
  }

  lemma ForwardAndAcknowledgePackets(t: Tcp, e: SocketEvent)
    requires SentFits(t.flow.forward) && e.sendbuf < TWO32 && !t.state.Listen?
    ensures var a := ForwardAndAcknowledge(t, e);
            && PacketsOk(t, a, a.flow.remoteSeq) && OneAtMost(t, a) && a.back == t.back
            && (|a.log.emitted| > |t.log.emitted| ==>
                  var k := a.log.emitted[|t.log.emitted|];
                  Weight(k) == 0 && !k.pkt.rst && (!k.written ==> a.state.Closing?))
            && (a.state == t.state || a.state.Closing?)
  {
    hide Acknowledge, Drain, Forwardable, ReceiveBuffer, PacketOk;
    var room := ReceiveBuffer(t.socketOpen, e.sendbuf, e.unsent);
    var d := if e.epollout then t.(flow := Drain(t.flow, room, e.sends)) else t;
    var fwd := e.epollout && Forwardable(t.flow, room);
    AcknowledgePackets(d, fwd, e);
    var a := Acknowledge(d, fwd, e);
    Unseen(t, d, a, a.flow.remoteSeq);
  }

  /** The clock and what was drained before a call do not show in its packets. */
  lemma Unseen(t: Tcp, d: Tcp, u: Tcp, ackNo: u32)
    requires d.back.localSeq == t.back.localSeq && d.back.start == t.back.start
    requires d.log.emitted == t.log.emitted && (d.state.Listen? <==> t.state.Listen?)
    requires PacketsOk(d, u, ackNo)
    ensures PacketsOk(t, u, ackNo)
  {
    hide HeaderWindow, Wrap, Weight;
    forall i | |t.log.emitted| <= i < |u.log.emitted|
      ensures PacketOk(t, u, ackNo, u.log.emitted[i])
    {
      assert PacketOk(d, u, ackNo, u.log.emitted[i]);
    }
  }

  lemma CheckTcpSocketPackets(t: Tcp, e: SocketEvent)
    requires Direct(t) && SentFits(t.flow.forward) && e.sendbuf < TWO32
    ensures var u := CheckTcpSocket(t, e); PacketsOk(t, u, u.flow.remoteSeq)
  {
    hide PacketOk, WriteRst, AcceptConnection, ForwardAndAcknowledge, ReadSocket, Wrap, Weight;
    WriteRstPackets(t);
    var v := t.(time := e.now);
    WriteRstPackets(v);
    Unseen(t, v, WriteRst(v), WriteRst(v).flow.remoteSeq);
    if !e.err && t.state.Listen? {
      AcceptConnectionPackets(t, e);
    } else if !e.err {
      ForwardAndAcknowledgePackets(t, e);
      var a := ForwardAndAcknowledge(t, e);
      if a.state.Established? || a.state.CloseWait? {
        ReadSocketPackets(a, e);
        Compose(t, a, ReadSocket(a, e));
      }
    }
  }

  /** A bare acknowledgement is one packet without numbers. */
  lemma BareAckPackets(t: Tcp, f: Flow, written: bool)
    ensures var u := WriteAcking(t.(flow := f), false, false, [], written);
            && PacketsOk(t, u, f.remoteSeq) && u.flow == f
            && |u.log.emitted| == |t.log.emitted| + 1
            && var k := u.log.emitted[|t.log.emitted|]; !k.pkt.rst && k.written == written
  {
    hide WindowField, Wrap;
    SameNumber(t.back.localSeq);
  }

  lemma HandleFinPackets(t: Tcp, written: bool)
    ensures var u := HandleFin(t, written); PacketsOk(t, u, u.flow.remoteSeq)
  {
    hide PacketOk, Weight, CountFin, Wrap, WriteTcp;
    SameNumber(t.back.localSeq);
    var f := CountFin(t.flow);
    var u, v := WriteAcking(t.(flow := f), false, false, [], written), HandleFin(t, written);
    BareAckPackets(t, f, written);
    if v.log.emitted == u.log.emitted && v.flow == u.flow && v.back == u.back {
      Afterwards(t, u, v, f.remoteSeq);
    }
  }

  lemma HandleFlagsPackets(t: Tcp, p: ClientSegment, written: bool)
    ensures var u := HandleFlags(t, p, written); PacketsOk(t, u, u.flow.remoteSeq)
  {
    hide PacketOk, WriteRst, HandleFin, CompareU32, Wrap, Weight;
    SameNumber(t.back.localSeq);
    WriteRstPackets(t);
    HandleFinPackets(t, written);
  }

  lemma HandleTcpPackets(t: Tcp, p: ClientSegment, e: PacketEvent)
    requires Direct(t)
    ensures var u := HandleTcp(t, p, e); PacketsOk(t, u, u.flow.remoteSeq)
  {
    hide PacketOk, WriteRst, HandleFlags, QueueTcp, Wrap, Weight;
    SameNumber(t.back.localSeq);
    WriteRstPackets(t);
    if !p.urg && !t.state.Closing? && !t.state.Close? {
      var u := Noted(t, p, e);
      WriteRstPackets(u);
      var q := if p.data != [] then u.(flow := QueueTcp(u.flow, p)) else u;
      HandleFlagsPackets(q, p, e.written);
      var v := HandleTcp(t, p, e);
      Unseen(t, if v == WriteRst(u) then u else q, v, v.flow.remoteSeq);
    }
  }

  /** A keep-alive acknowledges one number less than the session has. */
  lemma MonitorPackets(t: Tcp, e: MonitorEvent)
    requires Inv(t) && t.socketOpen
    ensures var u := MonitorTcp(t, e); PacketsOk(t, u, Wrap(u.flow.remoteSeq - 1))
  {
    hide WindowField, MaskFor, SendWindow, Wrap;
    SameNumber(t.back.localSeq);
    if t.state.Established? || t.state.CloseWait? {
      KeepAliveRestores(t, e);
    }
  }

  /** What happens after the packets of a call does not show in them: closing a session that was
      reset, or freeing it. */
  lemma Afterwards(t: Tcp, u: Tcp, v: Tcp, ackNo: u32)
    requires PacketsOk(t, u, ackNo)
    requires v.log.emitted == u.log.emitted && SameForward(u, v)
    requires v.back.localSeq == u.back.localSeq && v.back.start == u.back.start
    requires v.state == u.state || forall i :: |t.log.emitted| <= i < |u.log.emitted| ==>
               if u.log.emitted[i].pkt.rst then v.state.Closing? || v.state.Close?
               else u.log.emitted[i].written || v.state.Closing?
    ensures PacketsOk(t, v, ackNo)
  {
    hide WindowField, Wrap, Weight;
    forall i | |t.log.emitted| <= i < |v.log.emitted|
      ensures PacketOk(t, v, ackNo, v.log.emitted[i])
    {
      assert PacketOk(t, u, ackNo, u.log.emitted[i]);
    }
  }

  lemma RstIsReset(t: Tcp)
    ensures |WriteRst(t).log.emitted| == |t.log.emitted| + 1
    ensures WriteRst(t).log.emitted[|t.log.emitted|].pkt.rst
  {
    hide WindowField;
  }

  lemma ReapPackets(t: Tcp, e: ReapEvent)
    requires e.maxSessions > 0
    ensures var u := CheckTcpSession(t, e).0; PacketsOk(t, u, u.flow.remoteSeq)
    ensures PacketsOk(t, TerminateTcp(t), TerminateTcp(t).flow.remoteSeq)
  {
    hide PacketOk, Weight, WriteRst, TcpTimeout, Wrap;
    SameNumber(t.back.localSeq);
    WriteRstPackets(t);
    RstIsReset(t);
    var u := CheckTcpSession(t, e).0;
    if u.log.emitted != t.log.emitted {
      Afterwards(t, WriteRst(t), u, u.flow.remoteSeq);
    }
  }

  // ---------------------------------------------------------------- steps and runs

  /** The number that the packets of a step acknowledge. */
  function AckedBy(s: Step, u: Tcp): u32 {
    if s.Monitor? then Wrap(u.flow.remoteSeq - 1) else u.flow.remoteSeq
  }

  /** Every packet of every step, of whatever kind, states what it should. */
  lemma StepPackets(t: Tcp, s: Step)
    requires Inv(t) && Enabled(t, s)
    ensures PacketsOk(t, Apply(t, s), AckedBy(s, Apply(t, s)))
  {
    hide PacketOk, CheckTcpSocket, HandleTcp, MonitorTcp, CheckTcpSession, TerminateTcp, Wrap, Weight;
    match s
    case FromTun(p, e) => HandleTcpPackets(t, p, e);
    case FromSocket(e) => CheckTcpSocketPackets(t, e);
    case Monitor(e) => MonitorPackets(t, e);
    case Reap(e) =>
      ReapPackets(t, e);
      var u := CheckTcpSession(t, e).0;
      Afterwards(t, u, Apply(t, s), u.flow.remoteSeq);
    case Terminate => ReapPackets(t, ReapEvent(0, 0, 0, 1));
  }

  /** The numbers taken by a list of packets. */
  function NumbersTaken(es: seq<Emission>): nat {
    if es == [] then 0 else NumbersTaken(es[..|es| - 1]) + Weight(es[|es| - 1])
  }

  /** `local_seq` is the local start and all numbers taken, and each packet has the number of its
      place. */
  predicate Sequenced(t: Tcp) {
    && t.back.localSeq == Wrap(t.back.start + NumbersTaken(t.log.emitted))
    && forall i :: 0 <= i < |t.log.emitted| ==>
         t.log.emitted[i].pkt.seqNo == Wrap(t.back.start + NumbersTaken(t.log.emitted[..i]))
  }

  lemma TakenAppend(es: seq<Emission>, e: Emission)
    ensures NumbersTaken(es + [e]) == NumbersTaken(es) + Weight(e)
  {
    assert (es + [e])[..|es|] == es;
  }

  lemma TakenMore(es: seq<Emission>, fs: seq<Emission>)
    requires es <= fs && |fs| <= |es| + 2
    ensures |fs| == |es| ==> NumbersTaken(fs) == NumbersTaken(es)
    ensures |fs| == |es| + 1 ==> NumbersTaken(fs) == NumbersTaken(es) + Weight(fs[|es|])
    ensures |fs| == |es| + 2 ==>
              && NumbersTaken(fs[..|es| + 1]) == NumbersTaken(es) + Weight(fs[|es|])
              && NumbersTaken(fs) == NumbersTaken(fs[..|es| + 1]) + Weight(fs[|es| + 1])
  {
    hide Weight, NumbersTaken;
    if |fs| == |es| {
      assert fs == es;
    } else if |fs| == |es| + 1 {
      assert fs == es + [fs[|es|]];
      TakenAppend(es, fs[|es|]);
    } else {
      var mid := fs[..|es| + 1];
      assert mid == es + [fs[|es|]] && fs == mid + [fs[|es| + 1]];
      TakenAppend(es, fs[|es|]);
      TakenAppend(mid, fs[|es| + 1]);
    }
  }

  lemma StepSequenced(t: Tcp, s: Step)
    requires Inv(t) && Enabled(t, s) && Sequenced(t)
    ensures Sequenced(Apply(t, s))
  {
    hide Apply, Enabled, Weight, NumbersTaken, Wrap;
    StepPackets(t, s);
    var u := Apply(t, s);
    var es, fs := t.log.emitted, u.log.emitted;
    TakenMore(es, fs);
    assert fs[..|es|] == es;
    WrapAdd(t.back.start + NumbersTaken(es), if |fs| == |es| then 0 else Weight(fs[|fs| - 1]));
    forall i | 0 <= i < |fs|
      ensures fs[i].pkt.seqNo == Wrap(u.back.start + NumbersTaken(fs[..i]))
    {
      if i < |es| {
        assert fs[..i] == es[..i];
      } else {
        assert PacketOk(t, u, AckedBy(s, u), fs[i]);
      }
    }
  }

  lemma {:induction false} RunSequenced(t: Tcp, steps: seq<Step>)
    requires Inv(t) && Run(t, steps) && Sequenced(t)
    ensures Sequenced(After(t, steps))
    decreases |steps|
  {
    hide Apply, Enabled, Sequenced;
    if steps != [] {
      StepKept(t, steps[0]);
      StepSequenced(t, steps[0]);
      RunSequenced(Apply(t, steps[0]), steps[1..]);
    }
  }

  /** Over every run of a direct session each packet, of whatever kind, has the local start plus
      the numbers of all that was written before it: one for the SYN, one for each byte, one for
      the FIN; and so has `local_seq`. */
  lemma {:induction false} EveryPacketInSequence(
      isn: u32, localIsn: u32, mss: nat, scale: nat, window: u16, room: nat, now: int, steps: seq<Step>)
    requires scale <= MAX_SCALE && room < TWO32
    requires Run(NewDirect(isn, localIsn, mss, scale, window, room, now), steps)
    ensures var u := After(NewDirect(isn, localIsn, mss, scale, window, room, now), steps);
            && u.back.localSeq == Wrap(localIsn + NumbersTaken(u.log.emitted))
            && forall i :: 0 <= i < |u.log.emitted| ==>
                 u.log.emitted[i].pkt.seqNo == Wrap(localIsn + NumbersTaken(u.log.emitted[..i]))
  {
    var t := NewDirect(isn, localIsn, mss, scale, window, room, now);
    FreshSequenced(t);
    assert t.back.start == localIsn;
    hide Run, After, NumbersTaken, Wrap, Inv, Grows, MovesUp, NewDirect, WindowField, Sequenced;
    RunSequenced(t, steps);
    RunKept(t, steps);
    SequencedMeans(After(t, steps), localIsn);
  }

  lemma SequencedMeans(u: Tcp, start: u32)
    requires Sequenced(u) && u.back.start == start
    ensures u.back.localSeq == Wrap(start + NumbersTaken(u.log.emitted))
    ensures forall i :: 0 <= i < |u.log.emitted| ==>
              u.log.emitted[i].pkt.seqNo == Wrap(start + NumbersTaken(u.log.emitted[..i]))
  {
  }

  lemma FreshSequenced(t: Tcp)
    requires t.log.emitted == [] && t.back.localSeq == t.back.start
    ensures Sequenced(t)
  {
  }
}
