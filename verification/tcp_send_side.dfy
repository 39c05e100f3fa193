/** The direction from the socket to the client: what was sent, acknowledged and allowed. */
module TcpSendSide {
  import opened Serial
  import opened TcpTypes
  import opened TcpSpec
  import opened TcpInvariant

  /** The largest window a client can advertise with scale 14. */
  const MAX_WINDOW := 0xFFFF * 0x4000

  /** The numbers sent and not acknowledged. */
  function Outstanding(b: Back): u32 {
    Wrap(b.localSeq - b.acked)
  }

  /** From ESTABLISHED until the session closes. */
  predicate Connected(s: State) {
    Rank(Established) <= Rank(s) < Rank(Closing)
  }

  function FinSent(s: State): nat {
    if s.FinWait1? || s.LastAck? then 1 else 0
  }

  /** `local_seq` counts the local SYN, the bytes read from the socket and the local FIN; what
      is outstanding is within the largest window that the client has advertised. */
  predicate SendOk(s: State, b: Back) {
    && b.sendWindow <= b.maxWindow <= MAX_WINDOW
    && (s.Listen? ==> b.localSeq == b.start && b.received == 0)
    && (s.SynRecv? ==> b.localSeq == Wrap(b.start + 1) && b.received == 0)
    && (Connected(s) ==>
          && b.localSeq == Wrap(b.start + 1 + b.received + FinSent(s))
          && Outstanding(b) <= b.maxWindow)
  }

  /** The numbers sent after the local SYN. */
  function SentCount(t: Tcp): nat {
    t.back.received + FinSent(t.state)
  }

  /** `acked` moves forward, and not past `local_seq`. */
  predicate AckAdvances(b: Back, c: Back) {
    Wrap(c.acked - b.acked) <= Wrap(c.localSeq - b.acked)
  }

  /** What every call does to the send side. */
  predicate Sends(t: Tcp, u: Tcp) {
    && SendOk(u.state, u.back)
    && (Connected(t.state) ==> AckAdvances(t.back, u.back))
    && (Connected(t.state) && Connected(u.state) ==>
          u.back.start == t.back.start && SentCount(t) <= SentCount(u) <= SentCount(t) + MAX_WINDOW)
  }

  /** While connected, `get_send_window` is what remains of the advertised window. */
  lemma SendWindowIsRemainder(b: Back)
    requires Outstanding(b) <= MAX_WINDOW
    ensures SendWindow(b) == (if Outstanding(b) < b.sendWindow then b.sendWindow - Outstanding(b) else 0)
  {
    SDiffLands(b.localSeq, b.acked, b.acked);
    CompareWrapped(b.acked, b.acked + Outstanding(b));
  }

  /** The acknowledgement number at distance 2^31 that takes `acked` back: RFC 1982 gives the
      pair no order, `compare_u32` gives it two different ones. */
  predicate Backward(b: Back, ackNo: u32) {
    b.localSeq == 0x8000_0000 && b.acked == 0x7FFF_FFFF && ackNo == 0
  }

  /** For every acknowledgement number, `acked` stays between its old value and `local_seq`
      unless the numbers are exactly those of `Backward`. */
  lemma OtherAckAdvances(t: Tcp, ackNo: u32)
    requires Outstanding(t.back) <= MAX_WINDOW
    requires ackNo != t.back.localSeq
    ensures AckAdvances(t.back, HandleOtherAck(t, ackNo).back) <==> !Backward(t.back, ackNo)
    ensures !Backward(t.back, ackNo) ==> Outstanding(HandleOtherAck(t, ackNo).back) <= Outstanding(t.back)
  {
    hide PacketFor;
    var b := t.back;
    if CompareU32(ackNo, b.localSeq) < 0 && CompareU32(ackNo, b.acked) > 0 {
      EarlierAck(b.acked, b.localSeq, ackNo);
    }
  }

  /** A number that compares between `acked` and `local_seq` lies between them, but for one. */
  lemma EarlierAck(acked: u32, localSeq: u32, ackNo: u32)
    requires Wrap(localSeq - acked) <= MAX_WINDOW
    requires CompareU32(ackNo, localSeq) < 0 && CompareU32(ackNo, acked) > 0
    ensures Wrap(ackNo - acked) <= Wrap(localSeq - acked)
            <==> !(localSeq == 0x8000_0000 && acked == 0x7FFF_FFFF && ackNo == 0)
    ensures Wrap(ackNo - acked) <= Wrap(localSeq - acked)
            ==> Wrap(localSeq - ackNo) <= Wrap(localSeq - acked)
  {
  }

  lemma WriteRstSends(t: Tcp)
    requires SendOk(t.state, t.back)
    ensures Sends(t, WriteRst(t))
  {
  }

  /** A write that succeeds moves `local_seq` and `received` together, within the window that
      the client advertises at that moment. */
  lemma SocketDataSends(t: Tcp, chunk: seq<byte>, written: bool)
    requires SendOk(t.state, t.back) && Connected(t.state)
    requires 0 < |chunk| <= SendWindow(t.back)
    ensures var u := SocketData(t, chunk, written);
            && Sends(t, u)
            && (written ==> Outstanding(u.back) == Outstanding(t.back) + |chunk| <= u.back.sendWindow)
  {
    hide PacketFor, SendWindow, Wrap, AckAdvances;
    SendWindowIsRemainder(t.back);
    WrapAdd(t.back.start + 1 + t.back.received + FinSent(t.state), |chunk|);
    AdvanceLocal(t.back, |chunk|);
    AckStays(t.back, SocketData(t, chunk, written).back);
  }

  lemma AckStays(b: Back, c: Back)
    requires c.acked == b.acked
    ensures AckAdvances(b, c)
  {
  }

  /** Sending n numbers that fit in the window leaves n more outstanding. */
  lemma AdvanceLocal(b: Back, n: nat)
    requires Outstanding(b) + n < TWO32
    ensures Outstanding(Sent(b, n)) == Outstanding(b) + n
  {
    var acked: int := b.acked;
    WrapAdd(b.localSeq + n, -acked);
    WrapAdd(b.localSeq - acked, n);
  }

  lemma SendWindowBound(t: Tcp)
    requires SendOk(t.state, t.back) && Connected(t.state)
    ensures SendWindow(t.back) <= MAX_WINDOW
  {
    SendWindowIsRemainder(t.back);
  }

  lemma SocketEofSends(t: Tcp, written: bool)
    requires SendOk(t.state, t.back) && (t.state.Established? || t.state.CloseWait?)
    requires SendWindow(t.back) > 0
    ensures Sends(t, SocketEof(t, written))
  {
    hide PacketFor, SendWindow, Wrap, AckAdvances;
    SendWindowIsRemainder(t.back);
    WrapAdd(t.back.start + 1 + t.back.received, 1);
    AdvanceLocal(t.back, 1);
    AckStays(t.back, SocketEof(t, written).back);
  }

  lemma ReadSocketSends(t: Tcp, e: SocketEvent)
    requires SendOk(t.state, t.back) && (t.state.Established? || t.state.CloseWait?)
    ensures Sends(t, ReadSocket(t, e))
  {
    hide PacketFor, SocketEof, SocketData, Outstanding;
    SendWindowBound(t);
    if e.epollin && SendWindow(t.back) > 0 && e.recv.Received? {
      var chunk := ReadChunk(t.back, t.mss, e.recv.data);
      if chunk == [] {
        SocketEofSends(t.(time := e.now), e.replyWritten);
      } else {
        SocketDataSends(t.(time := e.now), chunk, e.replyWritten);
      }
    }
  }

  lemma CheckTcpSocketSends(t: Tcp, e: SocketEvent)
    requires Inv(t) && t.socketOpen && e.sendbuf < TWO32 && SendOk(t.state, t.back)
    ensures Sends(t, CheckTcpSocket(t, e))
  {
    if !e.err && !t.state.Listen? {
      var a := ForwardAndAcknowledge(t, e);
      assert a.back == t.back && (a.state == t.state || a.state.Closing?) by {
        hide Drain, NewWindow, PacketFor, Forwardable;
      }
      if a.state.Established? || a.state.CloseWait? {
        ReadSocketSends(a, e);
      }
    }
  }

  lemma HandleFinSends(t: Tcp, written: bool)
    requires SendOk(t.state, t.back)
    ensures Sends(t, HandleFin(t, written))
  {
    hide PacketFor;
  }

  lemma HandleAckSends(t: Tcp, ackNo: u32)
    requires SendOk(t.state, t.back) && ackNo == t.back.localSeq
    ensures Sends(t, HandleAck(t, ackNo))
  {
  }

  lemma HandleOtherAckSends(t: Tcp, ackNo: u32)
    requires SendOk(t.state, t.back) && ackNo != t.back.localSeq && !Backward(t.back, ackNo)
    ensures Sends(t, HandleOtherAck(t, ackNo))
  {
    hide PacketFor, CompareU32;
    if Connected(t.state) {
      OtherAckAdvances(t, ackNo);
    }
  }

  lemma HandleFlagsSends(t: Tcp, p: ClientSegment, written: bool)
    requires SendOk(t.state, t.back)
    requires p.ack ==> !Backward(t.back, p.ackNo)
    ensures Sends(t, HandleFlags(t, p, written))
  {
    hide HandleFin, HandleAck, HandleOtherAck;
    HandleFinSends(t, written);
    if p.ack {
      if p.ackNo == t.back.localSeq {
        HandleAckSends(t, p.ackNo);
      } else {
        HandleOtherAckSends(t, p.ackNo);
      }
    }
  }

  lemma HandleTcpSends(t: Tcp, p: ClientSegment, e: PacketEvent)
    requires Inv(t) && SendOk(t.state, t.back)
    requires p.ack ==> !Backward(t.back, p.ackNo)
    ensures Sends(t, HandleTcp(t, p, e))
  {
    hide WriteRst, HandleFlags, QueueTcp, Noted, Outstanding;
    WriteRstSends(t);
    if !p.urg && !t.state.Closing? && !t.state.Close? {
      var u := Noted(t, p, e);
      NotedSends(t, p, e);
      var q := if p.data != [] then u.(flow := QueueTcp(u.flow, p)) else u;
      HandleFlagsSends(q, p, e.written);
      WriteRstSends(u);
      SendsFrom(t, u, q, HandleFlags(q, p, e.written));
      SendsFrom(t, u, u, WriteRst(u));
    }
  }

  /** A change of the advertised window does not disturb what follows it. */
  lemma SendsFrom(t: Tcp, u: Tcp, q: Tcp, r: Tcp)
    requires u.state == t.state && q.state == u.state && q.back == u.back
    requires u.back == t.back.(sendWindow := u.back.sendWindow, maxWindow := u.back.maxWindow)
    requires Sends(q, r)
    ensures Sends(t, r)
  {
  }

  /** The advertised window follows the client. */
  lemma NotedSends(t: Tcp, p: ClientSegment, e: PacketEvent)
    requires t.sendScale <= MAX_SCALE && SendOk(t.state, t.back)
    ensures Sends(t, Noted(t, p, e))
    ensures Noted(t, p, e).state == t.state
    ensures var b := Noted(t, p, e).back; b == t.back.(sendWindow := b.sendWindow, maxWindow := b.maxWindow)
  {
    ScaledWindow(p.window, t.sendScale);
  }

  /** The step does not carry the one acknowledgement that moves `acked` backwards. */
  predicate AckOrdered(t: Tcp, s: Step) {
    s.FromTun? && s.p.ack ==> !Backward(t.back, s.p.ackNo)
  }

  /** Whatever RFC 1982 orders is in order. */
  lemma OrderedAcks(t: Tcp, s: Step)
    requires s.FromTun? && s.p.ack ==> RfcDefined(s.p.ackNo, t.back.localSeq)
    ensures AckOrdered(t, s)
  {
  }

  /** Every step keeps the send side within the advertised window and moves `acked` forward. */
  lemma StepSends(t: Tcp, s: Step)
    requires Inv(t) && Enabled(t, s) && SendOk(t.state, t.back) && AckOrdered(t, s)
    ensures Sends(t, Apply(t, s))
  {
    hide PacketFor, CheckTcpSocket, HandleTcp, MaskFor, SendWindow, TcpTimeout;
    match s
    case FromTun(p, e) => HandleTcpSends(t, p, e);
    case FromSocket(e) => CheckTcpSocketSends(t, e);
    case Monitor(e) =>
    case Reap(e) =>
    case Terminate =>
  }

  predicate AckOrderedRun(t: Tcp, steps: seq<Step>)
    requires Inv(t) && Run(t, steps)
    decreases |steps|
  {
    steps == [] ||
    (AckOrdered(t, steps[0]) && (StepKept(t, steps[0]); AckOrderedRun(Apply(t, steps[0]), steps[1..])))
  }

  /** The numbers acknowledged by the steps of a run, added up without wrapping. */
  function Acknowledged(t: Tcp, steps: seq<Step>): nat
    requires Inv(t) && Run(t, steps)
    decreases |steps|
  {
    if steps == [] then 0
    else
      StepKept(t, steps[0]);
      var u := Apply(t, steps[0]);
      (if Connected(u.state) then Wrap(u.back.acked - t.back.acked) else 0) + Acknowledged(u, steps[1..])
  }

  /** One connected step: what it acknowledges and leaves outstanding is what it sends and
      found outstanding. */
  lemma StepConserves(t: Tcp, u: Tcp)
    requires SendOk(t.state, t.back) && Sends(t, u) && Connected(t.state) && Connected(u.state)
    ensures Wrap(u.back.acked - t.back.acked) + Outstanding(u.back)
            == SentCount(u) - SentCount(t) + Outstanding(t.back)
  {
    var b, c, n := t.back, u.back, SentCount(u) - SentCount(t);
    WrapAdd(b.start + 1 + SentCount(t), n);
    assert c.localSeq == Sent(b, n).localSeq;
    AdvanceLocal(b, n);
    assert Wrap(c.localSeq - b.acked) == Outstanding(b) + n;
    Between(b.acked, c.acked, c.localSeq);
  }

  /** A number on the way from a to l splits the way. */
  lemma Between(a: u32, m: u32, l: u32)
    requires Wrap(m - a) <= Wrap(l - a)
    ensures Wrap(m - a) + Wrap(l - m) == Wrap(l - a)
  {
  }

  /** Over every run that stays connected, everything acknowledged was sent before: the numbers
      acknowledged plus those outstanding are the bytes and the FIN sent plus those outstanding
      at the start, and what is outstanding stays within the largest advertised window. */
  lemma {:induction false} RunConserves(t: Tcp, steps: seq<Step>)
    requires Inv(t) && SendOk(t.state, t.back) && Connected(t.state)
    requires Run(t, steps) && AckOrderedRun(t, steps) && Connected(After(t, steps).state)
    ensures var u := After(t, steps);
            && SendOk(u.state, u.back)
            && Acknowledged(t, steps) + Outstanding(u.back)
               == SentCount(u) - SentCount(t) + Outstanding(t.back)
            && Outstanding(u.back) <= u.back.maxWindow
    decreases |steps|
  {
    hide Outstanding, AckAdvances, Apply, Enabled;
    if steps != [] {
      var u := Apply(t, steps[0]);
      StepKept(t, steps[0]);
      StepSends(t, steps[0]);
      RunKept(u, steps[1..]);
      StepConserves(t, u);
      RunConserves(u, steps[1..]);
    }
  }

  lemma {:induction false} RunSends(t: Tcp, steps: seq<Step>)
    requires Inv(t) && SendOk(t.state, t.back)
    requires Run(t, steps) && AckOrderedRun(t, steps)
    ensures SendOk(After(t, steps).state, After(t, steps).back)
    decreases |steps|
  {
    if steps != [] {
      StepKept(t, steps[0]);
      StepSends(t, steps[0]);
      RunSends(Apply(t, steps[0]), steps[1..]);
    }
  }

  /** Over every run of a fresh session, its acknowledgements in order, `local_seq` counts the
      local SYN, the bytes read and the local FIN while it is connected, and what is outstanding
      stays within the largest window that the client has advertised. */
  lemma SendSideSound(isn: u32, localIsn: u32, mss: nat, scale: nat, window: u16, room: nat, now: int,
                      steps: seq<Step>)
    requires scale <= MAX_SCALE && room < TWO32
    requires Run(NewDirect(isn, localIsn, mss, scale, window, room, now), steps)
    requires AckOrderedRun(NewDirect(isn, localIsn, mss, scale, window, room, now), steps)
    ensures var u := After(NewDirect(isn, localIsn, mss, scale, window, room, now), steps);
            Connected(u.state) ==>
              && u.back.localSeq == Wrap(localIsn + 1 + u.back.received + FinSent(u.state))
              && Outstanding(u.back) <= u.back.maxWindow
  {
    var t := NewDirect(isn, localIsn, mss, scale, window, room, now);
    ScaledWindow(window, scale);
    RunSends(t, steps);
    RunKept(t, steps);
  }
}
