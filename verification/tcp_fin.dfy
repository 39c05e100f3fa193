/** Which byte the counted FIN stands at. `handle_tcp` does not look at the sequence number of
    a FIN, so the answer depends on what was queued when it came. */
module TcpFin {
  import opened Serial
  import opened TcpTypes
  import opened TcpSpec
  import opened TcpFrame
  import opened TcpInvariant
  import opened TcpStream

  /** The stream position after the last queued segment, or after the forwarded bytes. */
  function Tail(f: Flow): int {
    if f.forward == [] then |f.forwarded|
    else Pos(f, f.forward[|f.forward| - 1].seqNo) + f.forward[|f.forward| - 1].Len()
  }

  /** The stream position of the FIN of a segment. */
  function FinPos(f: Flow, p: ClientSegment): int {
    Pos(f, p.seqNo) + |p.data|
  }

  /** Forwarding moves towards the tail and does not change it. */
  lemma SendHeadTail(f: Flow, room: int, r: SendResult, stream: Stream)
    requires StreamOk(f, stream) && Forwardable(f, room)
    ensures Tail(SendHead(f, r)) == Tail(f)
  {
    var g := SendHead(f, r);
    HeadAtPoint(f, room, stream);
    SendHeadStream(f, room, r, stream);
    if g.forward != [] {
      var last := f.forward[|f.forward| - 1];
      assert SegmentOk(last, f.remoteSeq, Point(f), stream);
      assert SegmentOk(g.forward[|g.forward| - 1], g.remoteSeq, Point(g), stream);
      Rebased(f, g, last.seqNo);
    }
  }

  lemma {:induction false} DrainTail(f: Flow, room: int, sends: seq<SendResult>, stream: Stream)
    requires StreamOk(f, stream)
    ensures Tail(Drain(f, room, sends)) == Tail(f)
    decreases |f.forward|
  {
    if Forwardable(f, room) {
      var g := SendHead(f, SendAt(sends));
      SendHeadStream(f, room, SendAt(sends), stream);
      SendHeadTail(f, room, SendAt(sends), stream);
      if |g.forward| < |f.forward| {
        DrainTail(g, room - (f.forward[0].Len() - f.forward[0].sent), Rest(sends), stream);
      }
    }
  }

  lemma TailFrame(f: Flow, g: Flow, stream: Stream)
    requires StreamOk(f, stream) && StreamOk(g, stream) && Grows(f, g) && SameQueue(f, g)
    ensures Tail(g) == Tail(f)
  {
    if f.forward != [] {
      var last := f.forward[|f.forward| - 1];
      assert SegmentOk(last, f.remoteSeq, Point(f), stream);
      assert SegmentOk(last, g.remoteSeq, Point(g), stream);
      Rebased(f, g, last.seqNo);
    }
  }

  /** Once a FIN was received or sent, the tail no longer moves. */
  lemma StepTail(t: Tcp, s: Step, stream: Stream)
    requires Inv(t) && Enabled(t, s) && StreamOk(t.flow, stream) && Balanced(t.flow)
    requires Rank(t.state) >= Rank(CloseWait)
    ensures Tail(Apply(t, s).flow) == Tail(t.flow)
  {
    StepKept(t, s);
    assert Faithful(t, s, stream);
    StepStream(t, s, stream);
    match s
    case FromTun(p, e) =>
      HandleTcpFramed(t, p, e);
      TailFrame(t.flow, Apply(t, s).flow, stream);
    case FromSocket(e) =>
      var room := ReceiveBuffer(t.socketOpen, e.sendbuf, e.unsent);
      CheckTcpSocketFramed(t, e);
      DrainStream(t.flow, room, e.sends, stream);
      DrainTail(t.flow, room, e.sends, stream);
      TailFrame(Drained(t, e), Apply(t, s).flow, stream);
    case Monitor(e) => MonitorKept(t, e);
    case Reap(e) => TailFrame(t.flow, Apply(t, s).flow, stream);
    case Terminate => TailFrame(t.flow, Apply(t, s).flow, stream);
  }

  /** Whenever the FIN is counted after a session left ESTABLISHED, it is counted at the tail
      of that moment. */
  lemma {:induction false} FinCountedAtTail(t: Tcp, steps: seq<Step>, stream: Stream)
    requires Inv(t) && StreamOk(t.flow, stream) && Balanced(t.flow)
    requires Rank(t.state) >= Rank(CloseWait) && Run(t, steps)
    ensures var u := After(t, steps);
            u.flow.fins == 1 ==> |u.flow.forwarded| == Tail(t.flow)
    decreases |steps|
  {
    if steps != [] {
      StepKept(t, steps[0]);
      assert Faithful(t, steps[0], stream);
      StepStream(t, steps[0], stream);
      StepTail(t, steps[0], stream);
      FinCountedAtTail(Apply(t, steps[0]), steps[1..], stream);
    }
  }

  /** A FIN that `handle_tcp` takes for the client's: not a repeated one, with no flag that goes
      before it, acknowledging everything or nothing. */
  predicate IsFin(t: Tcp, p: ClientSegment) {
    && p.fin && !p.syn && !p.rst && !p.urg && (!p.ack || p.ackNo == t.back.localSeq)
    && (t.state.Established? || t.state.FinWait1?)
  }

  /** The queue once the data of a segment is in it. */
  function Queued(t: Tcp, p: ClientSegment): Flow {
    if Queues(t, p) then QueueTcp(t.flow, p) else t.flow
  }

  lemma FinLeaves(t: Tcp, p: ClientSegment, e: PacketEvent, stream: Stream)
    requires Inv(t) && StreamOk(t.flow, stream) && Balanced(t.flow) && IsFin(t, p)
    requires Queues(t, p) ==> Agrees(t.flow, p, stream)
    ensures var u := HandleTcp(t, p, e);
            && Inv(u) && StreamOk(u.flow, stream) && Balanced(u.flow) && Grows(t.flow, u.flow)
            && Rank(u.state) >= Rank(CloseWait) && Tail(u.flow) == Tail(Queued(t, p))
  {
    hide Tail, QueueOk, Insert;
    var u := HandleTcp(t, p, e);
    HandleTcpKept(t, p, e);
    HandleTcpStream(t, p, e, stream);
    HandleTcpFramed(t, p, e);
    if Queues(t, p) {
      QueueTcpStream(t.flow, p, stream);
    }
    TailFrame(Queued(t, p), u.flow, stream);
    FinMoves(t, p, e);
  }

  lemma FinMoves(t: Tcp, p: ClientSegment, e: PacketEvent)
    requires Inv(t) && IsFin(t, p)
    ensures Rank(HandleTcp(t, p, e).state) >= Rank(CloseWait)
  {
    hide PacketFor, Insert;
  }

  /** The acknowledgement of the FIN, exactly. Let a FIN segment come, with or without data and
      whatever its number, and let any run follow in which the FIN is counted. Then the session
      has forwarded the bytes up to the end of the queue it had once the segment's data was in
      it: these are exactly the bytes before the FIN if and only if the queue ended at the FIN,
      and what is acknowledged is off by the distance between the two. */
  lemma {:induction false} FinAcknowledgedExactly(t: Tcp, p: ClientSegment, e: PacketEvent, steps: seq<Step>,
                                                  stream: Stream)
    requires Inv(t) && StreamOk(t.flow, stream) && Balanced(t.flow) && IsFin(t, p)
    requires Queues(t, p) ==> Agrees(t.flow, p, stream)
    requires Inv(HandleTcp(t, p, e)) && Run(HandleTcp(t, p, e), steps)
    ensures var u, end := After(HandleTcp(t, p, e), steps), Tail(Queued(t, p));
            u.flow.fins == 1 ==>
              && (|u.flow.forwarded| == FinPos(t.flow, p) <==> end == FinPos(t.flow, p))
              && u.flow.remoteSeq == Wrap(p.seqNo + |p.data| + 1 + (end - FinPos(t.flow, p)))
  {
    hide Run, After, QueueOk, Tail, HandleTcp, SDiff;
    FinLeaves(t, p, e, stream);
    var v := HandleTcp(t, p, e);
    FinCountedAtTail(v, steps, stream);
    RunKept(v, steps);
    SynCounted(t, After(v, steps));
    PosLands(t.flow, p.seqNo);
    WrapAdd(t.flow.start + 1 + Pos(t.flow, p.seqNo), |p.data| + 1 + (Tail(Queued(t, p)) - FinPos(t.flow, p)));
  }

  /** A session past LISTEN has counted the SYN for good. */
  lemma SynCounted(t: Tcp, u: Tcp)
    requires Inv(t) && Inv(u) && (t.state.Established? || t.state.FinWait1?)
    requires u.flow.start == t.flow.start && u.flow.syns >= t.flow.syns
    ensures u.flow.remoteSeq == Wrap(t.flow.start + 1 + |u.flow.forwarded| + u.flow.fins)
  {
  }

  /** An acceptable FIN without data, and nothing queued: it is counted and acknowledged at once,
      and this acknowledges only forwarded bytes if and only if the FIN was next in order. */
  lemma BareFinExact(t: Tcp, p: ClientSegment, e: PacketEvent)
    requires Inv(t) && t.flow.forward == [] && (t.state.Established? || t.state.FinWait1?)
    requires p.fin && !p.syn && !p.rst && !p.urg && p.data == []
    requires !p.ack || p.ackNo == t.back.localSeq
    ensures var u := HandleTcp(t, p, e);
            && u.flow.fins == 1 && u.flow.forwarded == t.flow.forwarded
            && u.log.emitted == t.log.emitted + [u.log.emitted[|u.log.emitted| - 1]]
            && u.log.emitted[|t.log.emitted|].pkt.ackNo == Wrap(t.flow.remoteSeq + 1)
            && (FinPos(t.flow, p) == |u.flow.forwarded| <==> p.seqNo == t.flow.remoteSeq)
  {
    PosUnique(t.flow, t.flow.remoteSeq, Point(t.flow));
    PosLands(t.flow, p.seqNo);
  }
}
