/** The forward direction: segments of the client, in any order, repeated or lengthened,
    leave the session as one contiguous stream. */
module TcpStream {
  import opened Serial
  import opened TcpTypes
  import opened TcpSpec
  import opened TcpFrame
  import opened TcpInvariant

  const MAX_SEGMENT := 0xFFFF

  /** The bytes of the client after its SYN, by position. */
  type Stream = nat -> byte

  /** The stream position of `remote_seq`: -1 until the SYN is counted, then the bytes
      forwarded, plus one once the FIN is counted. */
  function Point(f: Flow): int {
    |f.forwarded| + f.syns + f.fins - 1
  }

  /** The stream position a sequence number stands for, given that `r` stands for `point`. */
  function PosAt(r: u32, point: int, seqNo: u32): int {
    point + SDiff(seqNo, r)
  }

  function Pos(f: Flow, seqNo: u32): int {
    PosAt(f.remoteSeq, Point(f), seqNo)
  }

  predicate Matches(data: seq<byte>, p: int, stream: Stream) {
    p >= 0 && forall k: nat :: k < |data| ==> data[k] == stream(p + k)
  }

  /** A queued segment: not empty, not sent completely, its data those of the stream; a
      partly sent one ends its sent part at the forwarding point. */
  predicate SegmentOk(g: Segment, r: u32, point: int, stream: Stream) {
    var p := PosAt(r, point, g.seqNo);
    && 1 <= g.Len() <= MAX_SEGMENT && g.sent < g.Len()
    && point - MAX_SEGMENT <= p < point + HALF
    && Matches(g.data, p, stream)
    && (g.sent > 0 ==> p + g.sent == point)
  }

  /** Strictly sorted by position, all in one window; only the head can be partly sent. */
  predicate QueueOk(q: seq<Segment>, r: u32, point: int, stream: Stream) {
    && (forall i :: 0 <= i < |q| ==> SegmentOk(q[i], r, point, stream))
    && (forall i :: 1 <= i < |q| ==> q[i].sent == 0)
    && (forall i, j :: 0 <= i < j < |q| ==>
          PosAt(r, point, q[i].seqNo) < PosAt(r, point, q[j].seqNo) < PosAt(r, point, q[i].seqNo) + HALF)
  }

  /** The stream invariant. */
  predicate StreamOk(f: Flow, stream: Stream) {
    && Counted(f)
    && QueueOk(f.forward, f.remoteSeq, Point(f), stream)
    && Matches(f.forwarded, 0, stream)
    && (f.syns == 0 ==> f.forwarded == [])
  }

  // ---------------------------------------------------------------- positions

  lemma PosUnique(f: Flow, seqNo: u32, p: int)
    requires Counted(f)
    requires seqNo == Wrap(f.start + 1 + p) && -TWO31 <= p - Point(f) < TWO31
    ensures Pos(f, seqNo) == p
  {
    SDiffOfPositions(f.start + 1 + p, f.start + 1 + Point(f));
  }

  lemma PosLands(f: Flow, seqNo: u32)
    requires Counted(f)
    ensures seqNo == Wrap(f.start + 1 + Pos(f, seqNo))
  {
    SDiffLands(seqNo, f.remoteSeq, f.start + 1 + Point(f));
  }

  /** `compare_u32` of two numbers whose positions are close is the order of the positions. */
  lemma ComparePos(f: Flow, a: u32, b: u32)
    requires Counted(f)
    requires -HALF < Pos(f, a) - Pos(f, b) < HALF
    ensures CompareU32(a, b) == Sign(Pos(f, a) - Pos(f, b))
  {
    PosLands(f, a);
    PosLands(f, b);
    CompareWrapped(f.start + 1 + Pos(f, a), f.start + 1 + Pos(f, b));
  }

  /** A queued segment keeps its position when the forwarding point moves near it. */
  lemma Rebased(f: Flow, g: Flow, seqNo: u32)
    requires Counted(f) && Counted(g) && g.start == f.start
    requires Point(g) - MAX_SEGMENT <= Pos(f, seqNo) < Point(g) + HALF
    ensures Pos(g, seqNo) == Pos(f, seqNo)
  {
    PosLands(f, seqNo);
    PosUnique(g, seqNo, Pos(f, seqNo));
  }

  /** The calls that neither queue nor send keep the stream invariant: they count a SYN before
      any byte, or a FIN with nothing queued. */
  lemma StreamFrame(f: Flow, g: Flow, stream: Stream)
    requires StreamOk(f, stream) && Counted(g) && Grows(f, g)
    requires g.forward == f.forward && g.forwarded == f.forwarded
    ensures StreamOk(g, stream)
  {
    forall i | 0 <= i < |g.forward|
      ensures Pos(g, g.forward[i].seqNo) == Pos(f, f.forward[i].seqNo)
      ensures SegmentOk(g.forward[i], g.remoteSeq, Point(g), stream)
    {
      assert SegmentOk(f.forward[i], f.remoteSeq, Point(f), stream);
      Rebased(f, g, f.forward[i].seqNo);
    }
  }

  // ---------------------------------------------------------------- queueing

  /** The queue after inserting n before position k, or after lengthening the segment there. */
  function InsertAt(q: seq<Segment>, n: Segment, k: nat): seq<Segment>
    requires k <= |q|
  {
    if k == |q| || CompareU32(q[k].seqNo, n.seqNo) > 0 then q[..k] + [n] + q[k..]
    else if q[k].Len() < n.Len() then q[k := q[k].(data := n.data)]
    else q
  }

  lemma InsertAtNext(q: seq<Segment>, n: Segment, k: nat)
    requires 0 < k <= |q|
    ensures InsertAt(q, n, k) == [q[0]] + InsertAt(q[1..], n, k - 1)
  {
    hide CompareU32;
    var r := q[1..];
    assert q[..k] + [n] + q[k..] == [q[0]] + (r[..k - 1] + [n] + r[k - 1..]);
    if k < |q| {
      var g := q[k].(data := n.data);
      assert q[k := g] == [q[0]] + r[k - 1 := g];
    }
  }

  /** `queue_tcp` works at the first segment that is not before n. */
  lemma {:induction false} InsertShape(q: seq<Segment>, n: Segment) returns (k: nat)
    ensures k <= |q| && forall i :: 0 <= i < k ==> CompareU32(q[i].seqNo, n.seqNo) < 0
    ensures k < |q| ==> CompareU32(q[k].seqNo, n.seqNo) >= 0
    ensures Insert(q, n) == InsertAt(q, n, k)
  {
    hide CompareU32;
    if q == [] || CompareU32(q[0].seqNo, n.seqNo) >= 0 {
      k := 0;
    } else {
      var m := InsertShape(q[1..], n);
      k := m + 1;
      InsertAtNext(q, n, k);
    }
  }

  /** The client sends one stream: what is not behind the forwarding point carries the bytes
      of its position, and its number lies in one circular window narrower than 2^31 - 1 with
      `remote_seq` and the queued numbers. A SYN carries no data. */
  predicate Agrees(f: Flow, p: ClientSegment, stream: Stream) {
    && -HALF < Pos(f, p.seqNo) - Point(f) < HALF
    && |p.data| <= MAX_SEGMENT
    && (Pos(f, p.seqNo) >= Point(f) ==>
          && Matches(p.data, Pos(f, p.seqNo), stream)
          && forall i :: 0 <= i < |f.forward| ==>
               -HALF < Pos(f, f.forward[i].seqNo) - Pos(f, p.seqNo) < HALF)
  }

  /** `queue_tcp` drops exactly what lies behind the forwarding point. */
  lemma BehindIsDropped(f: Flow, p: ClientSegment)
    requires Counted(f) && -HALF < Pos(f, p.seqNo) - Point(f) < HALF
    ensures CompareU32(p.seqNo, f.remoteSeq) < 0 <==> Pos(f, p.seqNo) < Point(f)
    ensures Pos(f, p.seqNo) < Point(f) ==> QueueTcp(f, p) == f
  {
    PosUnique(f, f.remoteSeq, Point(f));
    ComparePos(f, p.seqNo, f.remoteSeq);
  }

  /** The case of `queue_tcp` that lengthens a segment never meets one that is partly sent. */
  lemma ReplacedIsUnsent(f: Flow, p: ClientSegment, k: nat, stream: Stream)
    requires StreamOk(f, stream) && Agrees(f, p, stream)
    requires CompareU32(p.seqNo, f.remoteSeq) >= 0
    requires k < |f.forward| && f.forward[k].seqNo == p.seqNo
    ensures f.forward[k].sent == 0
  {
    BehindIsDropped(f, p);
    assert SegmentOk(f.forward[k], f.remoteSeq, Point(f), stream);
  }

  /** `queue_tcp` keeps the queue sorted, in its window and true to the stream. */
  lemma QueueTcpStream(f: Flow, p: ClientSegment, stream: Stream)
    requires StreamOk(f, stream) && p.data != [] && Agrees(f, p, stream) && f.fins == 0
    ensures StreamOk(QueueTcp(f, p), stream)
  {
    hide SDiff, Wrap, Insert;
    BehindIsDropped(f, p);
    if CompareU32(p.seqNo, f.remoteSeq) >= 0 {
      var n := Segment(p.seqNo, 0, p.psh, p.data);
      InsertOk(f, n, stream);
      QueueCounted(f, p);
    }
  }

  lemma InsertOk(f: Flow, n: Segment, stream: Stream)
    requires Counted(f) && QueueOk(f.forward, f.remoteSeq, Point(f), stream)
    requires SegmentOk(n, f.remoteSeq, Point(f), stream) && n.sent == 0 && Pos(f, n.seqNo) >= Point(f)
    requires forall i :: 0 <= i < |f.forward| ==>
               -HALF < Pos(f, f.forward[i].seqNo) - Pos(f, n.seqNo) < HALF
    ensures QueueOk(Insert(f.forward, n), f.remoteSeq, Point(f), stream)
  {
    hide SDiff, Wrap;
    var q := f.forward;
    var k := InsertShape(q, n);
    forall i | 0 <= i < |q|
      ensures CompareU32(q[i].seqNo, n.seqNo) == Sign(Pos(f, q[i].seqNo) - Pos(f, n.seqNo))
    {
      ComparePos(f, q[i].seqNo, n.seqNo);
    }
    if k < |q| && q[k].seqNo == n.seqNo {
      assert SegmentOk(q[k], f.remoteSeq, Point(f), stream);
      ReplaceOk(q, k, n, f.remoteSeq, Point(f), stream);
    } else {
      if q != [] {
        assert SegmentOk(q[0], f.remoteSeq, Point(f), stream);
      }
      SpliceOk(q, k, n, f.remoteSeq, Point(f), stream);
    }
  }

  lemma ReplaceOk(q: seq<Segment>, k: nat, n: Segment, r: u32, point: int, stream: Stream)
    requires QueueOk(q, r, point, stream) && SegmentOk(n, r, point, stream)
    requires k < |q| && q[k].seqNo == n.seqNo && q[k].sent == 0
    ensures QueueOk(q[k := q[k].(data := n.data)], r, point, stream)
  {
  }

  lemma SpliceOk(q: seq<Segment>, k: nat, n: Segment, r: u32, point: int, stream: Stream)
    requires QueueOk(q, r, point, stream) && SegmentOk(n, r, point, stream)
    requires k <= |q| && n.sent == 0
    requires forall i :: 0 <= i < |q| ==>
               -HALF < PosAt(r, point, q[i].seqNo) - PosAt(r, point, n.seqNo) < HALF
    requires forall i :: 0 <= i < k ==> PosAt(r, point, q[i].seqNo) < PosAt(r, point, n.seqNo)
    requires k < |q| ==> PosAt(r, point, q[k].seqNo) > PosAt(r, point, n.seqNo)
    requires k == 0 && q != [] ==> q[0].sent == 0
    ensures QueueOk(q[..k] + [n] + q[k..], r, point, stream)
  {
    hide SegmentOk, PosAt;
    var q' := q[..k] + [n] + q[k..];
    assert forall i :: 0 <= i < |q'| ==> q'[i] == if i < k then q[i] else if i == k then n else q[i - 1];
  }

  // ---------------------------------------------------------------- forwarding

  /** The head that can be sent continues the stream where the forwarding stopped. */
  lemma HeadAtPoint(f: Flow, room: int, stream: Stream)
    requires StreamOk(f, stream) && Forwardable(f, room)
    ensures Pos(f, f.forward[0].seqNo) + f.forward[0].sent == Point(f) == |f.forwarded|
    ensures 1 <= f.forward[0].Len() <= MAX_SEGMENT && f.forward[0].sent < f.forward[0].Len()
    ensures Matches(f.forward[0].data, Pos(f, f.forward[0].seqNo), stream)
  {
    var h := f.forward[0];
    assert SegmentOk(h, f.remoteSeq, Point(f), stream);
    SDiffOfPositions(h.seqNo, h.seqNo + h.sent);
  }

  /** One `send` forwards the next bytes of the stream. */
  lemma SendHeadStream(f: Flow, room: int, r: SendResult, stream: Stream)
    requires StreamOk(f, stream) && Forwardable(f, room)
    ensures StreamOk(SendHead(f, r), stream)
  {
    hide SDiff, Wrap;
    var g := SendHead(f, r);
    SendHeadCounted(f, room, r);
    HeadAtPoint(f, room, stream);
    SendHeadForwards(f, r, stream);
    var skip := if |g.forward| < |f.forward| then 1 else 0;
    forall i | 0 <= i < |g.forward|
      ensures g.forward[i].seqNo == f.forward[i + skip].seqNo
      ensures Pos(g, g.forward[i].seqNo) == Pos(f, f.forward[i + skip].seqNo)
      ensures i + skip >= 1 ==> g.forward[i] == f.forward[i + skip]
      ensures SegmentOk(g.forward[i], g.remoteSeq, Point(g), stream)
    {
      assert SegmentOk(f.forward[i + skip], f.remoteSeq, Point(f), stream);
      Rebased(f, g, f.forward[i + skip].seqNo);
    }
  }

  lemma SendHeadForwards(f: Flow, r: SendResult, stream: Stream)
    requires Matches(f.forwarded, 0, stream) && f.forward != [] && f.forward[0].sent <= f.forward[0].Len()
    requires Matches(f.forward[0].data, |f.forwarded| - f.forward[0].sent, stream)
    ensures Matches(SendHead(f, r).forwarded, 0, stream)
  {
  }

  /** The forward loop keeps the stream invariant for all results of its `send` calls. */
  lemma {:induction false} DrainStream(f: Flow, room: int, sends: seq<SendResult>, stream: Stream)
    requires StreamOk(f, stream)
    ensures StreamOk(Drain(f, room, sends), stream)
    decreases |f.forward|
  {
    if Forwardable(f, room) {
      var g := SendHead(f, SendAt(sends));
      SendHeadStream(f, room, SendAt(sends), stream);
      if |g.forward| < |f.forward| {
        DrainStream(g, room - (f.forward[0].Len() - f.forward[0].sent), Rest(sends), stream);
      }
    }
  }

  // ---------------------------------------------------------------- failed sends

  /** The results of the `send` calls that the forward loop makes. */
  function Used(f: Flow, room: int, sends: seq<SendResult>): seq<SendResult>
    requires SentFits(f.forward)
    decreases |f.forward|
  {
    if !Forwardable(f, room) then []
    else
      var g := SendHead(f, SendAt(sends));
      [SendAt(sends)] +
      (if |g.forward| < |f.forward| then
         Used(g, room - (f.forward[0].Len() - f.forward[0].sent), Rest(sends))
       else [])
  }

  predicate NoError(results: seq<SendResult>) {
    SendError !in results
  }

  /** What the socket accepted against what was forwarded: equal exactly while nothing was lost. */
  predicate Balanced(f: Flow) {
    f.lost == 0 ==> f.accepted == f.forwarded
  }

  lemma SendHeadLosses(f: Flow, r: SendResult)
    requires Balanced(f) && f.forward != [] && f.forward[0].sent < f.forward[0].Len()
    ensures var g := SendHead(f, r);
            Balanced(g) && f.lost <= g.lost && (g.lost == f.lost <==> r.Accepted?)
  {
  }

  lemma {:induction false} DrainLosses(f: Flow, room: int, sends: seq<SendResult>, stream: Stream)
    requires StreamOk(f, stream) && Balanced(f)
    ensures var d := Drain(f, room, sends);
            && Balanced(d) && f.lost <= d.lost
            && (d.lost == f.lost <==> NoError(Used(f, room, sends)))
    decreases |f.forward|
  {
    if Forwardable(f, room) {
      var g := SendHead(f, SendAt(sends));
      HeadAtPoint(f, room, stream);
      SendHeadStream(f, room, SendAt(sends), stream);
      SendHeadLosses(f, SendAt(sends));
      if |g.forward| < |f.forward| {
        DrainLosses(g, room - (f.forward[0].Len() - f.forward[0].sent), Rest(sends), stream);
      }
    }
  }

  // ---------------------------------------------------------------- steps

  lemma CheckTcpSocketStream(t: Tcp, e: SocketEvent, stream: Stream)
    requires Inv(t) && t.socketOpen && e.sendbuf < TWO32 && StreamOk(t.flow, stream) && Balanced(t.flow)
    ensures var g := CheckTcpSocket(t, e).flow;
            && StreamOk(g, stream) && Balanced(g) && t.flow.lost <= g.lost
            && (g.lost == t.flow.lost <==> SendsSucceed(t, FromSocket(e)))
  {
    var room := ReceiveBuffer(t.socketOpen, e.sendbuf, e.unsent);
    CheckTcpSocketKept(t, e);
    if t.state.Listen? {
      StreamFrame(t.flow, CheckTcpSocket(t, e).flow, stream);
    } else {
      CheckTcpSocketFramed(t, e);
      DrainStream(t.flow, room, e.sends, stream);
      DrainLosses(t.flow, room, e.sends, stream);
      StreamFrame(Drained(t, e), CheckTcpSocket(t, e).flow, stream);
    }
  }

  lemma HandleTcpStream(t: Tcp, p: ClientSegment, e: PacketEvent, stream: Stream)
    requires Inv(t) && StreamOk(t.flow, stream) && Balanced(t.flow)
    requires Queues(t, p) ==> Agrees(t.flow, p, stream)
    ensures var g := HandleTcp(t, p, e).flow;
            StreamOk(g, stream) && Balanced(g) && g.lost == t.flow.lost
  {
    HandleTcpKept(t, p, e);
    HandleTcpFramed(t, p, e);
    if Queues(t, p) {
      QueueTcpStream(t.flow, p, stream);
      StreamFrame(QueueTcp(t.flow, p), HandleTcp(t, p, e).flow, stream);
    } else {
      StreamFrame(t.flow, HandleTcp(t, p, e).flow, stream);
    }
  }

  /** The data a step brings agrees with the stream. */
  predicate Faithful(t: Tcp, s: Step, stream: Stream) {
    s.FromTun? && Queues(t, s.p) ==> Agrees(t.flow, s.p, stream)
  }

  /** No `send` that the step makes fails. */
  predicate SendsSucceed(t: Tcp, s: Step)
    requires Inv(t)
  {
    s.FromSocket? && !s.se.err && s.se.epollout && !t.state.Listen? ==>
      NoError(Used(t.flow, ReceiveBuffer(t.socketOpen, s.se.sendbuf, s.se.unsent), s.se.sends))
  }

  lemma StepStream(t: Tcp, s: Step, stream: Stream)
    requires Inv(t) && Enabled(t, s) && StreamOk(t.flow, stream) && Balanced(t.flow)
    requires Faithful(t, s, stream)
    ensures var g := Apply(t, s).flow;
            && StreamOk(g, stream) && Balanced(g) && t.flow.lost <= g.lost
            && (g.lost == t.flow.lost <==> SendsSucceed(t, s))
  {
    StepKept(t, s);
    match s
    case FromTun(p, e) =>
      HandleTcpStream(t, p, e, stream);
    case FromSocket(e) => CheckTcpSocketStream(t, e, stream);
    case Monitor(e) => MonitorKept(t, e);
    case Reap(e) => StreamFrame(t.flow, Apply(t, s).flow, stream);
    case Terminate => StreamFrame(t.flow, Apply(t, s).flow, stream);
  }

  // ---------------------------------------------------------------- runs

  /** All data of the run agrees with the stream. */
  predicate FaithfulRun(t: Tcp, steps: seq<Step>, stream: Stream)
    requires Inv(t) && Run(t, steps)
    decreases |steps|
  {
    steps == [] ||
    (Faithful(t, steps[0], stream) && (StepKept(t, steps[0]); FaithfulRun(Apply(t, steps[0]), steps[1..], stream)))
  }

  /** No `send` of the run fails. */
  predicate NoSendFails(t: Tcp, steps: seq<Step>)
    requires Inv(t) && Run(t, steps)
    decreases |steps|
  {
    steps == [] ||
    (SendsSucceed(t, steps[0]) && (StepKept(t, steps[0]); NoSendFails(Apply(t, steps[0]), steps[1..])))
  }

  lemma {:induction false} RunStream(t: Tcp, steps: seq<Step>, stream: Stream)
    requires Inv(t) && StreamOk(t.flow, stream) && Balanced(t.flow)
    requires Run(t, steps) && FaithfulRun(t, steps, stream)
    ensures var g := After(t, steps).flow;
            && StreamOk(g, stream) && Balanced(g) && t.flow.lost <= g.lost
            && (g.lost == t.flow.lost <==> NoSendFails(t, steps))
    decreases |steps|
  {
    if steps != [] {
      StepKept(t, steps[0]);
      StepStream(t, steps[0], stream);
      RunStream(Apply(t, steps[0]), steps[1..], stream);
    }
  }

  /** Stream refinement. Over every run of a direct session, with data in any order, the
      session forwards exactly the first bytes of the client's stream, in order, each once;
      and the bytes the socket accepted are that same prefix if and only if no `send` failed. */
  lemma StreamRefinement(isn: u32, localIsn: u32, mss: nat, scale: nat, window: u16, room: nat, now: int,
                         steps: seq<Step>, stream: Stream)
    requires scale <= MAX_SCALE && room < TWO32
    requires Run(NewDirect(isn, localIsn, mss, scale, window, room, now), steps)
    requires FaithfulRun(NewDirect(isn, localIsn, mss, scale, window, room, now), steps, stream)
    ensures var t := NewDirect(isn, localIsn, mss, scale, window, room, now);
            var h := After(t, steps).flow;
            && (forall k: nat :: k < |h.forwarded| ==> h.forwarded[k] == stream(k))
            && (h.accepted == h.forwarded <==> NoSendFails(t, steps))
  {
    RunStream(NewDirect(isn, localIsn, mss, scale, window, room, now), steps, stream);
  }

  // ---------------------------------------------------------------- acknowledgements

  /** Every step keeps the packets of the steps before it. */
  lemma StepEmits(t: Tcp, s: Step)
    requires Inv(t) && Enabled(t, s)
    ensures t.log.emitted <= Apply(t, s).log.emitted
  {
    hide PacketFor, CheckTcpSocket, HandleTcp, MaskFor, SendWindow, TcpTimeout;
    match s
    case FromTun(p, e) => HandleTcpFramed(t, p, e);
    case FromSocket(e) => CheckTcpSocketEmits(t, e);
    case Monitor(e) =>
    case Reap(e) =>
    case Terminate =>
  }

  lemma CheckTcpSocketEmits(t: Tcp, e: SocketEvent)
    requires Inv(t) && e.sendbuf < TWO32
    ensures t.log.emitted <= CheckTcpSocket(t, e).log.emitted
  {
    hide PacketFor, ForwardAndAcknowledge, ReadSocket, Drain;
    if !t.state.Listen? {
      CheckTcpSocketFramed(t, e);
    }
  }

  lemma {:induction false} RunEmits(t: Tcp, steps: seq<Step>)
    requires Inv(t) && Run(t, steps)
    ensures t.log.emitted <= After(t, steps).log.emitted
    decreases |steps|
  {
    hide Apply, Enabled;
    if steps != [] {
      StepKept(t, steps[0]);
      StepEmits(t, steps[0]);
      RunEmits(Apply(t, steps[0]), steps[1..]);
    }
  }

  /** The packet acknowledges forwarded bytes that the socket did not accept. */
  predicate Premature(e: Emission) {
    e.pkt.ack && e.accepted < e.forwarded
  }

  /** A step in which a `send` fails acknowledges what the socket did not take. */
  lemma FailedStepAcks(t: Tcp, s: Step, stream: Stream) returns (e: Emission)
    requires Inv(t) && Enabled(t, s) && StreamOk(t.flow, stream) && Balanced(t.flow)
    requires !SendsSucceed(t, s)
    ensures e in Apply(t, s).log.emitted && Premature(e)
  {
    hide PacketFor, Acknowledge, ReadSocket, QueueOk, Drain, Used;
    var room := ReceiveBuffer(t.socketOpen, s.se.sendbuf, s.se.unsent);
    var d := t.(flow := Drain(t.flow, room, s.se.sends));
    DrainStream(t.flow, room, s.se.sends, stream);
    DrainLosses(t.flow, room, s.se.sends, stream);
    UsedNothing(t.flow, room, s.se.sends);
    e := AcknowledgeStamps(d, s.se);
    ReadSocketFramed(Acknowledge(d, true, s.se), s.se);
  }

  lemma UsedNothing(f: Flow, room: int, sends: seq<SendResult>)
    requires SentFits(f.forward)
    ensures !Forwardable(f, room) ==> NoError(Used(f, room, sends))
  {
  }

  /** The acknowledgement after forwarding carries the counts of the moment. */
  lemma AcknowledgeStamps(t: Tcp, se: SocketEvent) returns (e: Emission)
    requires se.sendbuf < TWO32
    ensures e in Acknowledge(t, true, se).log.emitted
    ensures e.pkt.ack && e.accepted == |t.flow.accepted| && e.forwarded == |t.flow.forwarded|
  {
    hide NewWindow, HeaderWindow;
    e := Acknowledge(t, true, se).log.emitted[|t.log.emitted|];
  }

  /** A run in which a `send` fails has a premature acknowledgement. */
  lemma {:induction false} FailedRunAcks(t: Tcp, steps: seq<Step>, stream: Stream) returns (e: Emission)
    requires Inv(t) && StreamOk(t.flow, stream) && Balanced(t.flow)
    requires Run(t, steps) && FaithfulRun(t, steps, stream) && !NoSendFails(t, steps)
    ensures e in After(t, steps).log.emitted && Premature(e)
    decreases |steps|
  {
    hide Apply, Enabled, StreamOk, Balanced;
    StepKept(t, steps[0]);
    var u := Apply(t, steps[0]);
    if SendsSucceed(t, steps[0]) {
      StepStream(t, steps[0], stream);
      e := FailedRunAcks(u, steps[1..], stream);
    } else {
      e := FailedStepAcks(t, steps[0], stream);
      RunEmits(u, steps[1..]);
    }
  }

  /** No premature acknowledgement. Over every run, each acknowledgement emitted covers the SYN,
      a prefix of the client's stream that had been forwarded by then, and the FIN if counted (a
      keep-alive one number less). The socket had accepted that prefix, for every acknowledgement
      of the run, if and only if no `send` of the run failed. */
  lemma {:induction false} NoPrematureAck(isn: u32, localIsn: u32, mss: nat, scale: nat, window: u16, room: nat,
                                          now: int, steps: seq<Step>, stream: Stream)
    requires scale <= MAX_SCALE && room < TWO32
    requires Run(NewDirect(isn, localIsn, mss, scale, window, room, now), steps)
    requires FaithfulRun(NewDirect(isn, localIsn, mss, scale, window, room, now), steps, stream)
    ensures var t := NewDirect(isn, localIsn, mss, scale, window, room, now);
            var u := After(t, steps);
            && (forall e :: e in u.log.emitted && e.pkt.ack ==>
                  && (|| e.pkt.ackNo == Wrap(isn + e.syns + e.forwarded + e.fins)
                      || e.pkt.ackNo == Wrap(isn + e.syns + e.forwarded + e.fins - 1))
                  && e.syns <= 1 && e.fins <= 1 && e.accepted <= e.forwarded <= |u.flow.forwarded|)
            && ((forall e :: e in u.log.emitted && e.pkt.ack ==> e.accepted == e.forwarded)
                <==> NoSendFails(t, steps))
  {
    var t := NewDirect(isn, localIsn, mss, scale, window, room, now);
    assert StreamOk(t.flow, stream);
    hide Run, After, FaithfulRun, NoSendFails, StreamOk, Staged, Owned, MovesUp, Counted, AcksCovered, NewDirect, Wrap;
    RunKept(t, steps);
    RunStream(t, steps, stream);
    var u := After(t, steps);
    AcksMean(u, isn);
    if !NoSendFails(t, steps) {
      var e := FailedRunAcks(t, steps, stream);
    }
  }

  /** What covered acknowledgements say, and that they cover accepted bytes while none were lost. */
  lemma AcksMean(u: Tcp, isn: u32)
    requires Counted(u.flow) && AcksCovered(u.flow, u.log.emitted) && u.flow.start == isn
    ensures forall e :: e in u.log.emitted && e.pkt.ack ==>
              && (|| e.pkt.ackNo == Wrap(isn + e.syns + e.forwarded + e.fins)
                  || e.pkt.ackNo == Wrap(isn + e.syns + e.forwarded + e.fins - 1))
              && e.syns <= 1 && e.fins <= 1 && e.accepted <= e.forwarded <= |u.flow.forwarded|
    ensures u.flow.lost == 0 ==> forall e :: e in u.log.emitted ==> e.accepted == e.forwarded
  {
    hide Wrap;
    forall e | e in u.log.emitted
      ensures AckCovered(u.flow, e)
    {
    }
  }

  /** The queue of every faithful run is strictly sorted in the serial order, so it holds no
      two segments with one number. */
  lemma QueueSortedBySerial(f: Flow, i: nat, j: nat, stream: Stream)
    requires StreamOk(f, stream) && i < j < |f.forward|
    ensures CompareU32(f.forward[i].seqNo, f.forward[j].seqNo) < 0
    ensures f.forward[i].seqNo != f.forward[j].seqNo
  {
    ComparePos(f, f.forward[i].seqNo, f.forward[j].seqNo);
  }

  /** `queue_tcp` forgets nothing: every queued segment stays, possibly longer, and a segment not
      behind the forwarding point is there afterwards with at least its data's length. */
  lemma QueueForgetsNothing(f: Flow, p: ClientSegment)
    ensures var q := QueueTcp(f, p).forward;
            && (forall g :: g in f.forward ==>
                  exists g' :: g' in q && g'.seqNo == g.seqNo && g'.sent == g.sent && g'.Len() >= g.Len())
            && (CompareU32(p.seqNo, f.remoteSeq) >= 0 ==>
                  exists g' :: g' in q && g'.seqNo == p.seqNo && g'.Len() >= |p.data|)
            && (CompareU32(p.seqNo, f.remoteSeq) >= 0 && (forall g :: g in f.forward ==> g.seqNo != p.seqNo) ==>
                  Segment(p.seqNo, 0, p.psh, p.data) in q)
            && |q| <= |f.forward| + 1
  {
    if CompareU32(p.seqNo, f.remoteSeq) >= 0 {
      var n := Segment(p.seqNo, 0, p.psh, p.data);
      var k := InsertShape(f.forward, n);
      InsertForgetsNothing(f.forward, n, k);
    }
  }

  lemma InsertForgetsNothing(q: seq<Segment>, n: Segment, k: nat)
    requires k <= |q| && (k < |q| ==> CompareU32(q[k].seqNo, n.seqNo) >= 0)
    ensures var r := InsertAt(q, n, k);
            && (forall g :: g in q ==>
                  exists g' :: g' in r && g'.seqNo == g.seqNo && g'.sent == g.sent && g'.Len() >= g.Len())
            && (exists g' :: g' in r && g'.seqNo == n.seqNo && g'.Len() >= n.Len())
            && ((forall g :: g in q ==> g.seqNo != n.seqNo) ==> n in r)
            && |r| <= |q| + 1
  {
    var r := InsertAt(q, n, k);
    if k == |q| || CompareU32(q[k].seqNo, n.seqNo) > 0 {
      assert r[k] == n;
      forall i | 0 <= i < |q|
        ensures q[i] in r
      {
        assert r[if i < k then i else i + 1] == q[i];
      }
    } else {
      assert q[k].seqNo == n.seqNo;
      assert r[k] in r;
      forall i | 0 <= i < |q| && i != k
        ensures q[i] in r
      {
        assert r[i] == q[i];
      }
    }
  }

  /** A failed `send` is real: with one queued segment and `send` returning -1 the segment is
      counted as forwarded and acknowledged to the client, and the socket has nothing of it. */
  lemma FailedSendLosesBytes(t: Tcp, g: Segment, e: SocketEvent)
    requires Inv(t) && t.socketOpen && t.state.Established? && t.flow.forward == [g]
    requires g.seqNo == t.flow.remoteSeq && g.sent == 0 && g.Len() >= 1
    requires !e.err && e.epollout && !e.epollin && e.sends == [SendError] && e.ackWritten
    requires e.sendbuf < TWO32 && g.Len() < ReceiveBuffer(true, e.sendbuf, e.unsent)
    ensures var u := CheckTcpSocket(t, e);
            && u.flow.accepted == t.flow.accepted && u.flow.forward == []
            && u.flow.remoteSeq == Wrap(t.flow.remoteSeq + g.Len())
            && u.log.emitted != [] && u.log.emitted[|u.log.emitted| - 1].pkt.ackNo == u.flow.remoteSeq
  {
    var room := ReceiveBuffer(t.socketOpen, e.sendbuf, e.unsent);
    var d := SendHead(t.flow, SendError);
    assert Drain(t.flow, room, e.sends) == Drain(d, room - g.Len(), []) == d;
  }
}
