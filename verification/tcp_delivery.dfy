/** When the forward queue empties, when it never will, and the advertised window. */
module TcpDelivery {
  import opened Serial
  import opened TcpTypes
  import opened Powers
  import opened TcpSpec
  import opened TcpFrame
  import opened TcpInvariant
  import opened TcpStream

  // ---------------------------------------------------------------- drain completeness

  /** A run of segments without gap or overlap whose unsent part starts at r. */
  predicate Contiguous(q: seq<Segment>, r: u32) {
    q == [] ||
    (Wrap(q[0].seqNo + q[0].sent) == r && Contiguous(q[1..], Wrap(q[0].seqNo + q[0].Len())))
  }

  /** The k-th `send` takes all of the k-th segment. */
  predicate TakesAll(q: seq<Segment>, sends: seq<SendResult>) {
    |q| <= |sends| &&
    forall i :: 0 <= i < |q| ==> sends[i].Accepted? && sends[i].n >= q[i].Len() - q[i].sent
  }

  lemma {:induction false} UnsentNonNegative(q: seq<Segment>)
    requires SentFits(q)
    ensures Unsent(q) >= 0
  {
    if q != [] {
      assert SentFits(q[1..]);
      UnsentNonNegative(q[1..]);
    }
  }

  /** A `send` that takes the whole head. */
  lemma SendAll(f: Flow, r: SendResult)
    requires SentFits(f.forward) && f.forward != []
    requires Wrap(f.forward[0].seqNo + f.forward[0].sent) == f.remoteSeq
    requires r.Accepted? && r.n >= f.forward[0].Len() - f.forward[0].sent
    ensures var g := SendHead(f, r);
            var n := f.forward[0].Len() - f.forward[0].sent;
            && g.forward == f.forward[1..] && SentFits(g.forward)
            && g.lost == f.lost && g.syns == f.syns && g.fins == f.fins
            && g.remoteSeq == Wrap(f.forward[0].seqNo + f.forward[0].Len()) == Wrap(f.remoteSeq + n)
            && |g.accepted| == |f.accepted| + n
  {
    WrapAdd(f.forward[0].seqNo + f.forward[0].sent, f.forward[0].Len() - f.forward[0].sent);
    hide Wrap;
  }

  lemma TakesAllRest(q: seq<Segment>, sends: seq<SendResult>)
    requires q != [] && TakesAll(q, sends)
    ensures TakesAll(q[1..], sends[1..])
  {
    forall i | 0 <= i < |q[1..]|
      ensures sends[1..][i].Accepted? && sends[1..][i].n >= q[1..][i].Len() - q[1..][i].sent
    {
      assert sends[i + 1].Accepted?;
    }
  }

  /** The flow after everything queued was accepted. */
  predicate Delivered(f: Flow, d: Flow) {
    && d.remoteSeq == Wrap(f.remoteSeq + Unsent(f.forward))
    && |d.accepted| == |f.accepted| + Unsent(f.forward)
    && d.syns == f.syns && d.fins == f.fins && d.lost == f.lost
  }

  /** With room for everything and a socket that takes everything, the forward loop empties
      the queue if and only if the queue is contiguous from the forwarding point; then it
      advances `remote_seq` by exactly the unsent bytes, and the socket accepts them. */
  lemma {:induction false} DrainCompletes(f: Flow, room: int, sends: seq<SendResult>)
    requires SentFits(f.forward) && TakesAll(f.forward, sends)
    requires Unsent(f.forward) < room
    ensures var d := Drain(f, room, sends);
            && (d.forward == [] <==> Contiguous(f.forward, f.remoteSeq))
            && (d.forward == [] ==> Delivered(f, d))
    decreases |f.forward|
  {
    hide SendHead, Wrap, Drain, Delivered;
    var q := f.forward;
    if q == [] {
      EmptyDrain(f, room, sends);
    } else if !Forwardable(f, room) {
      HeadUnsent(q);
      EmptyDrain(f, room, sends);
    } else {
      var n := q[0].Len() - q[0].sent;
      var g := SendHead(f, sends[0]);
      SendAll(f, sends[0]);
      TakesAllRest(q, sends);
      DrainOnward(f, room, sends);
      DrainCompletes(g, room - n, sends[1..]);
      DeliveredAfter(f, g, Drain(f, room, sends), n);
    }
  }

  lemma DrainOnward(f: Flow, room: int, sends: seq<SendResult>)
    requires SentFits(f.forward) && Forwardable(f, room) && sends != []
    requires |SendHead(f, sends[0]).forward| < |f.forward|
    ensures Drain(f, room, sends)
            == Drain(SendHead(f, sends[0]), room - (f.forward[0].Len() - f.forward[0].sent), sends[1..])
  {
    hide SendHead, Forwardable;
  }

  lemma EmptyDrain(f: Flow, room: int, sends: seq<SendResult>)
    requires SentFits(f.forward) && !Forwardable(f, room)
    ensures Drain(f, room, sends) == f
    ensures f.forward == [] ==> Delivered(f, f)
  {
  }

  lemma DeliveredAfter(f: Flow, g: Flow, d: Flow, n: nat)
    requires f.forward != [] && g.forward == f.forward[1..] && n == f.forward[0].Len() - f.forward[0].sent
    requires g.remoteSeq == Wrap(f.remoteSeq + n) && |g.accepted| == |f.accepted| + n
    requires g.lost == f.lost && g.syns == f.syns && g.fins == f.fins
    ensures Delivered(g, d) <==> Delivered(f, d)
  {
    WrapAdd(f.remoteSeq + n, Unsent(g.forward));
  }

  /** One writable event on a session whose queue is contiguous forwards all of it, counts the
      FIN in CLOSE_WAIT, and acknowledges exactly that. */
  lemma WritableEventDrains(t: Tcp, e: SocketEvent)
    requires Inv(t) && t.socketOpen && (t.state.Established? || t.state.CloseWait?)
    requires t.flow.forward != [] && Contiguous(t.flow.forward, t.flow.remoteSeq)
    requires !e.err && e.epollout && !e.epollin && e.sendbuf < TWO32
    requires TakesAll(t.flow.forward, e.sends)
    requires Unsent(t.flow.forward) < ReceiveBuffer(true, e.sendbuf, e.unsent)
    ensures var u := CheckTcpSocket(t, e);
            var fin := if t.state.CloseWait? then 1 else 0;
            && u.flow.forward == []
            && u.flow.remoteSeq == Wrap(t.flow.remoteSeq + Unsent(t.flow.forward) + fin)
            && u.flow.fins == t.flow.fins + fin
            && |u.log.emitted| == |t.log.emitted| + 1
            && u.log.emitted[|t.log.emitted|].pkt.ackNo == u.flow.remoteSeq
  {
    hide Drain, NewWindow, ReceiveBuffer, TakesAll, HeaderWindow, Unsent, Wrap;
    var room := ReceiveBuffer(true, e.sendbuf, e.unsent);
    var d := Drain(t.flow, room, e.sends);
    DrainCompletes(t.flow, room, e.sends);
    HeadUnsent(t.flow.forward);
    assert Forwardable(t.flow, room);
    WrapAdd(t.flow.remoteSeq + Unsent(t.flow.forward), 1);
    assert CheckTcpSocket(t, e) == Acknowledge(t.(flow := d), true, e);
  }

  lemma HeadUnsent(q: seq<Segment>)
    requires q != [] && SentFits(q)
    ensures q[0].Len() - q[0].sent <= Unsent(q)
  {
    assert SentFits(q[1..]);
    UnsentNonNegative(q[1..]);
  }

  // ---------------------------------------------------------------- what the loop does, exactly

  /** The result of the i-th `send`; past the listed results a call takes nothing. */
  function NthSend(sends: seq<SendResult>, i: nat): SendResult {
    if i < |sends| then sends[i] else Accepted(0)
  }

  function Remaining(g: Segment): int {
    g.Len() - g.sent
  }

  /** The unsent bytes of a queue. */
  function Rests(q: seq<Segment>): seq<byte>
    requires SentFits(q)
  {
    if q == [] then [] else assert SentFits(q[1..]); q[0].data[q[0].sent..] + Rests(q[1..])
  }

  /** The loop stopped at segment k for want of order or room, having sent those before it. */
  predicate StopsBefore(f: Flow, d: Flow, room: int, k: nat)
    requires SentFits(f.forward) && k <= |f.forward|
  {
    && d.forward == f.forward[k..] && !Forwardable(d, room - Unsent(f.forward[..k]))
    && (assert SentFits(f.forward[..k]); d.forwarded == f.forwarded + Rests(f.forward[..k]))
  }

  /** The loop stopped because the `send` of segment k took n bytes, not all of it. */
  predicate StopsWithin(f: Flow, d: Flow, k: nat, n: nat)
    requires SentFits(f.forward) && k < |f.forward|
  {
    var g := f.forward[k];
    && n < Remaining(g) && d.forward == [g.(sent := g.sent + n)] + f.forward[k + 1..]
    && (assert SentFits(f.forward[..k]);
        d.forwarded == f.forwarded + Rests(f.forward[..k]) + g.data[g.sent..g.sent + n])
  }

  /** The forward loop sends whole segments from the front, one `send` each, and stops at the
      first that is out of order or does not fit the room left, or whose `send` does not take all
      of it; that one keeps what was sent of it. */
  lemma {:induction false} DrainExactly(f: Flow, room: int, sends: seq<SendResult>) returns (k: nat, within: bool)
    requires SentFits(f.forward)
    ensures k <= |f.forward| && (within ==> k < |f.forward|)
    ensures forall i :: 0 <= i < k ==> TakesWhole(f.forward[i], NthSend(sends, i))
    ensures within ==> NthSend(sends, k).Accepted?
                       && StopsWithin(f, Drain(f, room, sends), k, NthSend(sends, k).n)
    ensures !within ==> StopsBefore(f, Drain(f, room, sends), room, k)
    decreases |f.forward|
  {
    hide Wrap, SendHead, StopsBefore, StopsWithin, TakesWhole;
    var q := f.forward;
    if !Forwardable(f, room) {
      k, within := 0, false;
      StopsAtOnce(f, room);
    } else {
      var r := SendAt(sends);
      var g := SendHead(f, r);
      SendOne(f, r);
      assert r == NthSend(sends, 0);
      if |g.forward| < |f.forward| {
        var j, w := DrainExactly(g, room - Remaining(q[0]), Rest(sends));
        k, within := j + 1, w;
        forall i | 0 <= i < k
          ensures TakesWhole(q[i], NthSend(sends, i))
        {
          if i > 0 {
            assert q[i] == g.forward[i - 1] && NthSend(sends, i) == NthSend(Rest(sends), i - 1);
          }
        }
        assert NthSend(sends, k) == NthSend(Rest(sends), j);
        var d := Drain(g, room - Remaining(q[0]), Rest(sends));
        if w {
          WithinOnward(f, g, d, j, NthSend(sends, k).n);
        } else {
          BeforeOnward(f, g, d, room, j);
        }
      } else {
        k, within := 0, true;
      }
    }
  }

  /** The `send` takes all that remains of the segment (or fails, and is taken for that). */
  predicate TakesWhole(g: Segment, r: SendResult) {
    r.SendError? || r.n >= Remaining(g)
  }

  lemma StopsAtOnce(f: Flow, room: int)
    requires SentFits(f.forward) && !Forwardable(f, room)
    ensures StopsBefore(f, f, room, 0)
  {
    assert f.forward[..0] == [] && f.forward[0..] == f.forward;
  }

  lemma SendOne(f: Flow, r: SendResult)
    requires SentFits(f.forward) && f.forward != []
    ensures var g := SendHead(f, r);
            && SentFits(g.forward)
            && (TakesWhole(f.forward[0], r) ==>
                  && g.forward == f.forward[1..] && |g.forward| < |f.forward|
                  && g.forwarded == f.forwarded + f.forward[0].data[f.forward[0].sent..])
            && (!TakesWhole(f.forward[0], r) ==>
                  |g.forward| == |f.forward| && r.Accepted? && StopsWithin(f, g, 0, r.n))
  {
    hide Wrap;
    assert f.forward[..0] == [];
  }

  lemma RestsFirst(q: seq<Segment>, j: nat)
    requires SentFits(q) && q != [] && j + 1 <= |q|
    ensures SentFits(q[..j + 1]) && SentFits(q[1..][..j])
    ensures Rests(q[..j + 1]) == q[0].data[q[0].sent..] + Rests(q[1..][..j])
    ensures Unsent(q[..j + 1]) == Remaining(q[0]) + Unsent(q[1..][..j])
  {
    assert q[..j + 1][1..] == q[1..][..j];
  }

  lemma WithinOnward(f: Flow, g: Flow, d: Flow, j: nat, n: nat)
    requires SentFits(f.forward) && f.forward != [] && g.forward == f.forward[1..] && SentFits(g.forward)
    requires g.forwarded == f.forwarded + f.forward[0].data[f.forward[0].sent..]
    requires j < |g.forward| && StopsWithin(g, d, j, n)
    ensures StopsWithin(f, d, j + 1, n)
  {
    RestsFirst(f.forward, j);
    assert g.forward[j + 1..] == f.forward[j + 2..];
  }

  lemma BeforeOnward(f: Flow, g: Flow, d: Flow, room: int, j: nat)
    requires SentFits(f.forward) && f.forward != [] && g.forward == f.forward[1..] && SentFits(g.forward)
    requires g.forwarded == f.forwarded + f.forward[0].data[f.forward[0].sent..]
    requires j <= |g.forward| && StopsBefore(g, d, room - Remaining(f.forward[0]), j)
    ensures StopsBefore(f, d, room, j + 1)
  {
    hide Forwardable;
    RestsFirst(f.forward, j);
    assert g.forward[j..] == f.forward[j + 1..];
  }

  // ---------------------------------------------------------------- jammed queues

  /** The head of the queue starts behind the forwarding point and nothing of it was sent. */
  predicate Jammed(f: Flow, stream: Stream) {
    StreamOk(f, stream) && f.forward != [] && f.forward[0].sent == 0
    && Pos(f, f.forward[0].seqNo) < Point(f)
  }

  lemma JammedPoint(f: Flow, stream: Stream)
    requires Jammed(f, stream)
    ensures f.syns == 1 && f.fins == 0 && Point(f) == |f.forwarded|
    ensures forall room: int :: !Forwardable(f, room)
  {
    assert SegmentOk(f.forward[0], f.remoteSeq, Point(f), stream);
    PosUnique(f, f.remoteSeq, Point(f));
  }

  /** A segment that overlaps one forwarded before it jams the queue. */
  lemma OverlapJams(f: Flow, room: int, r: SendResult, stream: Stream)
    requires StreamOk(f, stream) && Forwardable(f, room) && |f.forward| >= 2
    requires Taken(r, f.forward[0].Len() - f.forward[0].sent) == f.forward[0].Len() - f.forward[0].sent
    requires Pos(f, f.forward[1].seqNo) < Pos(f, f.forward[0].seqNo) + f.forward[0].Len()
    ensures Jammed(SendHead(f, r), stream)
  {
    var g := SendHead(f, r);
    HeadAtPoint(f, room, stream);
    SendHeadStream(f, room, r, stream);
    assert g.forward[0] == f.forward[1];
    assert SegmentOk(f.forward[1], f.remoteSeq, Point(f), stream);
    Rebased(f, g, f.forward[1].seqNo);
  }

  lemma JamFrame(f: Flow, g: Flow, stream: Stream)
    requires Jammed(f, stream) && StreamOk(g, stream) && Grows(f, g) && SameQueue(f, g)
    ensures Jammed(g, stream) && g.remoteSeq == f.remoteSeq
  {
    JammedPoint(f, stream);
    assert SegmentOk(f.forward[0], f.remoteSeq, Point(f), stream);
    Rebased(f, g, f.forward[0].seqNo);
  }

  /** New data never gets in front of a jammed head. */
  lemma QueueJam(f: Flow, p: ClientSegment, stream: Stream)
    requires Jammed(f, stream) && p.data != [] && Agrees(f, p, stream)
    ensures Jammed(QueueTcp(f, p), stream) && QueueTcp(f, p).remoteSeq == f.remoteSeq
  {
    JammedPoint(f, stream);
    QueueTcpStream(f, p, stream);
    BehindIsDropped(f, p);
    if Pos(f, p.seqNo) >= Point(f) {
      ComparePos(f, f.forward[0].seqNo, p.seqNo);
    }
  }

  lemma StepJam(t: Tcp, s: Step, stream: Stream)
    requires Inv(t) && Enabled(t, s) && Jammed(t.flow, stream) && Balanced(t.flow)
    requires Faithful(t, s, stream)
    ensures var g := Apply(t, s).flow;
            Jammed(g, stream) && g.remoteSeq == t.flow.remoteSeq && g.accepted == t.flow.accepted
  {
    StepKept(t, s);
    StepStream(t, s, stream);
    JammedPoint(t.flow, stream);
    match s
    case FromTun(p, e) =>
      HandleTcpFramed(t, p, e);
      if Queues(t, p) {
        QueueJam(t.flow, p, stream);
        JamFrame(QueueTcp(t.flow, p), Apply(t, s).flow, stream);
      } else {
        JamFrame(t.flow, Apply(t, s).flow, stream);
      }
    case FromSocket(e) =>
      if !t.state.Listen? {
        CheckTcpSocketFramed(t, e);
      }
      JamFrame(t.flow, Apply(t, s).flow, stream);
    case Monitor(e) => MonitorKept(t, e);
    case Reap(e) => JamFrame(t.flow, Apply(t, s).flow, stream);
    case Terminate => JamFrame(t.flow, Apply(t, s).flow, stream);
  }

  /** A jammed session never forwards another byte, in any run, and never acknowledges one. */
  lemma {:induction false} JammedForever(t: Tcp, steps: seq<Step>, stream: Stream)
    requires Inv(t) && Jammed(t.flow, stream) && Balanced(t.flow)
    requires Run(t, steps) && FaithfulRun(t, steps, stream)
    ensures var g := After(t, steps).flow;
            Jammed(g, stream) && g.remoteSeq == t.flow.remoteSeq && g.accepted == t.flow.accepted
    decreases |steps|
  {
    if steps != [] {
      StepKept(t, steps[0]);
      StepJam(t, steps[0], stream);
      StepStream(t, steps[0], stream);
      JammedForever(Apply(t, steps[0]), steps[1..], stream);
    }
  }

  // ---------------------------------------------------------------- the advertised window

  /** `get_receive_window` is 0 or at least one scaled unit, never exceeds the room of the
      socket, and fits the 16-bit header field exactly when shifted. */
  lemma ReceiveWindowFits(q: seq<Segment>, room: nat, scale: nat)
    ensures var w := ReceiveWindow(q, room, scale);
            && (w == 0 || w >= Pow2(scale)) && w <= room
            && w / Pow2(scale) <= 0xFFFF
  {
    var w := ReceiveWindow(q, room, scale);
    DivBound(w, 0xFFFF, Pow2(scale));
  }

  /** No larger window would do: any other value that is at least one scaled unit and fits
      beside the queue in the room and in the header field is no larger. */
  lemma ReceiveWindowIsLargest(q: seq<Segment>, room: nat, scale: nat, w: nat)
    requires SentFits(q) && Unsent(q) < TWO32
    requires w >= Pow2(scale) && Unsent(q) + w <= room && Unsent(q) + w <= 0xFFFF * Pow2(scale)
    ensures w <= ReceiveWindow(q, room, scale)
  {
    UnsentNonNegative(q);
  }

  lemma DivBound(w: nat, n: nat, d: nat)
    requires d > 0 && w <= n * d
    ensures w / d <= n
  {
    MulCancel(w / d, n, d);
  }

  lemma DivPositive(w: nat, d: nat)
    requires 0 < d <= w
    ensures w / d > 0
  {
    MulCancel(1, w / d + 1, d);
  }

  lemma MulCancel(k: nat, n: nat, d: nat)
    requires d > 0 && k * d <= n * d
    ensures k <= n
  {
  }

  /** Queued bytes and a non-zero window fit together in the room if and only if the queue holds
      less than 2^32 bytes, so that its 32-bit byte count does not overflow. */
  lemma QueueAndWindowFit(q: seq<Segment>, room: nat, scale: nat)
    requires SentFits(q) && room < TWO32
    ensures var w := ReceiveWindow(q, room, scale);
            w > 0 ==> (Unsent(q) + w <= room <==> Unsent(q) < TWO32)
  {
    UnsentNonNegative(q);
  }

  /** The byte count of a queue without overlaps does not overflow. */
  lemma {:induction false} DisjointQueueFits(f: Flow, i: nat, stream: Stream)
    requires StreamOk(f, stream) && i < |f.forward|
    requires forall j :: 0 < j < |f.forward| ==>
               Pos(f, f.forward[j - 1].seqNo) + f.forward[j - 1].Len() <= Pos(f, f.forward[j].seqNo)
    ensures 0 <= Unsent(f.forward[i..])
            <= Pos(f, f.forward[|f.forward| - 1].seqNo) + MAX_SEGMENT - Pos(f, f.forward[i].seqNo)
    ensures Unsent(f.forward[i..]) < TWO32
    decreases |f.forward| - i
  {
    var q := f.forward;
    assert q[i..][1..] == q[i + 1..];
    assert SegmentOk(q[i], f.remoteSeq, Point(f), stream);
    if i + 1 < |q| {
      DisjointQueueFits(f, i + 1, stream);
      assert 0 < i + 1 < |q|;
    }
  }

  /** The stored window is 0 or at least one unit of the scale, and fits the header field. */
  predicate WindowOk(t: Tcp) {
    && (t.recvWindow == 0 || t.recvWindow >= Pow2(t.recvScale))
    && t.recvWindow / Pow2(t.recvScale) <= 0xFFFF
  }

  /** A packet states the stored window without loss, and states 0 only for a window of 0. */
  lemma HeaderWindowExact(t: Tcp)
    requires WindowOk(t)
    ensures HeaderWindow(t) == t.recvWindow / Pow2(t.recvScale)
    ensures HeaderWindow(t) == 0 <==> t.recvWindow == 0
  {
    if t.recvWindow > 0 {
      DivPositive(t.recvWindow, Pow2(t.recvScale));
    }
  }

  lemma AcknowledgeWindow(t: Tcp, fwd: bool, e: SocketEvent)
    requires e.sendbuf < TWO32
    ensures WindowOk(Acknowledge(t, fwd, e)) && Acknowledge(t, fwd, e).recvScale == t.recvScale
  {
    ReceiveWindowFits(t.flow.forward, ReceiveBuffer(t.socketOpen, e.sendbuf, e.unsentAfter), t.recvScale);
  }

  predicate SameWindow(t: Tcp, u: Tcp) {
    u.recvWindow == t.recvWindow && u.recvScale == t.recvScale
  }

  /** Every step of a direct session keeps the stored window within the header field. */
  lemma StepWindow(t: Tcp, s: Step)
    requires Inv(t) && Enabled(t, s) && WindowOk(t)
    ensures WindowOk(Apply(t, s))
  {
    hide PacketFor, WindowOk;
    match s
    case FromTun(p, e) => HandleTcpFramed(t, p, e); WindowFrame(t, Apply(t, s));
    case FromSocket(e) =>
      if e.err || t.state.Listen? {
        WindowFrame(t, Apply(t, s));
      } else {
        var room := ReceiveBuffer(t.socketOpen, e.sendbuf, e.unsent);
        var d := if e.epollout then t.(flow := Drain(t.flow, room, e.sends)) else t;
        var fwd := e.epollout && Forwardable(t.flow, room);
        AcknowledgeWindow(d, fwd, e);
        ReadSocketFramed(Acknowledge(d, fwd, e), e);
        WindowFrame(Acknowledge(d, fwd, e), Apply(t, s));
      }
    case Monitor(e) => WindowFrame(t, Apply(t, s));
    case Reap(e) => WindowFrame(t, Apply(t, s));
    case Terminate => WindowFrame(t, Apply(t, s));
  }

  lemma WindowFrame(t: Tcp, u: Tcp)
    requires WindowOk(t) && SameWindow(t, u)
    ensures WindowOk(u)
  {
  }

  lemma {:induction false} RunWindow(t: Tcp, steps: seq<Step>)
    requires Inv(t) && WindowOk(t) && Run(t, steps)
    ensures WindowOk(After(t, steps))
    decreases |steps|
  {
    hide WindowOk, Apply, Enabled;
    if steps != [] {
      StepKept(t, steps[0]);
      StepWindow(t, steps[0]);
      RunWindow(Apply(t, steps[0]), steps[1..]);
    }
  }

  /** After every run of a direct session the stored window is 0 or at least one unit of the
      scale, and a packet states it without loss. */
  lemma WindowAlwaysFits(isn: u32, localIsn: u32, mss: nat, scale: nat, window: u16, room: nat, now: int,
                         steps: seq<Step>)
    requires scale <= MAX_SCALE && room < TWO32
    requires Run(NewDirect(isn, localIsn, mss, scale, window, room, now), steps)
    ensures var u := After(NewDirect(isn, localIsn, mss, scale, window, room, now), steps);
            && (u.recvWindow == 0 || u.recvWindow >= Pow2(u.recvScale))
            && HeaderWindow(u) == u.recvWindow / Pow2(u.recvScale)
            && (HeaderWindow(u) == 0 <==> u.recvWindow == 0)
  {
    var t := NewDirect(isn, localIsn, mss, scale, window, room, now);
    ReceiveWindowFits([], room, scale);
    RunWindow(t, steps);
    HeaderWindowExact(After(t, steps));
  }
}
