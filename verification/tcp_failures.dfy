/** Runs of fresh sessions in which a promise is broken: the inputs to the conditions under which
    it holds. */
module TcpFailures {
  import opened Serial
  import opened TcpTypes
  import opened Powers
  import opened TcpSpec
  import opened TcpInvariant
  import opened TcpStream
  import TcpLifecycle
  import TcpSendSide

  // ---------------------------------------------------------------- putting runs together

  lemma Cons(t: Tcp, s: Step, rest: seq<Step>, stream: Stream)
    requires Inv(t) && Enabled(t, s) && Faithful(t, s, stream)
    requires Inv(Apply(t, s)) && Run(Apply(t, s), rest) && FaithfulRun(Apply(t, s), rest, stream)
    ensures Run(t, [s] + rest) && FaithfulRun(t, [s] + rest, stream)
    ensures After(t, [s] + rest) == After(Apply(t, s), rest)
  {
    hide Inv, Apply, Enabled, Faithful;
    StepKept(t, s);
    assert ([s] + rest)[1..] == rest;
  }

  /** The socket is writable; nothing is queued. */
  const CONNECTED := SocketEvent(false, false, true, 0, 0, 0, 0, [], true, Received([]), true)

  const WRITTEN := PacketEvent(0, true, false, Accepted(0))

  function Segment0(seqNo: u32, ackNo: u32, data: seq<byte>): ClientSegment {
    ClientSegment(seqNo, ackNo, false, true, false, false, false, false, 1000, data)
  }

  function Fresh(localIsn: u32, scale: nat): (t: Tcp)
    requires scale <= MAX_SCALE
    ensures Inv(t)
  {
    NewDirect(0, localIsn, 1460, scale, 1000, 65536, 0)
  }

  const OPENING := FromSocket(CONNECTED)

  function Reply(localIsn: u32): Step {
    FromTun(Segment0(1, Wrap(localIsn + 1), []), WRITTEN)
  }

  /** A fresh session established by the handshake. */
  predicate Opened(u: Tcp, localIsn: u32, scale: nat) {
    && Inv(u) && u.state.Established? && u.socketOpen && !u.log.freed
    && u.flow == Flow(0, 1, [], 1, 0, [], [], 0)
    && u.back.localSeq == u.back.acked == Wrap(localIsn + 1)
    && u.back.received == 0 && u.back.sendWindow == 1000 * Pow2(scale)
    && u.mss == 1460 && u.recvScale == scale
  }

  lemma Opens(localIsn: u32, scale: nat) returns (u: Tcp)
    requires scale <= MAX_SCALE
    ensures var t := Fresh(localIsn, scale);
            && Enabled(t, OPENING) && Inv(Apply(t, OPENING)) && Enabled(Apply(t, OPENING), Reply(localIsn))
            && u == Apply(Apply(t, OPENING), Reply(localIsn))
    ensures Opened(u, localIsn, scale)
  {
    hide HandleTcp, CheckTcpSocket;
    var t := Fresh(localIsn, scale);
    TcpLifecycle.HandshakeEstablishes(0, localIsn, 1460, scale, 1000, 65536, 0, CONNECTED,
                                      Segment0(1, Wrap(localIsn + 1), []), WRITTEN);
    StepKept(t, OPENING);
    StepKept(Apply(t, OPENING), Reply(localIsn));
    u := Apply(Apply(t, OPENING), Reply(localIsn));
  }

  /** A run of the established session is the rest of a run of the fresh one. */
  lemma Continue(localIsn: u32, scale: nat, u: Tcp, rest: seq<Step>, stream: Stream) returns (run: seq<Step>)
    requires scale <= MAX_SCALE
    requires var t := Fresh(localIsn, scale);
             && Enabled(t, OPENING) && Inv(Apply(t, OPENING)) && Enabled(Apply(t, OPENING), Reply(localIsn))
             && u == Apply(Apply(t, OPENING), Reply(localIsn)) && Inv(u)
    requires Run(u, rest) && FaithfulRun(u, rest, stream)
    ensures run == [OPENING] + ([Reply(localIsn)] + rest)
    ensures Run(Fresh(localIsn, scale), run) && FaithfulRun(Fresh(localIsn, scale), run, stream)
    ensures After(Fresh(localIsn, scale), run) == After(u, rest)
  {
    hide Apply, Enabled, Inv, Run, After, FaithfulRun;
    var t := Fresh(localIsn, scale);
    run := [OPENING] + ([Reply(localIsn)] + rest);
    Cons(Apply(t, OPENING), Reply(localIsn), rest, stream);
    Cons(t, OPENING, [Reply(localIsn)] + rest, stream);
  }

  // ---------------------------------------------------------------- `acked` moves backwards

  const BACKWARD_ISN := 0x7FFF_FFFE

  const ONE_BYTE := SocketEvent(false, true, false, 0, 0, 0, 0, [], true, Received([7]), true)

  /** One byte read from the socket moves `local_seq` to 0x80000000. */
  lemma OneByteRead(u: Tcp)
    requires Opened(u, BACKWARD_ISN, 0)
    ensures var v := CheckTcpSocket(u, ONE_BYTE);
            && v.state.Established? && !v.log.freed && v.back.localSeq == 0x8000_0000
            && v.back.acked == 0x7FFF_FFFF
  {
    hide HeaderWindow, NewWindow;
    assert Pow2(0) == 1;
    assert SendWindow(u.back) == 1000;
    var a := ForwardAndAcknowledge(u, ONE_BYTE);
    assert a.back == u.back && a.mss == u.mss && a.state == u.state && a.log.freed == u.log.freed;
    assert CheckTcpSocket(u, ONE_BYTE) == ReadSocket(a, ONE_BYTE);
    assert ReadChunk(a.back, a.mss, [7]) == [7];
  }

  /** The acknowledgement 0 then passes for a newer one. */
  lemma ZeroAcknowledged(v: Tcp, p: ClientSegment)
    requires Inv(v) && v.state.Established? && v.back.localSeq == 0x8000_0000 && v.back.acked == 0x7FFF_FFFF
    requires p == Segment0(1, 0, [])
    ensures var w := HandleTcp(v, p, WRITTEN);
            w.state.Established? && w.back.acked == 0 && !TcpSendSide.AckAdvances(v.back, w.back)
  {
    hide HeaderWindow, Pow2;
    assert CompareU32(0, 0x8000_0000) < 0 && CompareU32(0, 0x7FFF_FFFF) > 0;
  }

  /** A fresh session gets to the numbers of `Backward`: after the handshake and one byte read,
      the acknowledgement 0 takes `acked` from 0x7FFFFFFF back to 0. */
  lemma BackwardHappens(stream: Stream) returns (before: seq<Step>, last: Step)
    ensures var t := Fresh(BACKWARD_ISN, 0);
            && Run(t, before) && Run(t, before + [last])
            && var v, w := After(t, before), After(t, before + [last]);
            && TcpSendSide.Connected(v.state) && TcpSendSide.Connected(w.state)
            && v.back.acked == 0x7FFF_FFFF && w.back.acked == 0
            && !TcpSendSide.AckAdvances(v.back, w.back)
  {
    hide CheckTcpSocket, HandleTcp, Run, After, FaithfulRun;
    var p := Segment0(1, 0, []);
    var u := Opens(BACKWARD_ISN, 0);
    OneByteRead(u);
    var s := FromSocket(ONE_BYTE);
    last := FromTun(p, WRITTEN);
    StepKept(u, s);
    var v := Apply(u, s);
    ZeroAcknowledged(v, p);
    StepKept(v, last);
    Single(v, last, stream);
    Cons(u, s, [], stream);
    Cons(u, s, [last], stream);
    before := Continue(BACKWARD_ISN, 0, u, [s] + [], stream);
    var run := Continue(BACKWARD_ISN, 0, u, [s] + [last], stream);
    assert run == before + [last];
  }

  lemma Single(t: Tcp, s: Step, stream: Stream)
    requires Inv(t) && Enabled(t, s) && Faithful(t, s, stream)
    requires Inv(Apply(t, s))
    ensures Run(t, []) && FaithfulRun(t, [], stream) && After(t, []) == t
    ensures Run(t, [s]) && FaithfulRun(t, [s], stream) && After(t, [s]) == Apply(t, s)
  {
    hide Inv, Apply, Enabled, Faithful;
    assert [s][1..] == [];
    Cons(t, s, [], stream);
    assert [s] + [] == [s];
  }

  // ---------------------------------------------------------------- the queue outgrows its count

  /** Segments of 9960 bytes, each starting one byte after the one before; so many that they
      hold more than 2^32 bytes. */
  const CHUNK := 9960
  const PILE := 431222

  function Zeros(n: nat): (b: seq<byte>)
    ensures |b| == n && forall i :: 0 <= i < n ==> b[i] == 0
  {
    seq(n, _ => 0)
  }

  function Zero(): Stream {
    _ => 0
  }

  function Piled(k: nat): (q: seq<Segment>)
    requires k <= PILE
    ensures |q| == k && forall i :: 0 <= i < k ==> q[i] == Segment(i + 1, 0, false, Zeros(CHUNK))
  {
    seq(k, i requires 0 <= i < k => Segment(i + 1, 0, false, Zeros(CHUNK)))
  }

  function Overlapping(k: nat): Step
    requires k < PILE
  {
    FromTun(Segment0(k + 1, 1, Zeros(CHUNK)), WRITTEN)
  }

  /** The overlapping segments from the k-th on. */
  function OverlappingFrom(k: nat): seq<Step>
    requires k <= PILE
    decreases PILE - k
  {
    if k == PILE then [] else [Overlapping(k)] + OverlappingFrom(k + 1)
  }

  /** An established session with the first k of them queued. */
  predicate AtPile(t: Tcp, k: nat) {
    && k <= PILE && Inv(t) && t.state.Established? && t.socketOpen && !t.log.freed
    && t.flow == Flow(0, 1, Piled(k), 1, 0, [], [], 0) && t.back.localSeq == 1 && t.recvScale == 1
  }

  lemma InsertAtEnd(q: seq<Segment>, n: Segment)
    requires forall i :: 0 <= i < |q| ==> CompareU32(q[i].seqNo, n.seqNo) < 0
    ensures Insert(q, n) == q + [n]
  {
    var k := InsertShape(q, n);
  }

  lemma OneMore(t: Tcp, k: nat)
    requires AtPile(t, k) && k < PILE
    ensures AtPile(Apply(t, Overlapping(k)), k + 1)
    ensures Faithful(t, Overlapping(k), Zero())
  {
    hide Pow2, PacketFor, Insert, Inv;
    var p := Overlapping(k).p;
    var n := Segment(p.seqNo, 0, false, p.data);
    InsertAtEnd(Piled(k), n);
    assert Piled(k) + [n] == Piled(k + 1);
    StepKept(t, Overlapping(k));
  }

  lemma {:induction false} PileUp(t: Tcp, k: nat)
    requires AtPile(t, k)
    ensures Run(t, OverlappingFrom(k)) && FaithfulRun(t, OverlappingFrom(k), Zero())
    ensures AtPile(After(t, OverlappingFrom(k)), PILE)
    decreases PILE - k
  {
    hide Apply, Piled, Faithful;
    if k < PILE {
      OneMore(t, k);
      PileUp(Apply(t, Overlapping(k)), k + 1);
      Cons(t, Overlapping(k), OverlappingFrom(k + 1), Zero());
    }
  }

  lemma {:induction false} UnsentUniform(q: seq<Segment>)
    requires forall i :: 0 <= i < |q| ==> q[i].Len() - q[i].sent == CHUNK
    ensures Unsent(q) == CHUNK * |q|
  {
    if q != [] {
      UnsentUniform(q[1..]);
    }
  }

  /** A fresh session gets to a queue of more than 2^32 bytes, all of one stream, beside which it
      advertises a window that does not fit the room. */
  lemma OverfullQueueHappens(room: nat) returns (run: seq<Step>)
    requires 10_000 <= room < TWO32
    ensures Run(Fresh(0, 1), run) && FaithfulRun(Fresh(0, 1), run, Zero())
    ensures var t := After(Fresh(0, 1), run);
            var w := ReceiveWindow(t.flow.forward, room, t.recvScale);
            t.state.Established? && w > 0 && Unsent(t.flow.forward) + w > room
  {
    hide Run, After, FaithfulRun, Inv;
    var u := Opens(0, 1);
    PileUp(u, 0);
    run := Continue(0, 1, u, OverlappingFrom(0), Zero());
    UnsentUniform(Piled(PILE));
    assert Pow2(1) == 2;
  }
}
