/** The transition functions of a TCP session (tcp.c), one for each function of the source.
    The methods of `TcpSession` are proved to compute them; the lemmas about whole runs
    are about them. */
module TcpSpec {
  import opened Serial
  import opened TcpTypes
  import opened Powers

  // ---------------------------------------------------------------- windows and timeouts

  /** `get_send_window`. */
  function SendWindow(b: Back): u32 {
    var behind := if CompareU32(b.acked, b.localSeq) <= 0 then Wrap(b.localSeq - b.acked) else b.acked;
    if behind < b.sendWindow then b.sendWindow - behind else 0
  }

  /** `get_receive_buffer`; a reported size of 0 stands for the safe default. */
  function ReceiveBuffer(socketOpen: bool, sendbuf: nat, unsent: nat): nat {
    var size := (if sendbuf == 0 then 16384 else sendbuf) / 2;
    if socketOpen && unsent < size then size - unsent else 0
  }

  /** The bytes queued and not yet sent. */
  function Unsent(q: seq<Segment>): int {
    if q == [] then 0 else q[0].Len() - q[0].sent + Unsent(q[1..])
  }

  /** `get_receive_window` for the given room; the byte count is a `uint32_t`. */
  function ReceiveWindow(q: seq<Segment>, room: nat, scale: nat): nat {
    var max := 0xFFFF * Pow2(scale);
    var window := if room > max then max else room;
    var toForward := Wrap(Unsent(q));
    var rest := if toForward < window then window - toForward else 0;
    if rest < Pow2(scale) then 0 else rest
  }

  /** Integer division of C, which truncates toward zero. */
  function CDiv(a: int, b: int): int
    requires b > 0
  {
    if a >= 0 then a / b else -((-a) / b)
  }

  /** The part of a base timeout left when `sessions` of `maxSessions` are in use. */
  function Scaled(base: nat, sessions: nat, maxSessions: nat): int
    requires maxSessions > 0
  {
    CDiv(base * (100 - sessions * 100 / maxSessions), 100)
  }

  /** The seconds of silence that a state allows. */
  function TcpBaseTimeout(state: State): nat {
    if state.Listen? || state.SynRecv? then TCP_INIT_TIMEOUT
    else if state.Established? then TCP_IDLE_TIMEOUT
    else TCP_CLOSE_TIMEOUT
  }

  /** `get_tcp_timeout`. */
  function TcpTimeout(state: State, sessions: nat, maxSessions: nat): int
    requires maxSessions > 0
  {
    Scaled(TcpBaseTimeout(state), sessions, maxSessions)
  }

  // ---------------------------------------------------------------- writing to tun

  /** The window field: the scaled window, cut to 16 bits by the assignment. */
  function WindowField(window: u32, scale: nat): u16 {
    (window / Pow2(scale)) % 0x1_0000
  }

  function HeaderWindow(t: Tcp): u16 {
    WindowField(t.recvWindow, t.recvScale)
  }

  /** The header fields that `write_tcp` fills in. */
  function PacketFor(t: Tcp, syn: bool, ack: bool, fin: bool, rst: bool, data: seq<byte>): Packet {
    Packet(t.back.localSeq, if ack then t.flow.remoteSeq else 0, syn, ack, fin, rst, HeaderWindow(t), data)
  }

  function Stamped(pkt: Packet, f: Flow, written: bool): Emission {
    Emission(pkt, written, f.syns, |f.forwarded|, f.fins, |f.accepted|)
  }

  function WriteTcp(t: Tcp, syn: bool, ack: bool, fin: bool, rst: bool, data: seq<byte>, written: bool): Tcp {
    var e := Stamped(PacketFor(t, syn, ack, fin, rst, data), t.flow, written);
    t.(log := t.log.(emitted := t.log.emitted + [e]))
  }

  /** `write_syn_ack`, `write_ack`, `write_data` and `write_fin_ack`: ACK set, CLOSING on failure. */
  function WriteAcking(t: Tcp, syn: bool, fin: bool, data: seq<byte>, written: bool): Tcp {
    var w := WriteTcp(t, syn, true, fin, false, data, written);
    if written then w else w.(state := Closing)
  }

  /** `write_rst`; in LISTEN it counts the remote SYN and acknowledges it. */
  function WriteRst(t: Tcp): Tcp {
    var c := if t.state.Listen? then t.(flow := CountSyn(t.flow)) else t;
    var w := WriteTcp(c, false, t.state.Listen?, false, true, [], false);
    if w.state.Close? then w else w.(state := Closing)
  }

  function CountSyn(f: Flow): Flow {
    f.(remoteSeq := Wrap(f.remoteSeq + 1), syns := f.syns + 1)
  }

  function CountFin(f: Flow): Flow {
    f.(remoteSeq := Wrap(f.remoteSeq + 1), fins := f.fins + 1)
  }

  function Sent(b: Back, n: nat): Back {
    b.(localSeq := Wrap(b.localSeq + n))
  }

  // ---------------------------------------------------------------- the forward queue

  /** Where `queue_tcp` puts a segment: before the first with a larger number; over one with
      the same number when it is longer. */
  function Insert(q: seq<Segment>, n: Segment): seq<Segment> {
    if q == [] then [n]
    else if CompareU32(q[0].seqNo, n.seqNo) < 0 then [q[0]] + Insert(q[1..], n)
    else if CompareU32(q[0].seqNo, n.seqNo) > 0 then [n] + q
    else if q[0].Len() < n.Len() then [q[0].(data := n.data)] + q[1..]
    else q
  }

  /** `queue_tcp`. */
  function QueueTcp(f: Flow, p: ClientSegment): Flow {
    if CompareU32(p.seqNo, f.remoteSeq) < 0 then f
    else f.(forward := Insert(f.forward, Segment(p.seqNo, 0, p.psh, p.data)))
  }

  /** The head of the queue can be sent now, with `room` left in the socket. */
  predicate Forwardable(f: Flow, room: int) {
    && f.forward != []
    && Wrap(f.forward[0].seqNo + f.forward[0].sent) == f.remoteSeq
    && f.forward[0].Len() - f.forward[0].sent < room
  }

  /** The bytes counted as sent for one `send` of `len` bytes. The test that clips the result
      compares as unsigned, so a result of -1 is clipped to `len` as well. */
  function Taken(r: SendResult, len: nat): (n: nat)
    ensures n <= len
  {
    match r
    case SendError => len
    case Accepted(n) => if n > len then len else n
  }

  /** One iteration of the forward loop with the result of its `send`. */
  function SendHead(f: Flow, r: SendResult): Flow
    requires f.forward != [] && f.forward[0].sent <= f.forward[0].Len()
  {
    var g := f.forward[0];
    var n := Taken(r, g.Len() - g.sent);
    var chunk := g.data[g.sent..g.sent + n];
    var g' := g.(sent := g.sent + n);
    f.(remoteSeq := Wrap(g'.seqNo + g'.sent),
       forward := (if g'.sent == g'.Len() then [] else [g']) + f.forward[1..],
       forwarded := f.forwarded + chunk,
       accepted := if r.SendError? then f.accepted else f.accepted + chunk,
       lost := if r.SendError? then f.lost + n else f.lost)
  }

  /** The next `send` of an event; past the listed results a call takes nothing. */
  function SendAt(sends: seq<SendResult>): SendResult {
    if sends == [] then Accepted(0) else sends[0]
  }

  function Rest(sends: seq<SendResult>): seq<SendResult> {
    if sends == [] then [] else sends[1..]
  }

  /** `sent` never exceeds the length of its segment. */
  predicate SentFits(q: seq<Segment>) {
    forall i :: 0 <= i < |q| ==> q[i].sent <= q[i].Len()
  }

  /** The forward loop: it goes on while heads are sent completely. */
  function Drain(f: Flow, room: int, sends: seq<SendResult>): (d: Flow)
    requires SentFits(f.forward)
    ensures SentFits(d.forward)
    decreases |f.forward|
  {
    if !Forwardable(f, room) then f
    else
      var g := SendHead(f, SendAt(sends));
      if |g.forward| < |f.forward| then
        Drain(g, room - (f.forward[0].Len() - f.forward[0].sent), Rest(sends))
      else g
  }

  // ---------------------------------------------------------------- socket events

  /** The reply of `check_tcp_socket` to a writable, connected socket in LISTEN. */
  function AcceptConnection(t: Tcp, e: SocketEvent): Tcp {
    var w := WriteAcking(t.(flow := CountSyn(t.flow)), true, false, [], e.replyWritten);
    if e.replyWritten then w.(time := e.now, back := Sent(w.back, 1), state := SynRecv) else w
  }

  /** The reply of a proxy, or unexpected data, in LISTEN. */
  function ReadProxyReply(t: Tcp, e: SocketEvent): Tcp {
    if e.recv.Received? && t.connect.ConnectSent? then
      t.(connect := ConnectEstablished, state := Established)
    else WriteRst(t)
  }

  lemma WindowFits(q: seq<Segment>, room: nat, scale: nat)
    ensures ReceiveWindow(q, room, scale) <= room
  {
  }

  /** The receive window after an event. */
  function NewWindow(t: Tcp, e: SocketEvent): u32
    requires e.sendbuf < TWO32
  {
    var room := ReceiveBuffer(t.socketOpen, e.sendbuf, e.unsentAfter);
    WindowFits(t.flow.forward, room, t.recvScale);
    ReceiveWindow(t.flow.forward, room, t.recvScale)
  }

  /** Recomputes the receive window and acknowledges what was forwarded; the FIN is counted
      when the queue has just run empty in CLOSE_WAIT. */
  function Acknowledge(t: Tcp, fwd: bool, e: SocketEvent): Tcp
    requires e.sendbuf < TWO32
  {
    var window := NewWindow(t, e);
    if fwd || (t.recvWindow == 0 && window > 0) then
      var flow := if fwd && t.flow.forward == [] && t.state.CloseWait? then CountFin(t.flow) else t.flow;
      var w := WriteAcking(t.(recvWindow := window, flow := flow), false, false, [], e.ackWritten);
      if e.ackWritten then w.(time := e.now) else w
    else t.(recvWindow := window)
  }

  /** The part of the data offered by the socket that one `recv` takes. */
  function ReadChunk(b: Back, mss: nat, data: seq<byte>): seq<byte> {
    var size := if SendWindow(b) > mss then mss else SendWindow(b);
    if |data| <= size then data else data[..size]
  }

  /** End of file on the socket: FIN when all client data was forwarded, else RST. */
  function SocketEof(t: Tcp, written: bool): Tcp {
    var r := if t.flow.forward == [] then
               var w := WriteAcking(t, false, true, [], written);
               var l := if written then w.(back := Sent(w.back, 1)) else w;
               if l.state.Established? then l.(state := FinWait1)
               else if l.state.CloseWait? then l.(state := LastAck)
               else l
             else WriteRst(t);
    r.(socketOpen := false, log := r.log.(closes := r.log.closes + 1))
  }

  /** Data read from the socket goes to the client in one packet. */
  function SocketData(t: Tcp, chunk: seq<byte>, written: bool): Tcp {
    var b := t.back.(received := t.back.received + |chunk|, read := t.back.read + chunk);
    var w := WriteAcking(t.(back := b), false, false, chunk, written);
    if written then w.(back := Sent(b, |chunk|)) else w
  }

  /** The read path of `check_tcp_socket`. */
  function ReadSocket(t: Tcp, e: SocketEvent): Tcp {
    if !e.epollin || SendWindow(t.back) == 0 then t
    else
      var u := t.(time := e.now);
      match e.recv
      case RecvError(transient) => if transient then u else WriteRst(u)
      case Received(data) =>
        var chunk := ReadChunk(t.back, t.mss, data);
        if chunk == [] then SocketEof(u, e.replyWritten) else SocketData(u, chunk, e.replyWritten)
  }

  /** `check_tcp_socket` up to the read path, outside LISTEN. */
  function ForwardAndAcknowledge(t: Tcp, e: SocketEvent): Tcp
    requires SentFits(t.flow.forward) && e.sendbuf < TWO32
  {
    if e.epollout then
      var room := ReceiveBuffer(t.socketOpen, e.sendbuf, e.unsent);
      Acknowledge(t.(flow := Drain(t.flow, room, e.sends)), Forwardable(t.flow, room), e)
    else Acknowledge(t, false, e)
  }

  /** `check_tcp_socket`. */
  function CheckTcpSocket(t: Tcp, e: SocketEvent): Tcp
    requires SentFits(t.flow.forward) && e.sendbuf < TWO32
  {
    if e.err then WriteRst(t.(time := e.now))
    else if t.state.Listen? then
      if e.epollin then ReadProxyReply(t, e) else AcceptConnection(t, e)
    else
      var a := ForwardAndAcknowledge(t, e);
      if a.state.Established? || a.state.CloseWait? then ReadSocket(a, e) else a
  }

  // ---------------------------------------------------------------- packets from tun

  /** Sends CONNECT on a tunnelled session when a host name is known. */
  function RequestTunnel(t: Tcp, e: PacketEvent): Tcp {
    if t.connect.ConnectNotSent? && e.hasHost then
      if e.connect.SendError? then WriteRst(t)
      else t.(connect := ConnectSent, state := Listen,
              log := t.log.(connects := t.log.connects + 1))
    else t
  }

  /** A FIN that acknowledges all local data, or no FIN's acknowledgement at all. */
  function HandleFin(t: Tcp, written: bool): Tcp {
    match t.state
    case Established =>
      if t.flow.forward == [] then
        var w := WriteAcking(t.(flow := CountFin(t.flow)), false, false, [], written);
        if written then w.(state := CloseWait) else w
      else t.(state := CloseWait)
    case FinWait1 =>
      var w := WriteAcking(t.(flow := CountFin(t.flow)), false, false, [], written);
      if written then w.(state := Close, log := w.log.(closedAt := t.time)) else w
    case _ => t
  }

  /** An acknowledgement of all local data. */
  function HandleAck(t: Tcp, ackNo: u32): Tcp {
    var a := t.(back := t.back.(acked := ackNo));
    match t.state
    case SynRecv => a.(state := Established)
    case LastAck => a.(state := Closing)
    case _ => a
  }

  /** An acknowledgement number other than `local_seq`. */
  function HandleOtherAck(t: Tcp, ackNo: u32): Tcp {
    if Wrap(ackNo + 1) == t.back.localSeq then t
    else if CompareU32(ackNo, t.back.localSeq) < 0 then
      if CompareU32(ackNo, t.back.acked) <= 0 then t else t.(back := t.back.(acked := ackNo))
    else WriteRst(t)
  }

  /** The flags of a segment whose data was queued. */
  function HandleFlags(t: Tcp, p: ClientSegment, written: bool): Tcp {
    if p.rst then t.(state := Closing)
    else if !p.ack || p.ackNo == t.back.localSeq then
      if p.syn then t
      else if p.fin then HandleFin(t, written)
      else if p.ack then HandleAck(t, p.ackNo)
      else t
    else HandleOtherAck(t, p.ackNo)
  }

  /** Every segment for a live session refreshes the clock and the advertised window. */
  function Noted(t: Tcp, p: ClientSegment, e: PacketEvent): Tcp
    requires t.sendScale <= MAX_SCALE
  {
    ScaledWindow(p.window, t.sendScale);
    var window := p.window * Pow2(t.sendScale);
    var max := if window > t.back.maxWindow then window else t.back.maxWindow;
    t.(time := e.now, back := t.back.(sendWindow := window, maxWindow := max))
  }

  /** A segment for a session that is not closing. */
  function HandleSegment(t: Tcp, p: ClientSegment, e: PacketEvent): Tcp
    requires t.sendScale <= MAX_SCALE
  {
    var u := Noted(t, p, e);
    if p.data != [] && (!u.socketOpen || u.state.CloseWait?) then WriteRst(u)
    else HandleFlags(if p.data != [] then u.(flow := QueueTcp(u.flow, p)) else u, p, e.written)
  }

  /** The largest window a client can advertise with scale 14 is below 2^30. */
  lemma ScaledWindow(w: u16, scale: nat)
    requires scale <= MAX_SCALE
    ensures 0 <= w * Pow2(scale) <= 0xFFFF * 0x4000
  {
    Pow2Bound(scale);
    MulBound(w, 0xFFFF, Pow2(scale), 0x4000);
  }

  lemma MulBound(x: nat, y: nat, a: nat, b: nat)
    requires x <= y && a <= b
    ensures 0 <= x * a <= y * b
  {
    assert x * a <= y * a <= y * b;
  }

  lemma Pow2Bound(scale: nat)
    requires scale <= MAX_SCALE
    ensures 1 <= Pow2(scale) <= 0x4000
  {
    Pow2Monotone(scale, MAX_SCALE);
    SmallPowers();
  }

  /** `handle_tcp` for a packet that belongs to the session. */
  function HandleTcp(t: Tcp, p: ClientSegment, e: PacketEvent): Tcp
    requires t.sendScale <= MAX_SCALE
  {
    if p.urg then t
    else
      var c := if t.tunnelled then RequestTunnel(t, e) else t;
      if c.tunnelled && !c.connect.ConnectEstablished? then c.(flow := QueueTcp(c.flow, p))
      else if c.state.Closing? || c.state.Close? then WriteRst(c)
      else HandleSegment(c, p, e)
  }

  /** The session that `handle_tcp` registers for a SYN without data, once its socket is open. */
  function NewSession(tunnelled: bool, isn: u32, localIsn: u32, mss: nat, scale: nat, window: u16,
                      room: nat, now: int): Tcp
    requires scale <= MAX_SCALE && room < TWO32
  {
    ScaledWindow(window, scale);
    WindowFits([], room, scale);
    var w := window * Pow2(scale);
    Tcp(tunnelled, mss, scale, scale, Listen, ConnectNotSent, true, Mask(false, true),
        ReceiveWindow([], room, scale), now, 0,
        Flow(isn, isn, [], 0, 0, [], [], 0), Back(localIsn, localIsn, 0, w, 0, w, []),
        Log(0, 0, 0, false, []))
  }

  // ---------------------------------------------------------------- monitoring and reaping

  /** The event mask that `monitor_tcp_session` computes. */
  function MaskFor(t: Tcp, sendbuf: nat, unsent: nat): Mask {
    if t.state.Listen? then
      var reply := t.connect.ConnectSent? && t.tunnelled;
      Mask(reply, !reply)
    else if t.state.Established? || t.state.CloseWait? then
      Mask(SendWindow(t.back) > 0, Forwardable(t.flow, ReceiveBuffer(t.socketOpen, sendbuf, unsent)))
    else Mask(false, false)
  }

  /** The keep-alive: an ACK with the sequence number before the one expected. */
  function KeepAlive(t: Tcp, e: MonitorEvent): Tcp {
    var f := t.flow.(remoteSeq := Wrap(t.flow.remoteSeq - 1));
    var w := WriteAcking(t.(flow := f, lastKeepAlive := e.ms), false, false, [], e.written);
    w.(flow := f.(remoteSeq := Wrap(f.remoteSeq + 1)))
  }

  /** `monitor_tcp_session`. The mask is that of the state on entry. */
  function MonitorTcp(t: Tcp, e: MonitorEvent): Tcp {
    var mask := MaskFor(t, e.sendbuf, e.unsent);
    var k := if (t.state.Established? || t.state.CloseWait?) && SendWindow(t.back) == 0
                && e.ms - t.lastKeepAlive > EPOLL_MIN_CHECK
             then KeepAlive(t, e) else t;
    if mask != t.mask then
      var m := k.(mask := mask);
      if e.ctlFails then m.(state := Closing) else m
    else k
  }

  /** `monitor_tcp_session` asks for an early poll: no send window, or a head not ready. */
  function Recheck(t: Tcp, e: MonitorEvent): bool {
    && (t.state.Established? || t.state.CloseWait?)
    && (|| SendWindow(t.back) == 0
        || (t.flow.forward != [] && !MaskFor(t, e.sendbuf, e.unsent).epollout))
  }

  /** `check_tcp_session`; the flag asks the caller to free the session. */
  function CheckTcpSession(t: Tcp, e: ReapEvent): (Tcp, bool)
    requires e.maxSessions > 0
  {
    var live := !t.state.Closing? && !t.state.Close?;
    var x := if live && t.time + TcpTimeout(t.state, e.sessions, e.maxSessions) < e.now then
               if t.state.Listen? then t.(state := Closing) else WriteRst(t)
             else t;
    var c := if x.state.Closing? then CloseSession(x, e.closeTime) else x;
    var z := if c.state.Close? then c.(back := c.back.(received := 0)) else c;
    (z, z.state.Close? && z.time + TCP_KEEP_TIMEOUT < e.now)
  }

  /** CLOSING to CLOSE, closing the socket if it is still open. */
  function CloseSession(t: Tcp, now: int): Tcp {
    var l := t.log.(closedAt := now, closes := t.log.closes + if t.socketOpen then 1 else 0);
    t.(state := Close, socketOpen := false, time := now, log := l)
  }

  /** `check_allowed` on one TCP session. */
  function TerminateTcp(t: Tcp): Tcp {
    if t.state.Closing? || t.state.Close? then t else WriteRst(t)
  }

  // ---------------------------------------------------------------- runs

  /** The step can happen: the session was not freed, and an event comes from an open socket.
      The remaining conditions are the value ranges of the system calls. */
  predicate Enabled(t: Tcp, s: Step) {
    && !t.log.freed
    && match s
       case FromTun(_, _) => true
       case FromSocket(e) => t.socketOpen && e.sendbuf < TWO32
       case Monitor(e) => t.socketOpen
       case Reap(e) => e.maxSessions > 0 && e.now <= e.closeTime
       case Terminate => true
  }

  /** What the transition functions ask of a session. */
  predicate Sound(t: Tcp) {
    t.recvScale <= MAX_SCALE && t.sendScale <= MAX_SCALE && SentFits(t.flow.forward)
  }

  function Apply(t: Tcp, s: Step): Tcp
    requires Sound(t) && Enabled(t, s)
  {
    match s
    case FromTun(p, e) => HandleTcp(t, p, e)
    case FromSocket(e) => CheckTcpSocket(t, e)
    case Monitor(e) => MonitorTcp(t, e)
    case Reap(e) =>
      var (z, del) := CheckTcpSession(t, e);
      if del then z.(log := z.log.(freed := true)) else z
    case Terminate => TerminateTcp(t)
  }
}
