/** `struct tcp_session` and the functions of tcp.c that update it in place. Each method is
    proved to make the transition of the function of `TcpSpec` with its name. */
module TcpSession {
  import opened Serial
  import opened TcpTypes
  import opened Powers
  import Spec = TcpSpec
  import TcpStream
  import Invariant = TcpInvariant

  /** The history fields of a `Flow`. */
  datatype Seen = Seen(syns: nat, fins: nat, forwarded: seq<byte>, accepted: seq<byte>, lost: nat)

  class TcpSession {
    const tunnelled: bool
    const mss: nat
    const recvScale: nat
    const sendScale: nat
    const remoteStart: u32
    const localStart: u32

    var state: State
    var connect: ConnectSent
    var socketOpen: bool
    var mask: Mask
    var time: int
    var lastKeepAlive: int
    var recvWindow: u32
    var sendWindow: u32
    var remoteSeq: u32
    var localSeq: u32
    var acked: u32
    var received: nat
    var forward: seq<Segment>

    ghost var seen: Seen
    ghost var maxWindow: nat
    ghost var read: seq<byte>
    ghost var log: Log

    ghost function FlowView(): Flow
      reads this
    {
      Flow(remoteStart, remoteSeq, forward, seen.syns, seen.fins, seen.forwarded, seen.accepted, seen.lost)
    }

    ghost function BackView(): Back
      reads this
    {
      Back(localStart, localSeq, acked, sendWindow, received, maxWindow, read)
    }

    /** The session as a value. */
    ghost function View(): Tcp
      reads this
    {
      Tcp(tunnelled, mss, recvScale, sendScale, state, connect, socketOpen, mask,
          recvWindow, time, lastKeepAlive, FlowView(), BackView(), log)
    }

    ghost predicate Valid()
      reads this
    {
      Spec.SentFits(forward) && recvScale <= MAX_SCALE && sendScale <= MAX_SCALE
    }

    /** The session that `handle_tcp` registers for a SYN without data. */
    constructor (tunnelled: bool, isn: u32, localIsn: u32, mss: nat, scale: nat, window: u16,
                 sendbuf: nat, unsent: nat, now: int)
      requires scale <= MAX_SCALE && sendbuf < TWO32
      ensures Valid()
      ensures View() == Spec.NewSession(tunnelled, isn, localIsn, mss, scale, window,
                                        Spec.ReceiveBuffer(true, sendbuf, unsent), now)
    {
      Spec.ScaledWindow(window, scale);
      this.tunnelled, this.mss, this.recvScale, this.sendScale := tunnelled, mss, scale, scale;
      remoteStart, localStart, remoteSeq, localSeq := isn, localIsn, isn, localIsn;
      state, connect, socketOpen, mask := Listen, ConnectNotSent, true, Mask(false, true);
      time, lastKeepAlive, acked, received, forward := now, 0, 0, 0, [];
      sendWindow := window * Pow2(scale);
      recvWindow := 0;
      seen, maxWindow, read := Seen(0, 0, [], [], 0), window * Pow2(scale), [];
      log := Log(0, 0, 0, false, []);
      new;
      recvWindow := GetReceiveWindow(sendbuf, unsent);
    }

    // -------------------------------------------------------------- windows

    method GetSendWindow() returns (window: u32)
      ensures window == Spec.SendWindow(BackView())
    {
      var behind := acked;
      if CompareU32(acked, localSeq) <= 0 {
        behind := Wrap(localSeq - acked);
      }
      window := if behind < sendWindow then sendWindow - behind else 0;
    }

    method GetReceiveWindow(sendbuf: nat, unsent: nat) returns (window: u32)
      requires Valid() && sendbuf < TWO32
      ensures window == Spec.ReceiveWindow(forward, Spec.ReceiveBuffer(socketOpen, sendbuf, unsent), recvScale)
    {
      var toForward: u32 := 0;
      var i := 0;
      while i < |forward|
        invariant 0 <= i <= |forward|
        invariant toForward == Wrap(Spec.Unsent(forward[..i]))
      {
        UnsentGrows(forward, i);
        WrapAdd(Spec.Unsent(forward[..i]), forward[i].Len() - forward[i].sent);
        toForward := Wrap(toForward + (forward[i].Len() - forward[i].sent));
        i := i + 1;
      }
      assert forward[..i] == forward;
      window := Spec.ReceiveBuffer(socketOpen, sendbuf, unsent);
      var max := 0xFFFF * Pow2(recvScale);
      if window > max {
        window := max;
      }
      window := if toForward < window then window - toForward else 0;
      if window < Pow2(recvScale) {
        window := 0;
      }
    }

    // -------------------------------------------------------------- writing to tun

    method WriteTcp(syn: bool, ack: bool, fin: bool, rst: bool, data: seq<byte>, ghost written: bool)
      returns (pkt: Packet)
      modifies this`log
      ensures View() == Spec.WriteTcp(old(View()), syn, ack, fin, rst, data, written)
      ensures pkt == Spec.PacketFor(old(View()), syn, ack, fin, rst, data)
    {
      var window := (recvWindow / Pow2(recvScale)) % 0x1_0000;
      pkt := Packet(localSeq, if ack then remoteSeq else 0, syn, ack, fin, rst, window, data);
      log := log.(emitted := log.emitted + [Spec.Stamped(pkt, FlowView(), written)]);
    }

    /** `write_syn_ack`, `write_ack`, `write_data` and `write_fin_ack`. */
    method WriteAcking(syn: bool, fin: bool, data: seq<byte>, written: bool)
      modifies this`log, this`state
      ensures View() == Spec.WriteAcking(old(View()), syn, fin, data, written)
    {
      var _ := WriteTcp(syn, true, fin, false, data, written);
      if !written {
        state := Closing;
      }
    }

    method CountSyn()
      modifies this`remoteSeq, this`seen
      ensures View() == old(View()).(flow := Spec.CountSyn(old(FlowView())))
    {
      remoteSeq, seen := Wrap(remoteSeq + 1), seen.(syns := seen.syns + 1);
    }

    method CountFin()
      modifies this`remoteSeq, this`seen
      ensures View() == old(View()).(flow := Spec.CountFin(old(FlowView())))
    {
      remoteSeq, seen := Wrap(remoteSeq + 1), seen.(fins := seen.fins + 1);
    }

    method WriteRst()
      modifies this`log, this`state, this`remoteSeq, this`seen
      ensures View() == Spec.WriteRst(old(View()))
    {
      var ack := false;
      if state.Listen? {
        ack := true;
        CountSyn();
      }
      var _ := WriteTcp(false, ack, false, true, [], false);
      if !state.Close? {
        state := Closing;
      }
    }

    // -------------------------------------------------------------- the forward queue

    method QueueTcp(p: ClientSegment)
      modifies this`forward
      ensures View() == old(View()).(flow := Spec.QueueTcp(old(FlowView()), p))
    {
      if CompareU32(p.seqNo, remoteSeq) >= 0 {
        var n := Segment(p.seqNo, 0, p.psh, p.data);
        var i := 0;
        while i < |forward| && CompareU32(forward[i].seqNo, p.seqNo) < 0
          invariant 0 <= i <= |forward|
          invariant forall j :: 0 <= j < i ==> CompareU32(forward[j].seqNo, p.seqNo) < 0
        {
          i := i + 1;
        }
        ghost var k := TcpStream.InsertShape(forward, n);
        assert k == i;
        if i == |forward| || CompareU32(forward[i].seqNo, p.seqNo) > 0 {
          forward := forward[..i] + [n] + forward[i..];
        } else if forward[i].Len() < n.Len() {
          forward := forward[i := forward[i].(data := p.data)];
        }
      }
    }

    /** One `send` of the head of the queue, its result clipped and counted. */
    method SendHead(r: SendResult) returns (sent: nat)
      requires forward != [] && forward[0].sent <= forward[0].Len()
      modifies this`forward, this`remoteSeq, this`seen
      ensures FlowView() == Spec.SendHead(old(FlowView()), r)
      ensures sent == Spec.Taken(r, old(forward[0].Len() - forward[0].sent))
    {
      hide Wrap;
      var g := forward[0];
      var len := g.Len() - g.sent;
      var result: int := if r.SendError? then -1 else r.n;
      if ExceedsUnsigned(result, len) {
        result := len;
      }
      sent := result;
      ghost var chunk := g.data[g.sent..g.sent + sent];
      seen := seen.(forwarded := seen.forwarded + chunk,
                    accepted := if r.SendError? then seen.accepted else seen.accepted + chunk,
                    lost := if r.SendError? then seen.lost + sent else seen.lost);
      g := g.(sent := g.sent + sent);
      remoteSeq := Wrap(g.seqNo + g.sent);
      if g.Len() == g.sent {
        forward := forward[1..];
      } else {
        forward := [g] + forward[1..];
      }
    }

    /** The forward loop of `check_tcp_socket`. */
    method ForwardData(room: nat, sends: seq<SendResult>) returns (fwd: bool)
      requires Valid()
      modifies this`forward, this`remoteSeq, this`seen
      ensures Valid()
      ensures fwd == Spec.Forwardable(old(FlowView()), room)
      ensures FlowView() == Spec.Drain(old(FlowView()), room, sends)
    {
      hide Wrap;
      var buffer: int := room;
      var rest := sends;
      var more := true;
      fwd := false;
      while more && forward != [] && Wrap(forward[0].seqNo + forward[0].sent) == remoteSeq
            && forward[0].Len() - forward[0].sent < buffer
        invariant Valid()
        invariant (if more then Spec.Drain(FlowView(), buffer, rest) else FlowView())
                  == Spec.Drain(old(FlowView()), room, sends)
        invariant fwd || (more && FlowView() == old(FlowView()) && buffer == room)
        invariant fwd ==> Spec.Forwardable(old(FlowView()), room)
        decreases |forward|, more
      {
        ghost var before := FlowView();
        assert Spec.Forwardable(before, buffer);
        var len := |forward|;
        var sent := SendHead(Spec.SendAt(rest));
        fwd := true;
        buffer := buffer - sent;
        rest := Spec.Rest(rest);
        more := |forward| < len;
      }
    }

    // -------------------------------------------------------------- socket events

    method CheckTcpSocket(e: SocketEvent)
      requires Valid() && e.sendbuf < TWO32
      modifies this
      ensures View() == Spec.CheckTcpSocket(old(View()), e)
    {
      if e.err {
        time := e.now;
        WriteRst();
      } else if state.Listen? {
        if e.epollin {
          ReadProxyReply(e);
        } else {
          AcceptConnection(e);
        }
      } else {
        ForwardAndAcknowledge(e);
        if state.Established? || state.CloseWait? {
          ReadSocket(e);
        }
      }
    }

    method ReadProxyReply(e: SocketEvent)
      modifies this
      ensures View() == Spec.ReadProxyReply(old(View()), e)
    {
      if e.recv.RecvError? {
        WriteRst();
      } else if connect.ConnectSent? {
        connect := ConnectEstablished;
        state := Established;
      } else {
        WriteRst();
      }
    }

    method AcceptConnection(e: SocketEvent)
      modifies this
      ensures View() == Spec.AcceptConnection(old(View()), e)
    {
      hide Spec.WriteAcking, Spec.CountSyn, Wrap;
      CountSyn();
      WriteAcking(true, false, [], e.replyWritten);
      if e.replyWritten {
        time, localSeq, state := e.now, Wrap(localSeq + 1), SynRecv;
      }
    }

    method ForwardAndAcknowledge(e: SocketEvent)
      requires Valid() && e.sendbuf < TWO32
      modifies this
      ensures View() == Spec.ForwardAndAcknowledge(old(View()), e)
    {
      hide Spec.Drain, Spec.Acknowledge, Spec.ReceiveBuffer;
      var fwd := false;
      if e.epollout {
        fwd := ForwardData(Spec.ReceiveBuffer(socketOpen, e.sendbuf, e.unsent), e.sends);
      }
      Acknowledge(fwd, e);
    }

    method Acknowledge(fwd: bool, e: SocketEvent)
      requires Valid() && e.sendbuf < TWO32
      modifies this
      ensures View() == Spec.Acknowledge(old(View()), fwd, e)
    {
      hide Spec.WriteAcking, Spec.CountFin, Spec.ReceiveWindow, Spec.ReceiveBuffer, Wrap;
      var window := GetReceiveWindow(e.sendbuf, e.unsentAfter);
      var prev := recvWindow;
      recvWindow := window;
      if fwd || (prev == 0 && window > 0) {
        if fwd && forward == [] && state.CloseWait? {
          CountFin();
        }
        WriteAcking(false, false, [], e.ackWritten);
        if e.ackWritten {
          time := e.now;
        }
      }
    }

    method ReadSocket(e: SocketEvent)
      modifies this
      ensures View() == Spec.ReadSocket(old(View()), e)
    {
      hide Spec.SendWindow, Spec.WriteRst, Spec.SocketEof, Spec.SocketData;
      var window := GetSendWindow();
      if e.epollin && window > 0 {
        time := e.now;
        var size := if window > mss then mss else window;
        match e.recv
        case RecvError(transient) =>
          if !transient {
            WriteRst();
          }
        case Received(data) =>
          var buffer := if |data| <= size then data else data[..size];
          if buffer == [] {
            SocketEof(e.replyWritten);
          } else {
            SocketData(buffer, e.replyWritten);
          }
      }
    }

    method SocketData(buffer: seq<byte>, written: bool)
      modifies this
      ensures View() == Spec.SocketData(old(View()), buffer, written)
    {
      hide Spec.WriteAcking;
      received, read := received + |buffer|, read + buffer;
      WriteAcking(false, false, buffer, written);
      if written {
        localSeq := Wrap(localSeq + |buffer|);
      }
    }

    method SocketEof(written: bool)
      modifies this
      ensures View() == Spec.SocketEof(old(View()), written)
    {
      hide Spec.WriteAcking, Spec.WriteRst, Wrap;
      if forward == [] {
        WriteAcking(false, true, [], written);
        if written {
          localSeq := Wrap(localSeq + 1);
        }
        if state.Established? {
          state := FinWait1;
        } else if state.CloseWait? {
          state := LastAck;
        }
      } else {
        WriteRst();
      }
      socketOpen := false;
      log := log.(closes := log.closes + 1);
    }

    // -------------------------------------------------------------- packets from tun

    method HandleTcp(p: ClientSegment, e: PacketEvent)
      requires Valid()
      modifies this
      ensures View() == Spec.HandleTcp(old(View()), p, e)
    {
      hide Spec.WriteRst, Spec.QueueTcp, Spec.HandleSegment;
      if p.urg {
        return;
      }
      if tunnelled && connect.ConnectNotSent? && e.hasHost {
        if e.connect.SendError? {
          WriteRst();
        } else {
          connect := ConnectSent;
          state := Listen;
          log := log.(connects := log.connects + 1);
        }
      }
      if tunnelled && !connect.ConnectEstablished? {
        QueueTcp(p);
      } else if state.Closing? || state.Close? {
        WriteRst();
      } else {
        HandleSegment(p, e);
      }
    }

    method HandleSegment(p: ClientSegment, e: PacketEvent)
      requires Valid()
      modifies this
      ensures View() == Spec.HandleSegment(old(View()), p, e)
    {
      hide Spec.HandleFlags, Spec.QueueTcp, Spec.WriteRst;
      Spec.ScaledWindow(p.window, sendScale);
      time := e.now;
      sendWindow := p.window * Pow2(sendScale);
      maxWindow := if sendWindow > maxWindow then sendWindow else maxWindow;
      if p.data != [] {
        if !socketOpen || state.CloseWait? {
          WriteRst();
          return;
        }
        QueueTcp(p);
      }
      HandleFlags(p, e.written);
    }

    method HandleFlags(p: ClientSegment, written: bool)
      modifies this
      ensures View() == Spec.HandleFlags(old(View()), p, written)
    {
      if p.rst {
        state := Closing;
      } else if !p.ack || p.ackNo == localSeq {
        if p.syn {
        } else if p.fin {
          HandleFin(written);
        } else if p.ack {
          acked := p.ackNo;
          if state.SynRecv? {
            state := Established;
          } else if state.LastAck? {
            state := Closing;
          }
        }
      } else if Wrap(p.ackNo + 1) == localSeq {
      } else if CompareU32(p.ackNo, localSeq) < 0 {
        if CompareU32(p.ackNo, acked) > 0 {
          acked := p.ackNo;
        }
      } else {
        WriteRst();
      }
    }

    method HandleFin(written: bool)
      modifies this
      ensures View() == Spec.HandleFin(old(View()), written)
    {
      hide Spec.WriteAcking, Spec.CountFin, Wrap;
      if state.Established? {
        if forward == [] {
          CountFin();
          WriteAcking(false, false, [], written);
          if written {
            state := CloseWait;
          }
        } else {
          state := CloseWait;
        }
      } else if state.FinWait1? {
        CountFin();
        WriteAcking(false, false, [], written);
        if written {
          state := Close;
          log := log.(closedAt := time);
        }
      }
    }

    // -------------------------------------------------------------- monitoring and reaping

    method SendKeepAlive(e: MonitorEvent)
      modifies this`lastKeepAlive, this`remoteSeq, this`log, this`state
      ensures View() == Spec.KeepAlive(old(View()), e) && FlowView() == old(FlowView())
    {
      hide Wrap;
      RestoresNumber(remoteSeq);
      lastKeepAlive := e.ms;
      remoteSeq := Wrap(remoteSeq - 1);
      WriteAcking(false, false, [], e.written);
      remoteSeq := Wrap(remoteSeq + 1);
    }

    /** The bits for outgoing data, and whether it has to wait. */
    method OutgoingReady(e: MonitorEvent) returns (out: bool, recheck: bool)
      ensures out == Spec.Forwardable(FlowView(), Spec.ReceiveBuffer(socketOpen, e.sendbuf, e.unsent))
      ensures recheck == (forward != [] && !out)
    {
      out, recheck := false, false;
      if forward != [] {
        var room := Spec.ReceiveBuffer(socketOpen, e.sendbuf, e.unsent);
        if Wrap(forward[0].seqNo + forward[0].sent) == remoteSeq && forward[0].Len() - forward[0].sent < room {
          out := true;
        } else {
          recheck := true;
        }
      }
    }

    /** Registers the events with epoll if they differ from those registered before. */
    method SetMask(events: Mask, ctlFails: bool)
      modifies this`mask, this`state
      ensures mask == events
      ensures state == if events != old(mask) && ctlFails then Closing else old(state)
    {
      if events != mask {
        mask := events;
        if ctlFails {
          state := Closing;
        }
      }
    }

    method MonitorTcpSession(e: MonitorEvent) returns (recheck: bool)
      modifies this
      ensures View() == Spec.MonitorTcp(old(View()), e)
      ensures recheck == Spec.Recheck(old(View()), e)
    {
      hide Spec.SendWindow, Spec.Forwardable, Spec.ReceiveBuffer, Spec.KeepAlive;
      recheck := false;
      var events := Mask(false, false);
      if state.Listen? {
        if connect.ConnectSent? && tunnelled {
          events := Mask(true, false);
        } else {
          events := Mask(false, true);
        }
      } else if state.Established? || state.CloseWait? {
        var window := GetSendWindow();
        if window == 0 {
          recheck := true;
          if e.ms - lastKeepAlive > EPOLL_MIN_CHECK {
            SendKeepAlive(e);
          }
        }
        var out, wait := OutgoingReady(e);
        events := Mask(window > 0, out);
        recheck := recheck || wait;
      }
      SetMask(events, e.ctlFails);
    }

    method CheckTcpSession(e: ReapEvent) returns (del: bool)
      requires e.maxSessions > 0
      modifies this
      ensures (View(), del) == Spec.CheckTcpSession(old(View()), e)
    {
      hide Spec.TcpTimeout, Spec.WriteRst, Spec.CloseSession;
      var timeout := Spec.TcpTimeout(state, e.sessions, e.maxSessions);
      if !state.Closing? && !state.Close? && time + timeout < e.now {
        if state.Listen? {
          state := Closing;
        } else {
          WriteRst();
        }
      }
      if state.Closing? {
        CloseSession(e.closeTime);
      }
      if state.Close? {
        received := 0;
      }
      del := state.Close? && time + TCP_KEEP_TIMEOUT < e.now;
    }

    method CloseSession(now: int)
      modifies this
      ensures View() == Spec.CloseSession(old(View()), now)
    {
      if socketOpen {
        socketOpen := false;
        log := log.(closes := log.closes + 1);
      }
      time := now;
      state := Close;
      log := log.(closedAt := now);
    }

    /** One step of the session's life. */
    method Perform(s: Step)
      requires Valid() && Spec.Enabled(View(), s)
      modifies this
      ensures View() == Spec.Apply(old(View()), s)
    {
      hide Spec.HandleTcp, Spec.CheckTcpSocket, Spec.MonitorTcp, Spec.CheckTcpSession, Spec.TerminateTcp;
      match s
      case FromTun(p, e) => HandleTcp(p, e);
      case FromSocket(e) => CheckTcpSocket(e);
      case Monitor(e) => var _ := MonitorTcpSession(e);
      case Reap(e) =>
        var del := CheckTcpSession(e);
        if del {
          log := log.(freed := true);
        }
      case Terminate => TerminateTcpSession();
    }

    /** Any run of a direct session; what is proved of runs holds of the object. */
    method PerformAll(steps: seq<Step>)
      requires Invariant.Inv(View()) && Invariant.Run(View(), steps)
      modifies this
      ensures View() == Invariant.After(old(View()), steps)
      ensures Invariant.Inv(View()) && Valid()
    {
      hide Spec.Apply, Spec.Enabled;
      var k := 0;
      while k < |steps|
        invariant 0 <= k <= |steps|
        invariant Invariant.Inv(View()) && Invariant.Run(View(), steps[k..])
        invariant Invariant.After(View(), steps[k..]) == Invariant.After(old(View()), steps)
      {
        assert steps[k..][1..] == steps[k + 1..];
        Invariant.StepKept(View(), steps[k]);
        Perform(steps[k]);
        k := k + 1;
      }
    }

    method TerminateTcpSession()
      modifies this
      ensures View() == Spec.TerminateTcp(old(View()))
    {
      if !state.Closing? && !state.Close? {
        WriteRst();
      }
    }
  }

  /** The test `sent > len` of a signed count against an unsigned length: a negative count
      converts to a number above every length. */
  predicate ExceedsUnsigned(sent: int, len: nat) {
    sent < 0 || sent > len
  }

  lemma RestoresNumber(s: u32)
    ensures Wrap(Wrap(s - 1) + 1) == s
  {
  }

  lemma {:induction false} UnsentGrows(q: seq<Segment>, i: nat)
    requires i < |q|
    ensures Spec.Unsent(q[..i + 1]) == Spec.Unsent(q[..i]) + (q[i].Len() - q[i].sent)
  {
    if i > 0 {
      UnsentGrows(q[1..], i - 1);
      assert q[1..][..i] == q[..i + 1][1..];
      assert q[1..][..i - 1] == q[..i][1..];
    }
  }
}
