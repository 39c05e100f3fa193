/** The data of a TCP session (tun2http.h) and of the events that reach it. */
module TcpTypes {
  import opened Serial

  const TCP_INIT_TIMEOUT := 30
  const TCP_IDLE_TIMEOUT := 3600
  const TCP_CLOSE_TIMEOUT := 30
  const TCP_KEEP_TIMEOUT := 300
  const EPOLL_MIN_CHECK := 100
  const MAX_SCALE := 14

  datatype State =
    | Listen | SynRecv | Established | CloseWait | FinWait1 | LastAck | Closing | Close

  datatype ConnectSent = ConnectNotSent | ConnectSent | ConnectEstablished

  /** `struct segment`; `len` is the length of `data`. */
  datatype Segment = Segment(seqNo: u32, sent: nat, psh: bool, data: seq<byte>) {
    function Len(): nat {
      |data|
    }
  }

  /** What `write_tcp` puts on the tun device, without the addresses and options. */
  datatype Packet = Packet(
    seqNo: u32, ackNo: u32, syn: bool, ack: bool, fin: bool, rst: bool,
    window: u16, data: seq<byte>)

  /** A packet handed to `write`, whether the session saw the write succeed (the outcome for a
      reset is not looked at), what the session had counted of the client by then, and the
      bytes that the socket had accepted. */
  datatype Emission = Emission(
    pkt: Packet, written: bool, syns: nat, forwarded: nat, fins: nat, accepted: nat)

  /** The direction from the client to the socket. `syns` and `fins` count the remote SYN
      and FIN in `remoteSeq`. The last three fields are history: `forwarded` holds the bytes
      the session took as sent, `accepted` those the socket took, and `lost` counts the
      bytes of failed `send` calls. */
  datatype Flow = Flow(
    start: u32, remoteSeq: u32, forward: seq<Segment>, syns: nat, fins: nat,
    forwarded: seq<byte>, accepted: seq<byte>, lost: nat)

  /** The direction from the socket to the client. The last two fields are history: the largest
      window that the client has advertised, and the bytes read from the socket. */
  datatype Back = Back(
    start: u32, localSeq: u32, acked: u32, sendWindow: u32, received: nat,
    maxWindow: nat, read: seq<byte>)

  /** History of the session that the program does not keep: successful CONNECT requests,
      calls of `close`, the time of entering CLOSE, whether the session was freed, and the
      packets written. */
  datatype Log = Log(connects: nat, closes: nat, closedAt: int, freed: bool, emitted: seq<Emission>)

  /** The bits of `ev.events` beside EPOLLERR. */
  datatype Mask = Mask(epollin: bool, epollout: bool)

  /** `struct tcp_session` with the socket and event mask of `struct ng_session`.
      `tunnelled` is destination port 443; destination port 80 is not modelled. */
  datatype Tcp = Tcp(
    tunnelled: bool, mss: nat, recvScale: nat, sendScale: nat,
    state: State, connect: ConnectSent, socketOpen: bool, mask: Mask,
    recvWindow: u32, time: int, lastKeepAlive: int,
    flow: Flow, back: Back, log: Log)

  /** A segment of the client read from the tun device, as far as `handle_tcp` looks at it. */
  datatype ClientSegment = ClientSegment(
    seqNo: u32, ackNo: u32, syn: bool, ack: bool, psh: bool, fin: bool, rst: bool, urg: bool,
    window: u16, data: seq<byte>)

  /** The outcome of one `send` call: a byte count, or -1. */
  datatype SendResult = Accepted(n: nat) | SendError

  /** The outcome of one `recv` call; `transient` is EINTR or EAGAIN, no data is end of file. */
  datatype RecvResult = Received(data: seq<byte>) | RecvError(transient: bool)

  /** Everything the system calls of one `check_tcp_socket` return: the event bits, the
      clock, the socket's send buffer size and unsent bytes at the two places they are
      read, the results of successive `send` calls, and of `recv` and `write`. */
  datatype SocketEvent = SocketEvent(
    err: bool, epollin: bool, epollout: bool, now: int,
    sendbuf: nat, unsent: nat, unsentAfter: nat, sends: seq<SendResult>,
    ackWritten: bool, recv: RecvResult, replyWritten: bool)

  /** What `handle_tcp` learns from outside: the clock, the outcome of `write`, whether a
      host name is known and the outcome of sending the CONNECT request. */
  datatype PacketEvent = PacketEvent(now: int, written: bool, hasHost: bool, connect: SendResult)

  datatype MonitorEvent = MonitorEvent(
    ms: int, written: bool, sendbuf: nat, unsent: nat, ctlFails: bool)

  datatype ReapEvent = ReapEvent(now: int, closeTime: int, sessions: nat, maxSessions: nat)

  datatype Step =
    | FromTun(p: ClientSegment, pe: PacketEvent)
    | FromSocket(se: SocketEvent)
    | Monitor(me: MonitorEvent)
    | Reap(re: ReapEvent)
    | Terminate
}
