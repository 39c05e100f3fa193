/** The three kinds of `struct ng_session`, their timeouts and their periodic checks
    (session.c, icmp.c, udp.c, tcp.c). */
module Sessions {
  import opened Serial
  import opened TcpTypes
  import Spec = TcpSpec
  import Invariant = TcpInvariant
  import Lifecycle = TcpLifecycle

  const EPOLL_TIMEOUT := 3600
  const ICMP_TIMEOUT := 15
  const UDP_TIMEOUT_53 := 15
  const UDP_TIMEOUT_ANY := 300
  const UDP_KEEP_TIMEOUT := 60

  /** What a packet is matched against: IP version, addresses and ports. */
  datatype Key = Key(version: nat, saddr: nat, daddr: nat, source: u16, dest: u16)

  datatype UdpState = UdpActive | UdpFinishing | UdpClosed | UdpBlocked

  datatype Session =
    | IcmpSession(time: int, stop: bool, open: bool)
    | UdpSession(key: Key, time: int, udpState: UdpState, open: bool)
    | TcpEntry(key: Key, tcp: Tcp)

  /** One pass of the timer loop: the clock, read anew for each check, and the session count
      with its limit. `clock(0)` is the reading before the loop; the k-th session's check
      reads `clock(2 * k + 1)` and, when it closes a socket, `clock(2 * k + 2)`. */
  datatype Pass = Pass(clock: nat -> int, sessions: nat, maxSessions: nat)

  ghost predicate Monotone(clock: nat -> int) {
    forall i: nat, j: nat :: i <= j ==> clock(i) <= clock(j)
  }

  function BaseTimeout(s: Session): nat {
    match s
    case IcmpSession(_, _, _) => ICMP_TIMEOUT
    case UdpSession(key, _, _, _) => if key.dest == 53 then UDP_TIMEOUT_53 else UDP_TIMEOUT_ANY
    case TcpEntry(_, t) => Spec.TcpBaseTimeout(t.state)
  }

  /** `get_icmp_timeout`, `get_udp_timeout`, `get_tcp_timeout`. */
  function Timeout(s: Session, p: Pass): int
    requires p.maxSessions > 0
  {
    Spec.Scaled(BaseTimeout(s), p.sessions, p.maxSessions)
  }

  function TimeOf(s: Session): int {
    if s.TcpEntry? then s.tcp.time else s.time
  }

  function SocketOpen(s: Session): bool {
    if s.TcpEntry? then s.tcp.socketOpen else s.open
  }

  /** The session counts against the limit and can time out. */
  predicate Live(s: Session) {
    match s
    case IcmpSession(_, stop, _) => !stop
    case UdpSession(_, _, state, _) => state.UdpActive?
    case TcpEntry(_, t) => !t.state.Closing? && !t.state.Close?
  }

  /** `check_icmp_session`. */
  function CheckIcmp(s: Session, p: Pass, now: int): (Session, bool)
    requires s.IcmpSession? && p.maxSessions > 0
  {
    if s.stop || s.time + Timeout(s, p) < now then (IcmpSession(s.time, s.stop, false), true) else (s, false)
  }

  /** `check_udp_session`. */
  function CheckUdp(s: Session, p: Pass, now: int, closeTime: int): (Session, bool)
    requires s.UdpSession? && p.maxSessions > 0
  {
    var due := s.udpState.UdpActive? && s.time + Timeout(s, p) < now;
    var f := if due then UdpSession(s.key, s.time, UdpFinishing, s.open) else s;
    var c := if f.udpState.UdpFinishing? then UdpSession(f.key, closeTime, UdpClosed, false) else f;
    (c, (c.udpState.UdpClosed? || c.udpState.UdpBlocked?) && c.time + UDP_KEEP_TIMEOUT < now)
  }

  /** The check of the k-th session of a pass; the flag asks for its deletion. */
  function Check(s: Session, p: Pass, k: nat): (r: (Session, bool))
    requires p.maxSessions > 0
    ensures r.0.TcpEntry? <==> s.TcpEntry?
    ensures s.TcpEntry? ==> r.0.key == s.key
  {
    var now, closeTime := p.clock(2 * k + 1), p.clock(2 * k + 2);
    match s
    case IcmpSession(_, _, _) => CheckIcmp(s, p, now)
    case UdpSession(_, _, _, _) => CheckUdp(s, p, now, closeTime)
    case TcpEntry(key, t) =>
      var (z, del) := Spec.CheckTcpSession(t, ReapEvent(now, closeTime, p.sessions, p.maxSessions));
      (TcpEntry(key, z), del)
  }

  /** The seconds until the first second at which a session will have expired. */
  function SecondsLeft(s: Session, p: Pass): int
    requires p.maxSessions > 0
  {
    TimeOf(s) + Timeout(s, p) - p.clock(0) + 1
  }

  /** The poll timeout after looking at one checked session. */
  function Sooner(timeout: int, s: Session, del: bool, p: Pass): int
    requires p.maxSessions > 0
  {
    if Live(s) && !del && 0 < SecondsLeft(s, p) < timeout then SecondsLeft(s, p) else timeout
  }

  // ---------------------------------------------------------------- a whole pass

  /** The sessions left of the first n, in order. */
  function Survivors(ss: seq<Session>, n: nat, p: Pass): seq<Session>
    requires n <= |ss| && p.maxSessions > 0
  {
    if n == 0 then []
    else
      var (s, del) := Check(ss[n - 1], p, n - 1);
      Survivors(ss, n - 1, p) + (if del then [] else [s])
  }

  /** The poll timeout after the first n sessions. */
  function PollTimeout(ss: seq<Session>, n: nat, p: Pass): int
    requires n <= |ss| && p.maxSessions > 0
  {
    if n == 0 then EPOLL_TIMEOUT
    else
      var (s, del) := Check(ss[n - 1], p, n - 1);
      Sooner(PollTimeout(ss, n - 1, p), s, del, p)
  }

  predicate Deleted(ss: seq<Session>, k: nat, p: Pass)
    requires k < |ss| && p.maxSessions > 0
  {
    Check(ss[k], p, k).1
  }

  /** The positions of the survivors among the first n. */
  function Kept(ss: seq<Session>, n: nat, p: Pass): seq<nat>
    requires n <= |ss| && p.maxSessions > 0
  {
    if n == 0 then [] else Kept(ss, n - 1, p) + (if Deleted(ss, n - 1, p) then [] else [n - 1])
  }

  /** The reaper is a filter: what is left are the checked sessions whose check did not ask for
      deletion, each once and in the old order, and no others. */
  lemma {:induction false} ReaperIsFilter(ss: seq<Session>, n: nat, p: Pass)
    requires n <= |ss| && p.maxSessions > 0
    ensures var ix := Kept(ss, n, p);
            && |Survivors(ss, n, p)| == |ix|
            && (forall j :: 0 <= j < |ix| ==> ix[j] < n && !Deleted(ss, ix[j], p)
                                              && Survivors(ss, n, p)[j] == Check(ss[ix[j]], p, ix[j]).0)
            && (forall i, j :: 0 <= i < j < |ix| ==> ix[i] < ix[j])
            && (forall k: nat :: k < n && !Deleted(ss, k, p) ==> k in ix)
  {
    hide Check;
    if n > 0 {
      ReaperIsFilter(ss, n - 1, p);
    }
  }

  // ---------------------------------------------------------------- single checks

  /** The seconds of silence allowed while no other session is in use: 15 for ICMP and DNS, 300
      for other UDP, 30 for opening and closing TCP, 3600 in ESTABLISHED. */
  function Silence(s: Session): nat {
    match s
    case IcmpSession(_, _, _) => 15
    case UdpSession(key, _, _, _) => if key.dest == 53 then 15 else 300
    case TcpEntry(_, t) => if t.state.Established? then 3600 else 30
  }

  /** The first second at which `time + timeout < now` holds of a session. */
  function FirstExpired(s: Session, p: Pass): int
    requires p.maxSessions > 0
  {
    TimeOf(s) + Timeout(s, p) + 1
  }

  /** With no session in use a session expires when it was silent for longer than that. */
  lemma SilenceExactly(s: Session, p: Pass)
    requires p.maxSessions > 0 && p.sessions == 0
    ensures FirstExpired(s, p) == TimeOf(s) + Silence(s) + 1
  {
    Lifecycle.ScaledShrinks(BaseTimeout(s), 0, 0, p.maxSessions);
  }

  /** A check leaves a live session of any protocol alone if and only if its time is not up: then
      nothing about it changes, otherwise it is no longer live, or deleted. */
  lemma LiveCheckExactly(s: Session, p: Pass, k: nat)
    requires p.maxSessions > 0 && Live(s)
    ensures var (c, del) := Check(s, p, k);
            && (p.clock(2 * k + 1) < FirstExpired(s, p) <==> Live(c) && !del)
            && (p.clock(2 * k + 1) < FirstExpired(s, p) ==> c == s && !del)
  {
    hide Spec.PacketFor, Spec.Scaled, Wrap;
  }

  /** What a check does to a session that is no longer live: a stopped ICMP session is deleted at
      once; a finishing UDP session is closed; a closed or blocked one stays as it is, and is
      deleted if and only if its keep time has passed; the same goes for a closed TCP session, and
      a closing one is closed. */
  lemma FinishedCheckExactly(s: Session, p: Pass, k: nat)
    requires p.maxSessions > 0 && !Live(s) && p.clock(2 * k + 1) <= p.clock(2 * k + 2)
    ensures var (c, del) := Check(s, p, k);
            var now, later := p.clock(2 * k + 1), p.clock(2 * k + 2);
            match s
            case IcmpSession(_, _, _) => del && !c.open
            case UdpSession(key, time, state, open) =>
              if state.UdpFinishing? then c == UdpSession(key, later, UdpClosed, false) && !del
              else c == s && (del <==> now > time + 60)
            case TcpEntry(key, t) =>
              && c.tcp.state.Close? && (t.state.Closing? ==> !c.tcp.socketOpen && c.tcp.time == later && !del)
              && (t.state.Close? ==> c.tcp == t.(back := t.back.(received := 0)) && (del <==> now > t.time + 300))
  {
    hide Spec.PacketFor, Spec.Scaled, Wrap;
  }

  /** A live session whose time is not up at its check survives the pass unchanged. */
  lemma {:induction false} UnexpiredSurvives(ss: seq<Session>, p: Pass, k: nat)
    requires p.maxSessions > 0 && k < |ss| && Live(ss[k]) && p.clock(2 * k + 1) < FirstExpired(ss[k], p)
    ensures ss[k] in Survivors(ss, |ss|, p)
  {
    hide Survivors, Check, Kept;
    ReaperIsFilter(ss, |ss|, p);
    LiveCheckExactly(ss[k], p, k);
    var ix := Kept(ss, |ss|, p);
    assert !Deleted(ss, k, p);
    var j :| 0 <= j < |ix| && ix[j] == k;
    assert Survivors(ss, |ss|, p)[j] == ss[k];
  }

  /** A session that is live after its check had not expired at its check. */
  lemma LiveHasTimeLeft(s: Session, p: Pass, k: nat)
    requires p.maxSessions > 0 && Monotone(p.clock)
    ensures var (c, del) := Check(s, p, k);
            Live(c) && !del ==> c == (if s.TcpEntry? then c else s) && SecondsLeft(c, p) >= 1
  {
    assert p.clock(0) <= p.clock(2 * k + 1);
  }

  /** Wake-up bound: the poll timeout is between 1 second and an hour, and never past the first
      second at which a kept live session will have expired; and it is no shorter than that. */
  lemma {:induction false} WakeUpBound(ss: seq<Session>, n: nat, p: Pass)
    requires n <= |ss| && p.maxSessions > 0 && Monotone(p.clock)
    ensures var w := PollTimeout(ss, n, p);
            && 1 <= w <= 3600
            && (forall s :: s in Survivors(ss, n, p) && Live(s) ==> w <= SecondsLeft(s, p))
            && (w < 3600 ==> exists s :: s in Survivors(ss, n, p) && Live(s) && w == SecondsLeft(s, p))
  {
    hide Check, Live, SecondsLeft;
    if n > 0 {
      WakeUpBound(ss, n - 1, p);
      LiveHasTimeLeft(ss[n - 1], p, n - 1);
      var (s, del) := Check(ss[n - 1], p, n - 1);
      var before := Survivors(ss, n - 1, p);
      assert Survivors(ss, n, p) == before + (if del then [] else [s]);
      var w0, w := PollTimeout(ss, n - 1, p), PollTimeout(ss, n, p);
      if w < EPOLL_TIMEOUT {
        if w == w0 {
          var x :| x in before && Live(x) && w0 == SecondsLeft(x, p);
          assert x in Survivors(ss, n, p);
        } else {
          assert s in Survivors(ss, n, p);
        }
      }
    }
  }

  /** The poll starts at a second not before the clock reading of the pass and sleeps for the poll
      timeout. It wakes later than the first expiry of a kept live session by at most the seconds
      that went by in between; so nobody expires while it sleeps when there were none, and,
      unless it sleeps the whole hour, only then. */
  lemma {:induction false} OversleepsByThePass(ss: seq<Session>, p: Pass, start: int)
    requires p.maxSessions > 0 && Monotone(p.clock) && start >= p.clock(0)
    ensures var wake, kept := start + PollTimeout(ss, |ss|, p), Survivors(ss, |ss|, p);
            && (forall s :: s in kept && Live(s) ==> wake <= FirstExpired(s, p) + (start - p.clock(0)))
            && (PollTimeout(ss, |ss|, p) < EPOLL_TIMEOUT ==>
                  ((forall s :: s in kept && Live(s) ==> wake <= FirstExpired(s, p)) <==> start == p.clock(0)))
  {
    hide Survivors, PollTimeout, Live, Check;
    WakeUpBound(ss, |ss|, p);
  }

  // ---------------------------------------------------------------- descriptors

  /** A TCP session has no socket once it is closed, or waits for nothing but the client's FIN. */
  predicate TcpTidy(t: Tcp) {
    t.state.FinWait1? || t.state.Close? ==> !t.socketOpen
  }

  /** The socket of a finished session is closed. */
  predicate SocketTidy(s: Session) {
    match s
    case IcmpSession(_, _, _) => true
    case UdpSession(_, _, state, open) => state.UdpClosed? || state.UdpBlocked? ==> !open
    case TcpEntry(_, t) => Neat(t)
  }

  predicate Neat(t: Tcp) {
    Spec.Sound(t) && TcpTidy(t)
  }

  lemma WriteRstNeat(t: Tcp)
    requires Neat(t)
    ensures Neat(Spec.WriteRst(t))
  {
    hide Spec.PacketFor, Wrap;
  }

  lemma ReadSocketNeat(t: Tcp, e: SocketEvent)
    requires Neat(t)
    ensures Neat(Spec.ReadSocket(t, e))
  {
    hide Spec.PacketFor, Spec.WriteRst, Spec.SendWindow, Wrap;
    WriteRstNeat(t.(time := e.now));
  }

  lemma ForwardNeat(t: Tcp, e: SocketEvent)
    requires Neat(t) && t.socketOpen && e.sendbuf < TWO32
    ensures Neat(Spec.ForwardAndAcknowledge(t, e))
  {
    hide Spec.PacketFor, Spec.NewWindow, Spec.Drain, Spec.Forwardable, Wrap;
  }

  lemma SocketNeat(t: Tcp, e: SocketEvent)
    requires Neat(t) && t.socketOpen && e.sendbuf < TWO32
    ensures Neat(Spec.CheckTcpSocket(t, e))
  {
    hide Spec.PacketFor, Spec.WriteRst, Spec.ForwardAndAcknowledge, Spec.ReadSocket, Wrap;
    WriteRstNeat(t);
    WriteRstNeat(t.(time := e.now));
    if !e.err && !t.state.Listen? {
      ForwardNeat(t, e);
      ReadSocketNeat(Spec.ForwardAndAcknowledge(t, e), e);
    }
  }

  lemma HandleFlagsNeat(t: Tcp, p: ClientSegment, written: bool)
    requires Neat(t)
    ensures Neat(Spec.HandleFlags(t, p, written))
  {
    hide Spec.PacketFor, Spec.WriteRst, CompareU32, Wrap;
    WriteRstNeat(t);
  }

  lemma QueueNeat(t: Tcp, p: ClientSegment)
    requires Neat(t)
    ensures Neat(t.(flow := Spec.QueueTcp(t.flow, p)))
  {
    hide Spec.Insert, CompareU32;
    Invariant.InsertKeepsFit(t.flow.forward, Segment(p.seqNo, 0, p.psh, p.data));
  }

  lemma SegmentNeat(t: Tcp, p: ClientSegment, e: PacketEvent)
    requires Neat(t)
    ensures Neat(Spec.HandleSegment(t, p, e))
  {
    hide Spec.QueueTcp, Spec.WriteRst, Spec.HandleFlags;
    var u := Spec.Noted(t, p, e);
    WriteRstNeat(u);
    QueueNeat(u, p);
    HandleFlagsNeat(u, p, e.written);
    HandleFlagsNeat(u.(flow := Spec.QueueTcp(u.flow, p)), p, e.written);
  }

  lemma PacketNeat(t: Tcp, p: ClientSegment, e: PacketEvent)
    requires Neat(t)
    ensures Neat(Spec.HandleTcp(t, p, e))
  {
    hide Spec.QueueTcp, Spec.WriteRst, Spec.HandleSegment;
    WriteRstNeat(t);
    var c := if t.tunnelled then Spec.RequestTunnel(t, e) else t;
    QueueNeat(c, p);
    WriteRstNeat(c);
    SegmentNeat(c, p, e);
  }

  lemma MonitorNeat(t: Tcp, e: MonitorEvent)
    requires Neat(t)
    ensures Neat(Spec.MonitorTcp(t, e))
  {
    hide Spec.PacketFor, Spec.MaskFor, Spec.SendWindow, Wrap;
  }

  lemma ReapNeat(t: Tcp, e: ReapEvent)
    requires Neat(t) && e.maxSessions > 0
    ensures Neat(Spec.CheckTcpSession(t, e).0) && Neat(Spec.TerminateTcp(t))
    ensures Spec.CheckTcpSession(t, e).1 ==> !Spec.CheckTcpSession(t, e).0.socketOpen
  {
    hide Spec.WriteRst, Spec.TcpTimeout;
    WriteRstNeat(t);
  }

  /** Every step of every TCP session, direct or tunnelled, keeps that. */
  lemma StepNeat(t: Tcp, s: Step)
    requires Neat(t) && Spec.Enabled(t, s) && !s.Reap?
    ensures Neat(Spec.Apply(t, s))
  {
    hide Spec.CheckTcpSocket, Spec.HandleTcp, Spec.MonitorTcp, Spec.CheckTcpSession, Spec.TerminateTcp;
    match s
    case FromTun(p, e) => PacketNeat(t, p, e);
    case FromSocket(e) => SocketNeat(t, e);
    case Monitor(e) => MonitorNeat(t, e);
    case Terminate => ReapNeat(t, ReapEvent(0, 0, 0, 1));
  }

  /** The check of a session of any protocol keeps it tidy, and asks for deletion only with the
      socket closed. */
  lemma CheckTidied(s: Session, p: Pass, k: nat)
    requires p.maxSessions > 0 && SocketTidy(s)
    ensures var (c, del) := Check(s, p, k);
            SocketTidy(c) && (del ==> !SocketOpen(c))
  {
    hide Spec.CheckTcpSession, Spec.Sound;
    if s.TcpEntry? {
      ReapNeat(s.tcp, ReapEvent(p.clock(2 * k + 1), p.clock(2 * k + 2), p.sessions, p.maxSessions));
    }
  }

  // ---------------------------------------------------------------- keys

  /** At most one TCP session has a given key. */
  predicate UniqueTcp(ss: seq<Session>) {
    forall i, j :: 0 <= i < j < |ss| && ss[i].TcpEntry? && ss[j].TcpEntry? ==> ss[i].key != ss[j].key
  }

  predicate HasTcp(ss: seq<Session>, key: Key) {
    exists i :: 0 <= i < |ss| && ss[i].TcpEntry? && ss[i].key == key
  }

  /** A pass of the reaper keeps the keys of TCP sessions unique. */
  lemma {:induction false} SurvivorsUnique(ss: seq<Session>, p: Pass)
    requires p.maxSessions > 0 && UniqueTcp(ss)
    ensures UniqueTcp(Survivors(ss, |ss|, p))
  {
    hide Check, Survivors, Kept;
    ReaperIsFilter(ss, |ss|, p);
    var ix, r := Kept(ss, |ss|, p), Survivors(ss, |ss|, p);
    forall i, j | 0 <= i < j < |r| && r[i].TcpEntry? && r[j].TcpEntry?
      ensures r[i].key != r[j].key
    {
      assert ix[i] < ix[j];
      assert ss[ix[i]].TcpEntry? && ss[ix[i]].key == r[i].key;
      assert ss[ix[j]].TcpEntry? && ss[ix[j]].key == r[j].key;
    }
  }

  /** `check_allowed` on one session; a blocked UDP session is dropped. */
  function Terminated(s: Session): Session {
    match s
    case IcmpSession(time, _, open) => IcmpSession(time, true, open)
    case UdpSession(key, time, state, open) =>
      if state.UdpActive? then UdpSession(key, time, UdpFinishing, open) else s
    case TcpEntry(key, t) => TcpEntry(key, Spec.TerminateTcp(t))
  }

  predicate Blocked(s: Session) {
    s.UdpSession? && s.udpState.UdpBlocked?
  }

  /** `check_allowed` on the first n sessions. */
  function Allowed(ss: seq<Session>, n: nat): seq<Session>
    requires n <= |ss|
  {
    if n == 0 then []
    else Allowed(ss, n - 1) + (if Blocked(ss[n - 1]) then [] else [Terminated(ss[n - 1])])
  }

  /** What holds of every reachable table. */
  predicate TableOk(ss: seq<Session>) {
    UniqueTcp(ss) && forall i :: 0 <= i < |ss| ==> SocketTidy(ss[i])
  }

  lemma SurvivorsTidy(ss: seq<Session>, p: Pass)
    requires p.maxSessions > 0 && TableOk(ss)
    ensures TableOk(Survivors(ss, |ss|, p))
  {
    hide Check, Survivors, Kept, SocketTidy, UniqueTcp;
    SurvivorsUnique(ss, p);
    ReaperIsFilter(ss, |ss|, p);
    var ix, r := Kept(ss, |ss|, p), Survivors(ss, |ss|, p);
    forall i | 0 <= i < |r|
      ensures SocketTidy(r[i])
    {
      CheckTidied(ss[ix[i]], p, ix[i]);
    }
  }

  /** `check_allowed` keeps the keys unique and the sessions tidy. */
  lemma {:induction false} AllowedOk(ss: seq<Session>, n: nat)
    requires n <= |ss| && TableOk(ss)
    ensures TableOk(Allowed(ss, n))
    ensures forall s :: s in Allowed(ss, n) && s.TcpEntry? ==> HasTcp(ss[..n], s.key)
  {
    hide SocketTidy;
    if n > 0 {
      AllowedOk(ss, n - 1);
      var before, last := Allowed(ss, n - 1), ss[n - 1];
      assert ss[..n][..n - 1] == ss[..n - 1];
      TerminatedTidy(last);
      forall s | s in before && s.TcpEntry?
        ensures HasTcp(ss[..n], s.key) && (last.TcpEntry? ==> s.key != last.key)
      {
        var i :| 0 <= i < n - 1 && ss[..n - 1][i].TcpEntry? && ss[..n - 1][i].key == s.key;
        assert ss[..n][i].key == s.key && ss[i].key == s.key;
      }
      assert last.TcpEntry? ==> ss[..n][n - 1].key == last.key;
    }
  }

  lemma TerminatedTidy(s: Session)
    requires SocketTidy(s)
    ensures SocketTidy(Terminated(s))
    ensures Terminated(s).TcpEntry? <==> s.TcpEntry?
    ensures s.TcpEntry? ==> Terminated(s).key == s.key
  {
    hide Spec.TerminateTcp;
    if s.TcpEntry? {
      ReapNeat(s.tcp, ReapEvent(0, 0, 0, 1));
    }
  }

  /** What happens to the table: a packet finds or registers its TCP session, a session of
      another protocol is registered or changed by its traffic, a TCP session makes a step, a
      pass reaps, or `check_allowed` terminates. */
  datatype TableStep =
    | Arrival(key: Key, started: Tcp)
    | Other(session: Session)
    | Changed(index: nat, session: Session)
    | TcpStep(index: nat, step: Step)
    | ReapPass(p: Pass)
    | Terminations

  predicate TableEnabled(ss: seq<Session>, step: TableStep) {
    match step
    case Arrival(_, t) => t.state.Listen? && Spec.Sound(t)
    case Other(s) => !s.TcpEntry? && SocketTidy(s)
    case Changed(i, s) => i < |ss| && !ss[i].TcpEntry? && !s.TcpEntry? && SocketTidy(s)
    case TcpStep(i, s) => i < |ss| && ss[i].TcpEntry? && Spec.Enabled(ss[i].tcp, s) && !s.Reap?
    case ReapPass(p) => p.maxSessions > 0
    case Terminations => true
  }

  function TableApply(ss: seq<Session>, step: TableStep): seq<Session>
    requires TableOk(ss) && TableEnabled(ss, step)
  {
    match step
    case Arrival(key, started) => if HasTcp(ss, key) then ss else [TcpEntry(key, started)] + ss
    case Other(s) => [s] + ss
    case Changed(i, s) => ss[i := s]
    case TcpStep(i, s) =>
      assert SocketTidy(ss[i]);
      ss[i := TcpEntry(ss[i].key, Spec.Apply(ss[i].tcp, s))]
    case ReapPass(p) => Survivors(ss, |ss|, p)
    case Terminations => Allowed(ss, |ss|)
  }

  lemma TableStepOk(ss: seq<Session>, step: TableStep)
    requires TableOk(ss) && TableEnabled(ss, step)
    ensures TableOk(TableApply(ss, step))
  {
    hide Spec.Apply, Spec.Sound, Survivors, Allowed;
    match step
    case Arrival(_, _) =>
    case Other(_) =>
    case Changed(_, _) =>
    case TcpStep(i, s) =>
      assert SocketTidy(ss[i]);
      StepNeat(ss[i].tcp, s);
    case ReapPass(p) => SurvivorsTidy(ss, p);
    case Terminations => AllowedOk(ss, |ss|);
  }

  predicate HasKey(s: Session, key: Key) {
    s.TcpEntry? && s.key == key
  }

  /** A packet of an unknown key registers its session in front of all others; one of a known key
      finds the one session that has it. */
  lemma ArrivalRegisters(ss: seq<Session>, key: Key, t: Tcp)
    requires TableOk(ss) && TableEnabled(ss, Arrival(key, t))
    ensures var r := TableApply(ss, Arrival(key, t));
            && HasTcp(r, key)
            && (!HasTcp(ss, key) ==> r == [TcpEntry(key, t)] + ss)
            && (HasTcp(ss, key) ==> r == ss)
            && (forall i, j :: 0 <= i < j < |r| ==> !(HasKey(r[i], key) && HasKey(r[j], key)))
  {
    var r := TableApply(ss, Arrival(key, t));
    hide SocketTidy;
    TableStepOk(ss, Arrival(key, t));
    if !HasTcp(ss, key) {
      assert r[0].key == key;
    }
  }

  predicate TableRun(ss: seq<Session>, steps: seq<TableStep>)
    requires TableOk(ss)
    decreases |steps|
  {
    steps == [] ||
    (TableEnabled(ss, steps[0]) && (TableStepOk(ss, steps[0]); TableRun(TableApply(ss, steps[0]), steps[1..])))
  }

  function AfterTable(ss: seq<Session>, steps: seq<TableStep>): seq<Session>
    requires TableOk(ss) && TableRun(ss, steps)
    decreases |steps|
  {
    if steps == [] then ss else TableStepOk(ss, steps[0]); AfterTable(TableApply(ss, steps[0]), steps[1..])
  }

  /** In every reachable table at most one TCP session has a given key, and every session that is
      finished has a closed socket. */
  lemma {:induction false} TableStaysOk(ss: seq<Session>, steps: seq<TableStep>)
    requires TableOk(ss) && TableRun(ss, steps)
    ensures TableOk(AfterTable(ss, steps))
    decreases |steps|
  {
    hide TableOk, TableEnabled, TableApply;
    if steps != [] {
      TableStepOk(ss, steps[0]);
      TableStaysOk(TableApply(ss, steps[0]), steps[1..]);
    }
  }

  /** No descriptor is lost: from the empty table on, whatever happens, a session that a pass
      deletes has a closed socket. */
  lemma {:induction false} DeletedIsClosed(steps: seq<TableStep>, p: Pass, k: nat)
    requires TableRun([], steps) && p.maxSessions > 0
    requires k < |AfterTable([], steps)| && Deleted(AfterTable([], steps), k, p)
    ensures !SocketOpen(Check(AfterTable([], steps)[k], p, k).0)
  {
    hide TableRun, AfterTable, Check;
    TableStaysOk([], steps);
    CheckTidied(AfterTable([], steps)[k], p, k);
  }

  // ---------------------------------------------------------------- counting and terminating

  /** The sessions that count against the limit. */
  function CountLive(ss: seq<Session>): nat {
    if ss == [] then 0 else (if Live(ss[0]) then 1 else 0) + CountLive(ss[1..])
  }

  lemma {:induction false} CountLiveSnoc(ss: seq<Session>, k: nat)
    requires k < |ss|
    ensures CountLive(ss[..k + 1]) == CountLive(ss[..k]) + if Live(ss[k]) then 1 else 0
  {
    if k > 0 {
      CountLiveSnoc(ss[1..], k - 1);
      assert ss[1..][..k] == ss[..k + 1][1..];
      assert ss[1..][..k - 1] == ss[..k][1..];
    }
  }

  /** What `check_allowed` does to one session: a live one stops being live, keeping its socket,
      its key and its clock; any other is left alone, but for the mark of an ICMP session. */
  lemma TerminatedExactly(s: Session)
    ensures var c := Terminated(s);
            && !Live(c) && SocketOpen(c) == SocketOpen(s) && TimeOf(c) == TimeOf(s)
            && (!Live(s) ==> c == s)
            && (s.UdpSession? && Live(s) ==> c == UdpSession(s.key, s.time, UdpFinishing, s.open))
            && (s.TcpEntry? && Live(s) ==>
                  c.TcpEntry? && c.key == s.key && c.tcp.state.Closing?
                  && |c.tcp.log.emitted| == |s.tcp.log.emitted| + 1)
  {
    hide Spec.PacketFor, Wrap;
  }

  /** The positions among the first n that are not blocked. */
  function Unblocked(ss: seq<Session>, n: nat): seq<nat>
    requires n <= |ss|
  {
    if n == 0 then [] else Unblocked(ss, n - 1) + (if Blocked(ss[n - 1]) then [] else [n - 1])
  }

  /** `check_allowed` drops the blocked sessions and no others, keeps the order, and terminates
      each of the others once. */
  lemma {:induction false} AllowedIsFilter(ss: seq<Session>, n: nat)
    requires n <= |ss|
    ensures var ix, r := Unblocked(ss, n), Allowed(ss, n);
            && |r| == |ix|
            && (forall j :: 0 <= j < |ix| ==> ix[j] < n && !Blocked(ss[ix[j]]) && r[j] == Terminated(ss[ix[j]]))
            && (forall i, j :: 0 <= i < j < |ix| ==> ix[i] < ix[j])
            && (forall k: nat :: k < n && !Blocked(ss[k]) ==> k in ix)
  {
    hide Terminated, Blocked;
    if n > 0 {
      AllowedIsFilter(ss, n - 1);
      var ix, r := Unblocked(ss, n - 1), Allowed(ss, n - 1);
      assert Unblocked(ss, n) == ix + (if Blocked(ss[n - 1]) then [] else [n - 1]);
      assert Allowed(ss, n) == r + (if Blocked(ss[n - 1]) then [] else [Terminated(ss[n - 1])]);
      forall k: nat | k < n && !Blocked(ss[k])
        ensures k in Unblocked(ss, n)
      {
        if k == n - 1 {
          assert Unblocked(ss, n)[|ix|] == k;
        }
      }
    }
  }

  /** The count is the number of live sessions. */
  lemma {:induction false} CountLiveIsNumber(ss: seq<Session>, n: nat)
    requires n <= |ss|
    ensures CountLive(ss[..n]) == |set i: nat | i < n && Live(ss[i])|
  {
    if n > 0 {
      var front := set i: nat | i < n - 1 && Live(ss[i]);
      var whole := set i: nat | i < n && Live(ss[i]);
      CountLiveIsNumber(ss, n - 1);
      CountLiveSnoc(ss, n - 1);
      assert whole == front + if Live(ss[n - 1]) then {n - 1} else {};
    }
  }

  /** After `check_allowed` nothing is live or blocked. */
  lemma {:induction false} NothingLiveAfterCheckAllowed(ss: seq<Session>, n: nat)
    requires n <= |ss|
    ensures forall s :: s in Allowed(ss, n) ==> !Live(s) && !Blocked(s)
  {
    if n > 0 {
      NothingLiveAfterCheckAllowed(ss, n - 1);
    }
  }
}
