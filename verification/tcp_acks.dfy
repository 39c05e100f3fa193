/** What an acknowledgement of the client does: which numbers are taken, and what the session may
    send afterwards. */
module TcpAcks {
  import opened Serial
  import opened TcpTypes
  import opened Powers
  import opened TcpSpec
  import opened TcpInvariant
  import opened TcpSendSide

  /** The segment gets past the checks of `handle_tcp` to its flags. */
  predicate Reached(t: Tcp, p: ClientSegment) {
    && !p.urg && !t.state.Closing? && !t.state.Close?
    && (p.data == [] || (t.socketOpen && !t.state.CloseWait?))
  }

  /** How far an acknowledgement number is ahead of `acked`. */
  function Ahead(b: Back, ackNo: u32): u32 {
    Wrap(ackNo - b.acked)
  }

  /** The acknowledgement is noted: it covers everything outstanding and comes without SYN or
      FIN, or it covers a part of it, but not all except the last number. */
  predicate Noting(t: Tcp, p: ClientSegment) {
    && p.ack && !p.rst
    && var o := Outstanding(t.back);
       if Ahead(t.back, p.ackNo) == o then !p.syn && !p.fin
       else 0 < Ahead(t.back, p.ackNo) < o && Ahead(t.back, p.ackNo) != o - 1
  }

  /** For every segment that gets to its flags: `acked` becomes its number if and only if the
      acknowledgement is noted (or is the one that goes backwards), otherwise it stays; the
      advertised window is the segment's, and nothing else of the send side moves. */
  lemma AckExactly(t: Tcp, p: ClientSegment, e: PacketEvent)
    requires Inv(t) && Reached(t, p) && Outstanding(t.back) <= MAX_WINDOW
    ensures var u := HandleTcp(t, p, e);
            && (u.back.acked == if Noting(t, p) || (p.ack && !p.rst && Backward(t.back, p.ackNo)) then p.ackNo
                                else t.back.acked)
            && u.back.sendWindow == p.window * Pow2(t.sendScale)
            && u.back.localSeq == t.back.localSeq && u.back.received == t.back.received
  {
    hide PacketFor, Insert, CompareU32, Wrap, SendWindow, HandleFin, Pow2;
    if p.ack {
      AheadMeans(t.back, p.ackNo);
      if p.ackNo != t.back.localSeq {
        CompareAhead(t.back, p.ackNo);
      }
    }
    FinKeepsBack(Noted(t, p, e), p, e.written);
  }

  lemma FinKeepsBack(t: Tcp, p: ClientSegment, written: bool)
    ensures HandleFin(t, written).back == t.back
    ensures HandleFin(t.(flow := QueueTcp(t.flow, p)), written).back == t.back
  {
    hide PacketFor, QueueTcp;
  }

  lemma AheadMeans(b: Back, ackNo: u32)
    ensures Ahead(b, ackNo) == Outstanding(b) <==> ackNo == b.localSeq
    ensures Outstanding(b) > 0 ==> (Ahead(b, ackNo) == Outstanding(b) - 1 <==> Wrap(ackNo + 1) == b.localSeq)
    ensures Outstanding(b) == 0 && Wrap(ackNo + 1) == b.localSeq ==> Ahead(b, ackNo) == TWO32 - 1
  {
  }

  /** The two comparisons of `handle_tcp` find exactly the numbers between. */
  lemma CompareAhead(b: Back, ackNo: u32)
    requires Outstanding(b) <= MAX_WINDOW && ackNo != b.localSeq
    ensures CompareU32(ackNo, b.localSeq) < 0 && CompareU32(ackNo, b.acked) > 0
            <==> 0 < Ahead(b, ackNo) < Outstanding(b) || Backward(b, ackNo)
  {
  }

  /** A bare acknowledgement of everything leaves nothing outstanding, and the session may send
      as much as the segment advertises. */
  lemma AckClears(t: Tcp, p: ClientSegment, e: PacketEvent)
    requires Inv(t) && Reached(t, p) && Outstanding(t.back) <= MAX_WINDOW
    requires p.ack && p.ackNo == t.back.localSeq && !p.rst && !p.syn && !p.fin
    ensures var u := HandleTcp(t, p, e);
            u.back.acked == p.ackNo && Outstanding(u.back) == 0 && SendWindow(u.back) == p.window * Pow2(t.sendScale)
  {
    hide HandleTcp, Pow2;
    AheadMeans(t.back, p.ackNo);
    AckExactly(t, p, e);
    SendWindowIsRemainder(HandleTcp(t, p, e).back);
  }
}
