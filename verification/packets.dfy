/** The packets that `write_tcp`, `write_udp` and `check_icmp_socket` build, byte by byte. */
module Packets {
  import opened Serial
  import opened TcpTypes
  import opened InternetChecksum
  import opened Octets

  const IPPROTO_TCP: byte := 6
  const IPPROTO_UDP: byte := 17
  const IPDEFTTL: byte := 64

  /** The two ends of a packet; addresses have 4 bytes, or 16 for IPv6. */
  datatype Ends = Ends(v4: bool, from: Bytes, to: Bytes, fromPort: u16, toPort: u16) {
    predicate Valid() {
      |from| == |to| == if v4 then 4 else 16
    }
  }

  // ---------------------------------------------------------------- IP

  function Ip4Header(len: nat, proto: byte, from: Bytes, to: Bytes, check: Bytes): Bytes {
    [0x45, 0] + Be16(len) + [0, 0, 0, 0, IPDEFTTL, proto] + check + from + to
  }

  /** The IP header for `len` bytes of payload. */
  function IpHeader(e: Ends, proto: byte, len: nat): (b: Bytes)
    requires e.Valid()
    ensures |b| == if e.v4 then 20 else 40
  {
    if e.v4 then
      var check := Complement(Checksum(0, Ip4Header(20 + len, proto, e.from, e.to, [0, 0])));
      Ip4Header(20 + len, proto, e.from, e.to, Stored(check))
    else [0x60, 0, 0, 0] + Be16(len) + [proto, IPDEFTTL] + e.from + e.to
  }

  /** The pseudo header as the source lays it out: for IPv6 the addresses are exchanged, and
      the 16-bit length stands at the front of its 32-bit field. */
  function PseudoHeader(e: Ends, proto: byte, len: nat): (b: Bytes)
    requires e.Valid()
    ensures |b| == if e.v4 then 12 else 40
  {
    if e.v4 then e.from + e.to + [0, proto] + Be16(len)
    else e.to + e.from + Be16(len) + [0, 0] + [0, 0, 0, proto]
  }

  /** The pseudo header of RFC 9293 section 3.1 and RFC 8200 section 8.1, from the bytes of a
      received packet. */
  function ReceivedPseudoHeader(v4: bool, packet: Bytes): Bytes
    requires |packet| >= if v4 then 20 else 40
  {
    if v4 then packet[12..16] + packet[16..20] + [0, packet[9]] + Be16(|packet| - 20)
    else packet[8..24] + packet[24..40] + [0, 0] + Be16(|packet| - 40) + [0, 0, 0, packet[6]]
  }

  // ---------------------------------------------------------------- TCP and UDP

  /** A transport header around its check field: the bytes before and after it. */
  datatype Header = Header(pre: Bytes, post: Bytes) {
    predicate Even() {
      |pre| % 2 == 0 && |post| % 2 == 0 && |pre| + 2 + |post| <= 60
    }

    function With(check: Bytes): Bytes {
      pre + check + post
    }
  }

  function Flags(p: Packet): byte {
    (if p.fin then 1 else 0) + (if p.syn then 2 else 0) + (if p.rst then 4 else 0) + (if p.ack then 16 else 0)
  }

  function TcpHeader(e: Ends, p: Packet): (h: Header)
    ensures h.Even() && |h.pre| == 16 && |h.post| == 2
  {
    Header(Be16(e.fromPort) + Be16(e.toPort) + Be32(p.seqNo) + Be32(p.ackNo)
           + [if p.syn then 0x70 else 0x50, Flags(p)] + Be16(p.window), [0, 0])
  }

  /** The options of a SYN; the bytes of the segment size are not interpreted. */
  function TcpOptions(p: Packet, mss: (byte, byte), scale: byte): (b: Bytes)
    ensures |b| == if p.syn then 8 else 0
  {
    if p.syn then [2, 4, mss.0, mss.1, 3, 3, scale, 0] else []
  }

  function UdpHeader(e: Ends, len: nat): (h: Header)
    ensures h.Even() && |h.pre| == 6 && |h.post| == 0
  {
    Header(Be16(e.fromPort) + Be16(e.toPort) + Be16(8 + len), [])
  }

  /** The check computed piece by piece, as the source chains its calls. */
  function ChainedCheck(pseudo: Bytes, h: Header, options: Bytes, data: Bytes): u16 {
    Complement(Checksum(Checksum(Checksum(Checksum(0, pseudo), h.With([0, 0])), options), data))
  }

  function Length(h: Header, options: Bytes, data: Bytes): nat {
    |h.pre| + 2 + |h.post| + |options| + |data|
  }

  /** The finished packet. */
  function Assembled(e: Ends, proto: byte, h: Header, options: Bytes, data: Bytes): Bytes
    requires e.Valid()
  {
    var len := Length(h, options, data);
    IpHeader(e, proto, len)
    + h.With(Stored(ChainedCheck(PseudoHeader(e, proto, len), h, options, data))) + options + data
  }

  function TcpPacket(e: Ends, p: Packet, mss: (byte, byte), scale: byte): Bytes
    requires e.Valid()
  {
    Assembled(e, IPPROTO_TCP, TcpHeader(e, p), TcpOptions(p, mss, scale), p.data)
  }

  function UdpPacket(e: Ends, data: Bytes): Bytes
    requires e.Valid()
  {
    Assembled(e, IPPROTO_UDP, UdpHeader(e, |data|), [], data)
  }

  // ---------------------------------------------------------------- building in place

  /** `memcpy` into a packet buffer. */
  method Copy(buffer: array<byte>, at: nat, src: Bytes)
    requires at + |src| <= buffer.Length
    modifies buffer
    ensures buffer[..] == old(buffer[..at]) + src + old(buffer[at + |src|..])
  {
    var i := 0;
    while i < |src|
      invariant 0 <= i <= |src|
      invariant forall k :: 0 <= k < buffer.Length ==>
                  buffer[k] == if at <= k < at + i then src[k - at] else old(buffer[k])
    {
      buffer[at + i] := src[i];
      i := i + 1;
    }
  }

  /** Allocates a packet and copies its pieces in, the data first. */
  method LayOut(ip: Bytes, header: Bytes, options: Bytes, data: Bytes) returns (buffer: array<byte>)
    ensures fresh(buffer) && buffer[..] == ip + header + options + data
  {
    var at := |ip| + |header|;
    buffer := new byte[at + |options| + |data|];
    Copy(buffer, at + |options|, data);
    ghost var tail := buffer[at + |options|..];
    Copy(buffer, 0, ip);
    assert buffer[at + |options|..] == tail;
    Copy(buffer, |ip|, header);
    assert buffer[at + |options|..] == tail;
    assert buffer[..at] == ip + header;
    Copy(buffer, at, options);
  }

  /** The common part of `write_tcp` and `write_udp`: headers and data are laid out, the check
      is chained over the pieces and stored last. */
  method Assemble(e: Ends, proto: byte, h: Header, options: Bytes, data: Bytes) returns (buffer: array<byte>)
    requires e.Valid()
    ensures fresh(buffer) && buffer[..] == Assembled(e, proto, h, options, data)
  {
    hide Checksum, IpHeader, PseudoHeader, Stored;
    var len := Length(h, options, data);
    var ip := IpHeader(e, proto, len);
    buffer := LayOut(ip, h.With([0, 0]), options, data);
    var csum := CalcChecksum(0, PseudoHeader(e, proto, len));
    csum := CalcChecksum(csum, h.With([0, 0]));
    csum := CalcChecksum(csum, options);
    csum := CalcChecksum(csum, data);
    var check := Stored(Complement(csum));
    CheckPlaced(ip, h, [0, 0], check, options, data);
    Copy(buffer, |ip| + |h.pre|, check);
  }

  /** Overwriting the check field changes the check field. */
  lemma CheckPlaced(ip: Bytes, h: Header, zero: Bytes, check: Bytes, options: Bytes, data: Bytes)
    requires |zero| == |check|
    ensures var b := ip + h.With(zero) + options + data;
            var at := |ip| + |h.pre|;
            b[..at] + check + b[at + |check|..] == ip + h.With(check) + options + data
  {
    var b := ip + h.With(zero) + options + data;
    var at := |ip| + |h.pre|;
    assert b[..at] == ip + h.pre;
    assert b[at + |check|..] == h.post + options + data;
  }

  /** An answer goes from where the client's packets go to where they come from. */
  function Answer(client: Ends): Ends {
    Ends(client.v4, client.to, client.from, client.toPort, client.fromPort)
  }

  method WriteTcp(client: Ends, p: Packet, mss: (byte, byte), scale: byte) returns (buffer: array<byte>)
    requires client.Valid()
    ensures fresh(buffer)
    ensures buffer[..] == TcpPacket(Answer(client), p, mss, scale)
  {
    var e := Answer(client);
    buffer := Assemble(e, IPPROTO_TCP, TcpHeader(e, p), TcpOptions(p, mss, scale), p.data);
  }

  method WriteUdp(client: Ends, data: Bytes) returns (buffer: array<byte>)
    requires client.Valid()
    ensures fresh(buffer)
    ensures buffer[..] == UdpPacket(Answer(client), data)
  {
    var e := Answer(client);
    buffer := Assemble(e, IPPROTO_UDP, UdpHeader(e, |data|), [], data);
  }

  /** Restores the identifier of an ICMP echo reply and its checksum in place. */
  method RestoreIcmpId(buffer: array<byte>, id: u16)
    requires 8 <= buffer.Length <= MAX_BYTES
    modifies buffer
    ensures Checksum(0, buffer[..]) == 0xFFFF
    ensures buffer[..2] == old(buffer[..2]) && buffer[4..6] == Stored(id) && buffer[6..] == old(buffer[6..])
  {
    Copy(buffer, 4, Stored(id));
    Copy(buffer, 2, [0, 0]);
    ghost var pre, post := buffer[..2], buffer[4..];
    assert buffer[..] == pre + [0, 0] + post;
    var csum := CalcChecksum(0, buffer[..]);
    Copy(buffer, 2, Stored(Complement(csum)));
    assert buffer[..] == pre + Stored(Complement(csum)) + post;
    StoredCheckVerifies(pre, pre, post);
  }

  // ---------------------------------------------------------------- verification by the receiver

  /** The four chained calls are one call over the whole. */
  lemma ChainIsWhole(pseudo: Bytes, h: Header, options: Bytes, data: Bytes)
    requires h.Even() && |pseudo| % 2 == 0 && |options| % 2 == 0
    requires |pseudo| + Length(h, options, data) <= MAX_BYTES
    ensures ChainedCheck(pseudo, h, options, data)
            == Complement(Checksum(0, (pseudo + h.pre) + [0, 0] + (h.post + options + data)))
  {
    var z := h.With([0, 0]);
    ChainedChecksum(0, pseudo, z);
    ChainedChecksum(0, pseudo + z, options);
    ChainedChecksum(0, pseudo + z + options, data);
    assert pseudo + z + options + data == (pseudo + h.pre) + [0, 0] + (h.post + options + data);
  }

  /** The source's pseudo header has the same word sum as the one of the receiver. */
  lemma PseudoHeadersAgree(e: Ends, proto: byte, h: Header, options: Bytes, data: Bytes)
    requires e.Valid() && h.Even()
    ensures var len := Length(h, options, data);
            var r := ReceivedPseudoHeader(e.v4, Assembled(e, proto, h, options, data));
            |r| == |PseudoHeader(e, proto, len)| && Words(r) == Words(PseudoHeader(e, proto, len))
  {
    var len := Length(h, options, data);
    var packet := Assembled(e, proto, h, options, data);
    var ip := IpHeader(e, proto, len);
    assert packet[..|ip|] == ip && |packet| == |ip| + len;
    if e.v4 {
      assert packet[12..16] == ip[12..16] == e.from && packet[16..20] == ip[16..20] == e.to;
      assert packet[9] == ip[9] == proto;
    } else {
      assert packet[8..24] == ip[8..24] == e.from && packet[24..40] == ip[24..40] == e.to;
      assert packet[6] == ip[6] == proto;
      Words6(e, proto, len);
    }
  }

  lemma Words6(e: Ends, proto: byte, len: nat)
    requires e.Valid() && !e.v4
    ensures Words(e.from + e.to + [0, 0] + Be16(len) + [0, 0, 0, proto]) == Words(PseudoHeader(e, proto, len))
  {
    var tail: Bytes := [0, 0, 0, proto];
    WordsConcat(e.from, e.to);
    WordsConcat(e.to, e.from);
    WordsConcat(e.from + e.to, [0, 0]);
    WordsConcat(e.from + e.to + [0, 0], Be16(len));
    WordsConcat(e.from + e.to + [0, 0] + Be16(len), tail);
    WordsConcat(e.to + e.from, Be16(len));
    WordsConcat(e.to + e.from + Be16(len), [0, 0]);
    WordsConcat(e.to + e.from + Be16(len) + [0, 0], tail);
  }

  /** Every packet verifies at the receiver: its pseudo header, header with the stored check,
      options and data sum to 0xFFFF, and so does an IPv4 header. */
  lemma PacketVerifies(e: Ends, proto: byte, h: Header, options: Bytes, data: Bytes)
    requires e.Valid() && h.Even() && |options| % 2 == 0
    requires 40 + Length(h, options, data) <= MAX_BYTES
    ensures var packet := Assembled(e, proto, h, options, data);
            var at := if e.v4 then 20 else 40;
            && |packet| == at + Length(h, options, data)
            && Checksum(0, ReceivedPseudoHeader(e.v4, packet) + packet[at..]) == 0xFFFF
            && (e.v4 ==> Checksum(0, packet[..20]) == 0xFFFF)
  {
    hide Checksum, Words, Stored, Complement, ChainedCheck, ReceivedPseudoHeader, PseudoHeader;
    var len := Length(h, options, data);
    var packet := Assembled(e, proto, h, options, data);
    var ip := IpHeader(e, proto, len);
    var pseudo, r := PseudoHeader(e, proto, len), ReceivedPseudoHeader(e.v4, packet);
    PseudoHeadersAgree(e, proto, h, options, data);
    TransportVerifies(pseudo, r, h, options, data);
    var c := Stored(ChainedCheck(pseudo, h, options, data));
    Regroup(r, h.pre, c, h.post, options, data);
    assert packet[|ip|..] == (h.pre + c + h.post) + options + data;
    if e.v4 {
      Ip4HeaderVerifies(20 + len, proto, e.from, e.to);
      assert packet[..20] == ip;
    }
  }

  /** The transport part of a packet verifies with any pseudo header of the same word sum. */
  lemma TransportVerifies(pseudo: Bytes, r: Bytes, h: Header, options: Bytes, data: Bytes)
    requires h.Even() && |options| % 2 == 0 && |pseudo| % 2 == 0
    requires |r| == |pseudo| && Words(r) == Words(pseudo)
    requires |pseudo| + Length(h, options, data) <= MAX_BYTES
    ensures var c := Stored(ChainedCheck(pseudo, h, options, data));
            Checksum(0, (r + h.pre) + c + (h.post + options + data)) == 0xFFFF
  {
    hide Checksum, Words, Stored, Complement, ChainedCheck;
    ChainIsWhole(pseudo, h, options, data);
    WordsConcat(pseudo, h.pre);
    WordsConcat(r, h.pre);
    StoredCheckVerifies(pseudo + h.pre, r + h.pre, h.post + options + data);
  }

  lemma Regroup(r: Bytes, pre: Bytes, c: Bytes, post: Bytes, options: Bytes, data: Bytes)
    ensures r + ((pre + c + post) + options + data) == (r + pre) + c + (post + options + data)
  {
  }

  lemma Ip4HeaderVerifies(len: nat, proto: byte, from: Bytes, to: Bytes)
    requires |from| == |to| == 4
    ensures var c := Complement(Checksum(0, Ip4Header(len, proto, from, to, [0, 0])));
            Checksum(0, Ip4Header(len, proto, from, to, Stored(c))) == 0xFFFF
  {
    var pre: Bytes := [0x45, 0] + Be16(len) + [0, 0, 0, 0, IPDEFTTL, proto];
    var c := Complement(Checksum(0, Ip4Header(len, proto, from, to, [0, 0])));
    StoredCheckVerifies(pre, pre, from + to);
    assert Ip4Header(len, proto, from, to, [0, 0]) == pre + [0, 0] + (from + to);
    assert Ip4Header(len, proto, from, to, Stored(c)) == pre + Stored(c) + (from + to);
  }

  // ---------------------------------------------------------------- a UDP check of zero

  /** Everything the check of a UDP packet covers, as the source sums it. */
  function UdpWords(e: Ends, data: Bytes): nat
    requires e.Valid()
  {
    Words(PseudoHeader(e, IPPROTO_UDP, 8 + |data|)) + Words(UdpHeader(e, |data|).With([0, 0])) + Words(data)
  }

  /** What a receiver does with a UDP packet: over IPv4 a check of 0 says that none was computed
      (RFC 768), over IPv6 it is discarded (section 8.1 of RFC 8200); any other has to verify. */
  predicate UdpAccepted(v4: bool, packet: Bytes)
    requires |packet| >= if v4 then 28 else 48
  {
    var at := if v4 then 20 else 40;
    if packet[at + 6..at + 8] == [0, 0] then v4
    else Checksum(0, ReceivedPseudoHeader(v4, packet) + packet[at..]) == 0xFFFF
  }

  lemma {:induction false} WordsAtLeast(b: Bytes, i: nat)
    requires i < |b|
    ensures Words(b) >= b[i]
  {
    if i >= 2 {
      WordsAtLeast(b[2..], i - 2);
    }
  }

  lemma UdpWordsPositive(e: Ends, data: Bytes)
    requires e.Valid()
    ensures UdpWords(e, data) > 0
  {
    hide Words;
    var b := PseudoHeader(e, IPPROTO_UDP, 8 + |data|);
    assert b[if e.v4 then 9 else 39] == IPPROTO_UDP;
    WordsAtLeast(b, if e.v4 then 9 else 39);
  }

  /** The canonical residue is all ones exactly for the positive multiples of 0xFFFF. */
  lemma CanonicalOnes(n: nat)
    requires n > 0
    ensures Canonical(n) == ONES <==> n % ONES == 0
  {
    var q, r := n / ONES, n % ONES;
    assert n == q * ONES + r;
    if r == 0 {
      ModShift(ONES - 1, q - 1);
    } else {
      ModShift(r - 1, q);
    }
  }

  lemma UdpCheck(e: Ends, data: Bytes)
    requires e.Valid() && 48 + |data| <= MAX_BYTES
    ensures var pseudo := PseudoHeader(e, IPPROTO_UDP, 8 + |data|);
            ChainedCheck(pseudo, UdpHeader(e, |data|), [], data) == 0 <==> UdpWords(e, data) % ONES == 0
  {
    hide Words, PseudoHeader, Canonical;
    var pseudo, h := PseudoHeader(e, IPPROTO_UDP, 8 + |data|), UdpHeader(e, |data|).With([0, 0]);
    ChainedChecksum(0, pseudo, h);
    ChainedChecksum(0, pseudo + h, []);
    ChainedChecksum(0, pseudo + h + [], data);
    assert pseudo + h + [] == pseudo + h;
    ChecksumIsCanonical(0, pseudo + h + data);
    WordsConcat(pseudo, h);
    WordsConcat(pseudo + h, data);
    UdpWordsPositive(e, data);
    CanonicalOnes(UdpWords(e, data));
  }

  /** A UDP packet is accepted by its receiver if and only if it is IPv4 or what its check covers
      does not sum to a multiple of 0xFFFF: then the stored check is 0 and not 0xFFFF. */
  lemma UdpAcceptedExactly(e: Ends, data: Bytes)
    requires e.Valid() && 48 + |data| <= MAX_BYTES
    ensures |UdpPacket(e, data)| == (if e.v4 then 28 else 48) + |data|
    ensures UdpAccepted(e.v4, UdpPacket(e, data)) <==> e.v4 || UdpWords(e, data) % ONES != 0
  {
    hide Words, Checksum, PseudoHeader, ReceivedPseudoHeader, ChainedCheck, IpHeader;
    var h, len := UdpHeader(e, |data|), 8 + |data|;
    PacketVerifies(e, IPPROTO_UDP, h, [], data);
    UdpCheck(e, data);
    var at, c := if e.v4 then 20 else 40, ChainedCheck(PseudoHeader(e, IPPROTO_UDP, len), h, [], data);
    assert |IpHeader(e, IPPROTO_UDP, len)| == at;
    assert UdpPacket(e, data)[at + 6..at + 8] == Stored(c);
    StoredZero(c);
  }

  lemma StoredZero(c: u16)
    ensures Stored(c) == [0, 0] <==> c == 0
  {
  }

  function Zeros(n: nat): Bytes {
    if n == 0 then [] else [0] + Zeros(n - 1)
  }

  lemma {:induction false} WordsZeros(n: nat)
    ensures |Zeros(n)| == n && Words(Zeros(n)) == 0
  {
    if n >= 2 {
      WordsZeros(n - 2);
      assert Zeros(n)[2..] == Zeros(n - 2);
    }
  }

  /** The check does come out as 0: an empty datagram from port 53 to port 65449, all address
      bytes 0, is discarded over IPv6. */
  lemma UdpZeroCheckExample(e: Ends)
    requires e == Ends(false, Zeros(16), Zeros(16), 53, 65449)
    ensures e.Valid() && UdpWords(e, []) == ONES
    ensures |UdpPacket(e, [])| == 48 && !UdpAccepted(false, UdpPacket(e, []))
  {
    hide Words, Zeros, UdpWords, UdpAccepted, UdpPacket;
    WordsZeros(16);
    ExampleWords(e, Zeros(16));
    UdpAcceptedExactly(e, []);
  }

  lemma ExampleWords(e: Ends, z: Bytes)
    requires |z| == 16 && Words(z) == 0
    requires e == Ends(false, z, z, 53, 65449)
    ensures UdpWords(e, []) == ONES
  {
    hide Words, Be16;
    EmptyPseudo(e, z);
    PortWords(e);
    NoWords();
  }

  lemma NoWords()
    ensures Words([]) == 0
  {
  }

  lemma EmptyPseudo(e: Ends, z: Bytes)
    requires |z| == 16 && Words(z) == 0
    requires e == Ends(false, z, z, 53, 65449)
    ensures Words(PseudoHeader(e, IPPROTO_UDP, 8)) == 256 * 8 + 256 * IPPROTO_UDP
  {
    var len: Bytes, tail: Bytes := Be16(8), [0, 0, 0, IPPROTO_UDP];
    assert len == [0, 8];
    hide Words;
    WordsConcat(z, z);
    WordsConcat(z + z, len);
    WordsConcat(z + z + len, [0, 0]);
    WordsConcat(z + z + len + [0, 0], tail);
    TwoBytes(0, 0);
    TwoBytes(0, 8);
    FourBytes(0, 0, 0, IPPROTO_UDP);
  }

  lemma TwoBytes(a: byte, b: byte)
    ensures Words([a, b]) == a + 256 * b
  {
    assert [a, b][2..] == [];
  }

  lemma FourBytes(a: byte, b: byte, c: byte, d: byte)
    ensures Words([a, b, c, d]) == a + 256 * b + c + 256 * d
  {
    assert [a, b, c, d][2..] == [c, d];
    TwoBytes(c, d);
  }

  lemma PortWords(e: Ends)
    requires e.fromPort == 53 && e.toPort == 65449
    ensures Words(UdpHeader(e, 0).With([0, 0])) == 256 * 53 + 255 + 256 * 169 + 256 * 8
  {
    var b := UdpHeader(e, 0).With([0, 0]);
    assert b == [0, 53, 255, 169] + [0, 8, 0, 0];
    WordsConcat([0, 53, 255, 169], [0, 8, 0, 0]);
    FourBytes(0, 53, 255, 169);
    FourBytes(0, 8, 0, 0);
  }

  // ---------------------------------------------------------------- reading packets back

  /** Numbers, window and flags can be read back from the TCP header; the bits of FIN, SYN, RST and
      ACK stand where section 3.1 of RFC 9293 puts them, the others are zero, and the data offset
      counts the options of a SYN. */
  lemma HeaderFieldsReadBack(e: Ends, p: Packet, check: Bytes)
    requires |check| == 2
    ensures var b := TcpHeader(e, p).With(check);
            && |b| == 20 && Number16(b, 0) == e.fromPort && Number16(b, 2) == e.toPort
            && 0x1_0000 * Number16(b, 4) + Number16(b, 6) == p.seqNo
            && 0x1_0000 * Number16(b, 8) + Number16(b, 10) == p.ackNo
            && Number16(b, 14) == p.window && b[12] == 16 * (if p.syn then 7 else 5)
            && FlagsAre(b[13], p) && b[16..18] == check && b[18..20] == [0, 0]
  {
    hide Be16, Flags, FlagsAre, Number16;
    var b := TcpHeader(e, p).With(check);
    assert b[0..2] == Be16(e.fromPort) && b[2..4] == Be16(e.toPort);
    assert b[4..6] == Be16(p.seqNo / 0x1_0000) && b[6..8] == Be16(p.seqNo % 0x1_0000);
    assert b[8..10] == Be16(p.ackNo / 0x1_0000) && b[10..12] == Be16(p.ackNo % 0x1_0000);
    assert b[14..16] == Be16(p.window);
    forall i | 0 <= i < 16
      ensures Number16(b, i) == Number16(b[i..i + 2], 0)
    {
      SliceNumber(b, i);
    }
    FlagBits(p);
  }

  /** The bits of a flag byte, by their values. */
  predicate FlagsAre(f: byte, p: Packet) {
    && (f % 2 == 1 <==> p.fin) && (f / 2 % 2 == 1 <==> p.syn) && (f / 4 % 2 == 1 <==> p.rst)
    && f / 8 % 2 == 0 && (f / 16 % 2 == 1 <==> p.ack) && f / 32 == 0
  }

  lemma FlagBits(p: Packet)
    ensures FlagsAre(Flags(p), p)
  {
  }

  lemma SliceNumber(b: Bytes, i: nat)
    requires i + 1 < |b|
    ensures Number16(b, i) == Number16(b[i..i + 2], 0)
  {
  }

  /** What a receiver reads in an IP header without options or service class, of a packet that is
      no fragment: version, time to live, protocol, ends of the packet, and the payload that the
      length field delimits. */
  datatype Datagram = Datagram(version: nat, ttl: byte, proto: byte, from: Bytes, to: Bytes, payload: Bytes)

  function ReadIp(packet: Bytes): Option<Datagram> {
    if |packet| < 20 then None
    else if packet[0..2] == [0x45, 0] && packet[4..8] == [0, 0, 0, 0] then
      var len := Number16(packet, 2);
      if 20 <= len <= |packet| then
        Some(Datagram(4, packet[8], packet[9], packet[12..16], packet[16..20], packet[20..len]))
      else None
    else if packet[0..4] == [0x60, 0, 0, 0] && |packet| >= 40 then
      var len := Number16(packet, 4);
      if 40 + len <= |packet| then
        Some(Datagram(6, packet[7], packet[6], packet[8..24], packet[24..40], packet[40..40 + len]))
      else None
    else None
  }

  datatype Option<T> = None | Some(value: T)

  /** What a receiver reads in a TCP segment: ports, the header's fields, options and data. */
  function ReadTcp(s: Bytes): Option<(u16, u16, Packet, Bytes)> {
    if |s| < 20 || !(20 <= s[12] / 16 * 4 <= |s|) then None
    else
      var off := s[12] / 16 * 4;
      var p := Packet(0x1_0000 * Number16(s, 4) + Number16(s, 6), 0x1_0000 * Number16(s, 8) + Number16(s, 10),
                      s[13] / 2 % 2 == 1, s[13] / 16 % 2 == 1, s[13] % 2 == 1, s[13] / 4 % 2 == 1,
                      Number16(s, 14), s[off..]);
      Some((Number16(s, 0), Number16(s, 2), p, s[20..off]))
  }

  /** What a receiver reads in a UDP datagram: ports and data, its length field being right. */
  function ReadUdp(s: Bytes): Option<(u16, u16, Bytes)> {
    if |s| < 8 || Number16(s, 4) != |s| then None else Some((Number16(s, 0), Number16(s, 2), s[8..]))
  }

  lemma IpRoundTrip(e: Ends, proto: byte, h: Header, options: Bytes, data: Bytes)
    requires e.Valid() && 20 + Length(h, options, data) < 0x1_0000
    ensures var len := Length(h, options, data);
            var c := Stored(ChainedCheck(PseudoHeader(e, proto, len), h, options, data));
            ReadIp(Assembled(e, proto, h, options, data))
            == Some(Datagram(if e.v4 then 4 else 6, 64, proto, e.from, e.to, h.With(c) + options + data))
  {
    hide ChainedCheck, PseudoHeader, Stored, Checksum, ReadIp;
    var len := Length(h, options, data);
    var c := Stored(ChainedCheck(PseudoHeader(e, proto, len), h, options, data));
    var ip, payload := IpHeader(e, proto, len), h.With(c) + options + data;
    assert Assembled(e, proto, h, options, data) == ip + payload;
    if e.v4 {
      var check := Stored(Complement(Checksum(0, Ip4Header(20 + len, proto, e.from, e.to, [0, 0]))));
      ReadIp4(Ip4Header(20 + len, proto, e.from, e.to, check), payload, proto, e.from, e.to, check);
    } else {
      ReadIp6(ip, payload, proto, e.from, e.to);
    }
  }

  lemma ReadIp4(ip: Bytes, payload: Bytes, proto: byte, from: Bytes, to: Bytes, check: Bytes)
    requires |from| == |to| == 4 && |check| == 2 && 20 + |payload| < 0x1_0000
    requires ip == Ip4Header(20 + |payload|, proto, from, to, check)
    ensures ReadIp(ip + payload) == Some(Datagram(4, 64, proto, from, to, payload))
  {
    hide Number16, Be16;
    var packet := ip + payload;
    SliceNumber(packet, 2);
    assert packet[2..4] == Be16(20 + |payload|) && packet[4..8] == [0, 0, 0, 0];
    assert packet[0..2] == [0x45, 0] && packet[8] == IPDEFTTL && packet[9] == proto;
    assert packet[12..16] == from && packet[16..20] == to && packet[20..20 + |payload|] == payload;
  }

  lemma ReadIp6(ip: Bytes, payload: Bytes, proto: byte, from: Bytes, to: Bytes)
    requires |from| == |to| == 16 && |payload| < 0x1_0000
    requires ip == [0x60, 0, 0, 0] + Be16(|payload|) + [proto, IPDEFTTL] + from + to
    ensures ReadIp(ip + payload) == Some(Datagram(6, 64, proto, from, to, payload))
  {
    hide Number16, Be16;
    var packet := ip + payload;
    SliceNumber(packet, 4);
    assert packet[4..6] == Be16(|payload|) && packet[0..4] == [0x60, 0, 0, 0];
    assert packet[0] == 0x60 && packet[6] == proto && packet[7] == IPDEFTTL;
    assert packet[8..24] == from && packet[24..40] == to && packet[40..40 + |payload|] == payload;
  }

  /** The header in front of options and data reads back, and so do these. */
  lemma TcpSegmentReadBack(e: Ends, p: Packet, check: Bytes, options: Bytes)
    requires |check| == 2 && |options| == if p.syn then 8 else 0
    ensures ReadTcp(TcpHeader(e, p).With(check) + options + p.data) == Some((e.fromPort, e.toPort, p, options))
  {
    hide Flags, Be16, Number16;
    HeaderFieldsReadBack(e, p, check);
    var b := TcpHeader(e, p).With(check);
    var s := b + options + p.data;
    assert s[..20] == b && s[20..20 + |options|] == options && s[20 + |options|..] == p.data;
    forall i | 0 <= i < 16
      ensures Number16(s, i) == Number16(b, i)
    {
      PrefixNumber(b, options + p.data, i);
      assert b + (options + p.data) == s;
    }
    assert s[12] == b[12] && s[13] == b[13];
  }

  lemma PrefixNumber(b: Bytes, rest: Bytes, i: nat)
    requires i + 1 < |b|
    ensures Number16(b + rest, i) == Number16(b, i)
  {
    hide Number16;
    SliceNumber(b, i);
    SliceNumber(b + rest, i);
    assert (b + rest)[i..i + 2] == b[i..i + 2];
  }

  /** TCP round trip: from the bytes that are written in answer to a client its receiver reads
      the client's own ends, exchanged, and every field and byte of the packet; a SYN carries a
      segment size and the window scale, any other packet no options. */
  lemma TcpRoundTrip(client: Ends, p: Packet, mss: (byte, byte), scale: byte)
    requires client.Valid() && 48 + |p.data| < 0x1_0000
    ensures var d := ReadIp(TcpPacket(Answer(client), p, mss, scale));
            && d.Some? && d.value.version == (if client.v4 then 4 else 6) && d.value.proto == 6
            && d.value.from == client.to && d.value.to == client.from
            && var t := ReadTcp(d.value.payload);
               && t.Some? && t.value.0 == client.toPort && t.value.1 == client.fromPort && t.value.2 == p
               && t.value.3 == if p.syn then [2, 4, mss.0, mss.1, 3, 3, scale, 0] else []
  {
    hide ReadIp, ReadTcp, TcpHeader, Assembled, ChainedCheck, PseudoHeader;
    var e, options := Answer(client), TcpOptions(p, mss, scale);
    var h := TcpHeader(e, p);
    IpRoundTrip(e, IPPROTO_TCP, h, options, p.data);
    var c := Stored(ChainedCheck(PseudoHeader(e, IPPROTO_TCP, Length(h, options, p.data)), h, options, p.data));
    TcpSegmentReadBack(e, p, c, options);
  }

  lemma UdpDatagramReadBack(e: Ends, data: Bytes, check: Bytes)
    requires |check| == 2 && 8 + |data| < 0x1_0000
    ensures ReadUdp(UdpHeader(e, |data|).With(check) + [] + data) == Some((e.fromPort, e.toPort, data))
  {
    hide Be16, Number16;
    var b := UdpHeader(e, |data|).With(check);
    var s := b + [] + data;
    assert s[0..2] == Be16(e.fromPort) && s[2..4] == Be16(e.toPort) && s[4..6] == Be16(8 + |data|) && s[8..] == data;
    SliceNumber(s, 0);
    SliceNumber(s, 2);
    SliceNumber(s, 4);
  }

  /** UDP round trip. */
  lemma UdpRoundTrip(client: Ends, data: Bytes)
    requires client.Valid() && 28 + |data| < 0x1_0000
    ensures var d := ReadIp(UdpPacket(Answer(client), data));
            && d.Some? && d.value.version == (if client.v4 then 4 else 6) && d.value.proto == 17
            && d.value.from == client.to && d.value.to == client.from
            && ReadUdp(d.value.payload) == Some((client.toPort, client.fromPort, data))
  {
    hide ReadIp, ReadUdp, UdpHeader, Assembled, ChainedCheck, PseudoHeader;
    var e := Answer(client);
    var h := UdpHeader(e, |data|);
    IpRoundTrip(e, IPPROTO_UDP, h, [], data);
    UdpDatagramReadBack(e, data, Stored(ChainedCheck(PseudoHeader(e, IPPROTO_UDP, Length(h, [], data)), h, [], data)));
  }
}
