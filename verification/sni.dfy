/** `parse_tls_header` and its helpers (tls.c): the server name of a TLS ClientHello, in the
    layout of section 7.4.1.2 of RFC 5246 and section 3 of RFC 6066. */
module Sni {
  import opened Serial
  import opened Octets

  const TLS_HEADER_LEN := 5
  const FQDN_MAX := 255

  datatype Option<T> = None | Some(value: T)

  /** The C string at the front of a buffer: its bytes before the first NUL. */
  function Text(b: Bytes): Bytes {
    if b == [] || b[0] == 0 then [] else [b[0]] + Text(b[1..])
  }

  function Cut(len: nat): nat {
    if len < FQDN_MAX then len else FQDN_MAX
  }

  // ---------------------------------------------------------------- what the parser finds

  /** `parse_server_name_extension` from position pos: the host name it writes, if any. */
  function ServerNameAt(d: Bytes, pos: nat): Option<Bytes>
    decreases |d| - pos
  {
    if pos + 3 >= |d| then None
    else
      var len := Number16(d, pos + 1);
      if pos + 3 + len > |d| then None
      else if d[pos] == 0 then Some(Text(d[pos + 3..pos + 3 + Cut(len)]))
      else ServerNameAt(d, pos + 3 + len)
  }

  /** `parse_extensions` from position pos. */
  function ExtensionsAt(d: Bytes, pos: nat): Option<Bytes>
    decreases |d| - pos
  {
    if pos + 4 > |d| then None
    else
      var len := Number16(d, pos + 2);
      if d[pos] == 0 && d[pos + 1] == 0 then
        if pos + 4 + len > |d| then None else ServerNameAt(d[pos + 4..pos + 4 + len], 2)
      else ExtensionsAt(d, pos + 4 + len)
  }

  /** The parts of `parse_tls_header` on a complete record, each from its position. */
  function ExtensionBlock(d: Bytes, pos: nat): Option<Bytes> {
    if pos + 2 > |d| then None
    else
      var len := Number16(d, pos);
      if pos + 2 + len > |d| then None else ExtensionsAt(d[pos + 2..pos + 2 + len], 0)
  }

  function Compression(d: Bytes, pos: nat): Option<Bytes>
    requires |d| >= TLS_HEADER_LEN
  {
    if pos + 1 > |d| then None
    else
      var next := pos + 1 + d[pos];
      if next == |d| && d[1] == 3 && d[2] == 0 then None else ExtensionBlock(d, next)
  }

  function Ciphers(d: Bytes, pos: nat): Option<Bytes>
    requires |d| >= TLS_HEADER_LEN
  {
    if pos + 2 > |d| then None else Compression(d, pos + 2 + Number16(d, pos))
  }

  function SessionId(d: Bytes, pos: nat): Option<Bytes>
    requires |d| >= TLS_HEADER_LEN
  {
    if pos + 1 > |d| then None else Ciphers(d, pos + 1 + d[pos])
  }

  function Handshake(d: Bytes): Option<Bytes>
    requires |d| >= TLS_HEADER_LEN
  {
    if |d| < TLS_HEADER_LEN + 1 || d[TLS_HEADER_LEN] != 1 then None else SessionId(d, TLS_HEADER_LEN + 38)
  }

  /** `parse_tls_header`. */
  function ParseTls(data: Bytes): Option<Bytes> {
    if |data| < TLS_HEADER_LEN || (data[0] >= 0x80 && data[2] == 1) || data[0] != 0x16 || data[1] < 3 then None
    else
      var len := Number16(data, 3) + TLS_HEADER_LEN;
      if |data| < len then None else Handshake(data[..len])
  }

  // ---------------------------------------------------------------- the parser in place

  lemma {:induction false} TextOfPadded(b: Bytes, buffer: Bytes, len: nat)
    requires |b| == len < |buffer| && buffer[len] == 0
    requires forall i :: 0 <= i < len ==> buffer[i] == if i < |Text(b)| then b[i] else 0
    ensures Text(buffer) == Text(b)
  {
    if len > 0 && b[0] != 0 {
      assert Text(b) == [b[0]] + Text(b[1..]);
      forall i | 0 <= i < len - 1
        ensures buffer[1..][i] == if i < |Text(b[1..])| then b[1..][i] else 0
      {
        assert buffer[i + 1] == if i + 1 < |Text(b)| then b[i + 1] else 0;
      }
      TextOfPadded(b[1..], buffer[1..], len - 1);
    }
  }

  lemma {:induction false} TextAt(b: Bytes, i: nat)
    requires i <= |Text(b)|
    ensures |Text(b)| <= |b|
    ensures i < |Text(b)| ==> Text(b)[i] == b[i] && b[i] != 0
    ensures i == |Text(b)| < |b| ==> b[i] == 0
  {
    if b != [] && b[0] != 0 {
      if i > 0 {
        TextAt(b[1..], i - 1);
      } else {
        TextAt(b[1..], 0);
      }
    }
  }

  /** `strncpy` of len bytes followed by the terminating NUL. */
  method CopyName(data: Bytes, at: nat, len: nat, hostname: array<byte>)
    requires at + len <= |data| && len < hostname.Length
    modifies hostname
    ensures Text(hostname[..]) == Text(data[at..at + len])
  {
    ghost var b := data[at..at + len];
    var i := 0;
    TextAt(b, 0);
    while i < len && data[at + i] != 0
      invariant 0 <= i <= |Text(b)| <= len
      invariant forall j :: 0 <= j < i ==> hostname[j] == b[j]
    {
      hostname[i] := data[at + i];
      TextAt(b, i);
      i := i + 1;
    }
    TextAt(b, i);
    while i < len
      invariant |Text(b)| <= i <= len
      invariant forall j :: 0 <= j < i ==> hostname[j] == if j < |Text(b)| then b[j] else 0
    {
      hostname[i] := 0;
      i := i + 1;
    }
    hostname[len] := 0;
    TextOfPadded(b, hostname[..], len);
  }

  /** What a parse leaves in the host name buffer. */
  predicate Wrote(before: Bytes, now: Bytes, r: Option<Bytes>) {
    if r.None? then now == before else Text(now) == r.value
  }

  lemma SliceOfSlice(data: Bytes, start: nat, len: nat, a: nat, b: nat)
    requires start + len <= |data| && a <= b <= len
    ensures data[start..start + len][a..b] == data[start + a..start + b]
  {
    var x, y := data[start..start + len][a..b], data[start + a..start + b];
    assert forall i :: 0 <= i < b - a ==> x[i] == y[i];
  }

  method ParseServerNameExtension(data: Bytes, start: nat, dataLen: nat, hostname: array<byte>)
    requires start + dataLen <= |data| && hostname.Length > FQDN_MAX
    modifies hostname
    ensures Wrote(old(hostname[..]), hostname[..], ServerNameAt(data[start..start + dataLen], 2))
  {
    ghost var d := data[start..start + dataLen];
    var pos := 2;
    while pos + 3 < dataLen
      invariant ServerNameAt(d, pos) == ServerNameAt(d, 2)
      invariant hostname[..] == old(hostname[..])
      decreases dataLen - pos
    {
      var len := Number16(data, start + pos + 1);
      assert len == Number16(d, pos + 1) && d[pos] == data[start + pos];
      if pos + 3 + len > dataLen {
        return;
      }
      if data[start + pos] == 0 {
        SliceOfSlice(data, start, dataLen, pos + 3, pos + 3 + Cut(len));
        CopyName(data, start + pos + 3, Cut(len), hostname);
        return;
      }
      pos := pos + 3 + len;
    }
  }

  method ParseExtensions(data: Bytes, start: nat, dataLen: nat, hostname: array<byte>)
    requires start + dataLen <= |data| && hostname.Length > FQDN_MAX
    modifies hostname
    ensures Wrote(old(hostname[..]), hostname[..], ExtensionsAt(data[start..start + dataLen], 0))
  {
    ghost var d := data[start..start + dataLen];
    var pos := 0;
    while pos + 4 <= dataLen
      invariant ExtensionsAt(d, pos) == ExtensionsAt(d, 0)
      invariant hostname[..] == old(hostname[..])
      decreases dataLen - pos
    {
      var len := Number16(data, start + pos + 2);
      assert len == Number16(d, pos + 2) && d[pos] == data[start + pos] && d[pos + 1] == data[start + pos + 1];
      if data[start + pos] == 0 && data[start + pos + 1] == 0 {
        if pos + 4 + len > dataLen {
          return;
        }
        SliceOfSlice(data, start, dataLen, pos + 4, pos + 4 + len);
        ParseServerNameExtension(data, start + pos + 4, len, hostname);
        return;
      }
      pos := pos + 4 + len;
    }
  }

  /** Terminates and stays inside the payload on every input. */
  method ParseTlsHeader(data: Bytes, hostname: array<byte>)
    requires hostname.Length > FQDN_MAX
    modifies hostname
    ensures Wrote(old(hostname[..]), hostname[..], ParseTls(data))
  {
    hide ExtensionsAt;
    if |data| < TLS_HEADER_LEN || (data[0] >= 0x80 && data[2] == 1) || data[0] != 0x16 || data[1] < 3 {
      return;
    }
    var len := Number16(data, 3) + TLS_HEADER_LEN;
    var dataLen := if |data| < len then |data| else len;
    if dataLen < len {
      return;
    }
    ParseHandshake(data, dataLen, hostname);
  }

  /** Skips the fixed fields and the session id; None where the source returns. */
  method SkipSessionId(data: Bytes, dataLen: nat) returns (r: Option<nat>)
    requires TLS_HEADER_LEN <= dataLen <= |data|
    ensures Handshake(data[..dataLen]) == if r.None? then None else Ciphers(data[..dataLen], r.value)
  {
    hide Ciphers;
    var pos := TLS_HEADER_LEN;
    if pos + 1 > dataLen || data[pos] != 1 {
      return None;
    }
    pos := pos + 38;
    if pos + 1 > dataLen {
      return None;
    }
    return Some(pos + 1 + data[pos]);
  }

  /** Skips the cipher suites and the compression methods. */
  method SkipCiphers(data: Bytes, dataLen: nat, start: nat) returns (r: Option<nat>)
    requires TLS_HEADER_LEN <= dataLen <= |data|
    ensures Ciphers(data[..dataLen], start) == if r.None? then None else ExtensionBlock(data[..dataLen], r.value)
  {
    hide ExtensionBlock;
    var pos := start;
    if pos + 2 > dataLen {
      return None;
    }
    PrefixNumber(data, dataLen, pos);
    pos := pos + 2 + Number16(data, pos);
    if pos + 1 > dataLen {
      return None;
    }
    pos := pos + 1 + data[pos];
    if pos == dataLen && data[1] == 3 && data[2] == 0 {
      return None;
    }
    return Some(pos);
  }

  /** The rest of `parse_tls_header`, on a complete record. */
  method ParseHandshake(data: Bytes, dataLen: nat, hostname: array<byte>)
    requires TLS_HEADER_LEN <= dataLen <= |data| && hostname.Length > FQDN_MAX
    modifies hostname
    ensures Wrote(old(hostname[..]), hostname[..], Handshake(data[..dataLen]))
  {
    hide Handshake, Ciphers, ExtensionsAt;
    var next := SkipSessionId(data, dataLen);
    if next.None? {
      return;
    }
    next := SkipCiphers(data, dataLen, next.value);
    if next.None? || next.value + 2 > dataLen {
      return;
    }
    var pos := next.value;
    PrefixNumber(data, dataLen, pos);
    var len := Number16(data, pos);
    pos := pos + 2;
    if pos + len > dataLen {
      return;
    }
    SliceOfSlice(data, 0, dataLen, pos, pos + len);
    ParseExtensions(data, pos, len, hostname);
  }

  lemma PrefixNumber(data: Bytes, n: nat, pos: nat)
    requires pos + 1 < n <= |data|
    ensures Number16(data[..n], pos) == Number16(data, pos)
  {
  }

  // ---------------------------------------------------------------- encoding

  /** An entry of the server name list; kind 0 is a host name. */
  datatype Name = Name(kind: byte, name: Bytes)

  datatype Extension = Extension(kind0: byte, kind1: byte, body: Bytes)

  /** A ClientHello with its record version. `before` are the extensions in front of
      server_name, `after` is whatever follows it. */
  datatype Hello = Hello(
    major: byte, minor: byte, length: Bytes, version: Bytes, random: Bytes,
    sessionId: Bytes, ciphers: Bytes, compression: Bytes,
    before: seq<Extension>, names: seq<Name>, after: Bytes)

  function EncodeName(n: Name): Bytes
    requires |n.name| < 0x1_0000
  {
    [n.kind] + Be16(|n.name|) + n.name
  }

  predicate NamesOk(names: seq<Name>) {
    forall i :: 0 <= i < |names| ==> |names[i].name| < 0x1_0000
  }

  function EncodeNames(names: seq<Name>): Bytes
    requires NamesOk(names)
  {
    if names == [] then [] else EncodeName(names[0]) + EncodeNames(names[1..])
  }

  function EncodeExtension(e: Extension): Bytes
    requires |e.body| < 0x1_0000
  {
    [e.kind0, e.kind1] + Be16(|e.body|) + e.body
  }

  /** Extensions of any type but server_name. */
  predicate ExtensionsOk(es: seq<Extension>) {
    forall i :: 0 <= i < |es| ==> |es[i].body| < 0x1_0000 && !(es[i].kind0 == 0 && es[i].kind1 == 0)
  }

  function EncodeExtensions(es: seq<Extension>): Bytes
    requires ExtensionsOk(es)
  {
    if es == [] then [] else EncodeExtension(es[0]) + EncodeExtensions(es[1..])
  }

  /** The body of the server_name extension. */
  function ServerNameBody(names: seq<Name>): Bytes
    requires NamesOk(names) && |EncodeNames(names)| < 0x1_0000
  {
    Be16(|EncodeNames(names)|) + EncodeNames(names)
  }

  function EncodeBlock(h: Hello): Bytes
    requires NamesOk(h.names) && ExtensionsOk(h.before) && |EncodeNames(h.names)| < 0xFFFE
  {
    EncodeExtensions(h.before) + (EncodeExtension(Extension(0, 0, ServerNameBody(h.names))) + h.after)
  }

  /** The sizes that the formats allow, and a whole hello in one record. */
  predicate HelloOk(h: Hello) {
    && h.major >= 3 && |h.length| == 3 && |h.version| == 2 && |h.random| == 32
    && |h.sessionId| < 0x100 && |h.ciphers| < 0x1_0000 && |h.compression| < 0x100
    && NamesOk(h.names) && ExtensionsOk(h.before) && |EncodeNames(h.names)| < 0xFFFE
    && |EncodeBlock(h)| < 0x1_0000
    && |EncodeHandshake(h)| < 0x1_0000
  }

  function EncodeHandshake(h: Hello): Bytes
    requires |h.sessionId| < 0x100 && |h.ciphers| < 0x1_0000 && |h.compression| < 0x100
    requires NamesOk(h.names) && ExtensionsOk(h.before) && |EncodeNames(h.names)| < 0xFFFE
    requires |EncodeBlock(h)| < 0x1_0000
  {
    [1] + h.length + h.version + h.random
    + ([|h.sessionId|] + h.sessionId)
    + (Be16(|h.ciphers|) + h.ciphers)
    + ([|h.compression|] + h.compression)
    + (Be16(|EncodeBlock(h)|) + EncodeBlock(h))
  }

  function EncodeRecord(h: Hello): Bytes
    requires HelloOk(h)
  {
    [0x16, h.major, h.minor] + Be16(|EncodeHandshake(h)|) + EncodeHandshake(h)
  }

  // ---------------------------------------------------------------- round trip

  /** The host name buffer after a parse that started with an empty one. */
  function Found(r: Option<Bytes>): Bytes {
    if r.None? then [] else r.value
  }

  /** The first host name of the list, cut to 255 bytes and to its first NUL. */
  function FirstHostName(names: seq<Name>): Bytes {
    if names == [] then []
    else if names[0].kind == 0 then Text(names[0].name[..Cut(|names[0].name|)])
    else FirstHostName(names[1..])
  }

  /** The loop writes a name: the list has a host name, and it does not end in an empty one. */
  predicate WritesName(names: seq<Name>) {
    names != [] && if names[0].kind == 0 then names[0].name != [] || |names| > 1 else WritesName(names[1..])
  }

  lemma NumberAt(pre: Bytes, b: Bytes, post: Bytes)
    requires |b| == 2
    ensures Number16(pre + b + post, |pre|) == Number16(b, 0)
  {
  }

  /** A name entry read back at its place. */
  lemma NameStep(d: Bytes, pre: Bytes, n: Name, rest: Bytes)
    requires |n.name| < 0x1_0000 && d == pre + EncodeName(n) + rest
    ensures |pre| + 3 + |n.name| <= |d| && d[|pre|] == n.kind
    ensures Number16(d, |pre| + 1) == |n.name|
    ensures d[|pre| + 3..|pre| + 3 + Cut(|n.name|)] == n.name[..Cut(|n.name|)]
  {
    var len := |n.name|;
    assert d == (pre + [n.kind]) + Be16(len) + (n.name + rest);
    NumberAt(pre + [n.kind], Be16(len), n.name + rest);
  }

  lemma {:induction false} NamesRoundTrip(pre: Bytes, names: seq<Name>)
    requires NamesOk(names)
    ensures Found(ServerNameAt(pre + EncodeNames(names), |pre|)) == FirstHostName(names)
    ensures ServerNameAt(pre + EncodeNames(names), |pre|).Some? <==> WritesName(names)
    decreases |names|
  {
    hide Number16, EncodeName, Cut, Text;
    var d := pre + EncodeNames(names);
    if names != [] {
      var n := names[0];
      var next := pre + EncodeName(n);
      assert d == next + EncodeNames(names[1..]);
      NameStep(d, pre, n, EncodeNames(names[1..]));
      NamesRoundTrip(next, names[1..]);
      NameLength(n);
      NamesLength(names[1..]);
      EmptyText();
    }
  }

  lemma NamesLength(names: seq<Name>)
    requires NamesOk(names)
    ensures names == [] <==> |EncodeNames(names)| == 0
    ensures names != [] ==> |EncodeNames(names)| >= 3
  {
  }

  lemma NameLength(n: Name)
    requires |n.name| < 0x1_0000
    ensures |EncodeName(n)| == 3 + |n.name|
    ensures |n.name| == 0 ==> Cut(|n.name|) == 0
  {
  }

  lemma EmptyText()
    ensures Text([]) == []
  {
  }

  /** An extension read back at its place. */
  lemma ExtensionStep(d: Bytes, pre: Bytes, e: Extension, rest: Bytes)
    requires |e.body| < 0x1_0000 && d == pre + EncodeExtension(e) + rest
    ensures |pre + EncodeExtension(e)| == |pre| + 4 + |e.body| <= |d|
    ensures d[|pre|] == e.kind0 && d[|pre| + 1] == e.kind1
    ensures Number16(d, |pre| + 2) == |e.body|
    ensures d[|pre| + 4..|pre| + 4 + |e.body|] == e.body
  {
    var kind := [e.kind0, e.kind1];
    assert d == (pre + kind) + Be16(|e.body|) + (e.body + rest);
    NumberAt(pre + kind, Be16(|e.body|), e.body + rest);
  }

  lemma {:induction false} ExtensionsRoundTrip(pre: Bytes, es: seq<Extension>, names: seq<Name>, after: Bytes)
    requires ExtensionsOk(es) && NamesOk(names) && |EncodeNames(names)| < 0xFFFE
    ensures var sni := EncodeExtension(Extension(0, 0, ServerNameBody(names)));
            Found(ExtensionsAt(pre + (EncodeExtensions(es) + (sni + after)), |pre|)) == FirstHostName(names)
    decreases |es|
  {
    hide Number16, EncodeExtension, ServerNameAt;
    var e := Extension(0, 0, ServerNameBody(names));
    var d := pre + (EncodeExtensions(es) + (EncodeExtension(e) + after));
    if es == [] {
      assert d == pre + EncodeExtension(e) + after;
      ExtensionStep(d, pre, e, after);
      NamesRoundTrip(Be16(|EncodeNames(names)|), names);
    } else {
      var rest := EncodeExtensions(es[1..]) + (EncodeExtension(e) + after);
      assert d == pre + EncodeExtension(es[0]) + rest;
      ExtensionStep(d, pre, es[0], rest);
      ExtensionsRoundTrip(pre + EncodeExtension(es[0]), es[1..], names, after);
    }
  }

  lemma BlockStep(d: Bytes, pre: Bytes, n: Bytes, block: Bytes)
    requires |n| == 2 && Number16(n, 0) == |block| && d == pre + n + block
    ensures ExtensionBlock(d, |pre|) == ExtensionsAt(block, 0)
  {
    hide ExtensionsAt;
    NumberAt(pre, n, block);
    assert d[|pre| + 2..|pre| + 2 + |block|] == block;
  }

  lemma CompressionStep(d: Bytes, pre: Bytes, c: Bytes, post: Bytes)
    requires |pre| >= TLS_HEADER_LEN && |c| < 0x100 && post != [] && d == pre + ([|c|] + c) + post
    ensures Compression(d, |pre|) == ExtensionBlock(d, |pre| + 1 + |c|)
  {
  }

  lemma CiphersStep(d: Bytes, pre: Bytes, c: Bytes, post: Bytes)
    requires |pre| >= TLS_HEADER_LEN && |c| < 0x1_0000 && d == pre + (Be16(|c|) + c) + post
    ensures Ciphers(d, |pre|) == Compression(d, |pre| + 2 + |c|)
  {
    assert d == pre + Be16(|c|) + (c + post);
    NumberAt(pre, Be16(|c|), c + post);
  }

  lemma SessionIdStep(d: Bytes, pre: Bytes, c: Bytes, post: Bytes)
    requires |pre| >= TLS_HEADER_LEN && |c| < 0x100 && d == pre + ([|c|] + c) + post
    ensures SessionId(d, |pre|) == Ciphers(d, |pre| + 1 + |c|)
  {
  }

  lemma Regroup(f: Bytes, a: Bytes, b: Bytes, c: Bytes, n: Bytes, block: Bytes)
    ensures var d := f + a + b + c + (n + block);
            && d == f + a + (b + c + (n + block)) && d == (f + a) + b + (c + (n + block))
            && d == (f + a + b) + c + (n + block) && d == (f + a + b + c) + n + block
  {
    assert f + a + b + c + (n + block) == f + a + (b + c + (n + block));
    assert f + a + b + c + (n + block) == (f + a) + b + (c + (n + block));
  }

  /** The fields behind the fixed part of a hello are skipped one by one. */
  lemma SkipToBlock(fixed: Bytes, sid: Bytes, ciphers: Bytes, compression: Bytes, block: Bytes)
    requires |fixed| >= TLS_HEADER_LEN && |sid| < 0x100 && |ciphers| < 0x1_0000
    requires |compression| < 0x100 && |block| < 0x1_0000
    ensures SessionId(fixed + ([|sid|] + sid) + (Be16(|ciphers|) + ciphers) + ([|compression|] + compression)
                      + (Be16(|block|) + block), |fixed|)
            == ExtensionsAt(block, 0)
  {
    hide SessionId, Ciphers, Compression, ExtensionBlock, ExtensionsAt, Number16, Be16;
    var a, b, c := [|sid|] + sid, Be16(|ciphers|) + ciphers, [|compression|] + compression;
    var n := Be16(|block|);
    var d := fixed + a + b + c + (n + block);
    Regroup(fixed, a, b, c, n, block);
    SessionIdStep(d, fixed, sid, b + c + (n + block));
    CiphersStep(d, fixed + a, ciphers, c + (n + block));
    CompressionStep(d, fixed + a + b, compression, n + block);
    BlockStep(d, fixed + a + b + c, n, block);
  }

  /** The record layer and the handshake type lead to the session id. */
  lemma RecordStep(h: Hello, rest: Bytes)
    requires HelloOk(h)
    ensures ParseTls(EncodeRecord(h) + rest) == SessionId(EncodeRecord(h), TLS_HEADER_LEN + 38)
  {
    hide SessionId, EncodeHandshake, Number16, Be16;
    var hs, record := EncodeHandshake(h), EncodeRecord(h);
    var data, front := record + rest, [0x16, h.major, h.minor];
    assert data == front + Be16(|hs|) + (hs + rest);
    NumberAt(front, Be16(|hs|), hs + rest);
    assert data[..|hs| + TLS_HEADER_LEN] == record;
    HandshakeType(h);
    assert record[TLS_HEADER_LEN] == hs[0];
  }

  lemma HandshakeType(h: Hello)
    requires HelloOk(h)
    ensures EncodeHandshake(h) != [] && EncodeHandshake(h)[0] == 1
  {
    var e := EncodeHandshake(h);
    assert e[0] == 1;
  }

  lemma Prepend(front: Bytes, f: Bytes, a: Bytes, b: Bytes, c: Bytes, z: Bytes)
    ensures front + (f + a + b + c + z) == (front + f) + a + b + c + z
  {
  }

  /** SNI round trip: for every ClientHello in one complete record, whatever the session id,
      cipher list, compression list, other extensions and following bytes, the parser leaves
      the first host name, cut to 255 bytes, in the host name buffer. */
  lemma SniRoundTrip(h: Hello, rest: Bytes)
    requires HelloOk(h)
    ensures Found(ParseTls(EncodeRecord(h) + rest)) == FirstHostName(h.names)
  {
    hide ParseTls, SessionId, ExtensionsAt, FirstHostName, EncodeBlock;
    var hs, block := EncodeHandshake(h), EncodeBlock(h);
    var front := [0x16, h.major, h.minor] + Be16(|hs|);
    var fixed := [1] + h.length + h.version + h.random;
    RecordStep(h, rest);
    Prepend(front, fixed, [|h.sessionId|] + h.sessionId, Be16(|h.ciphers|) + h.ciphers,
            [|h.compression|] + h.compression, Be16(|block|) + block);
    SkipToBlock(front + fixed, h.sessionId, h.ciphers, h.compression, block);
    BlockRoundTrip(h);
  }

  lemma BlockRoundTrip(h: Hello)
    requires HelloOk(h)
    ensures Found(ExtensionsAt(EncodeBlock(h), 0)) == FirstHostName(h.names)
  {
    hide ExtensionsAt, FirstHostName;
    ExtensionsRoundTrip([], h.before, h.names, h.after);
    assert [] + EncodeBlock(h) == EncodeBlock(h);
  }

  /** A host name without NUL and of at most 255 bytes comes back whole. */
  lemma WholeNameComesBack(h: Hello, rest: Bytes)
    requires HelloOk(h) && h.names != [] && h.names[0].kind == 0
    requires |h.names[0].name| <= 255 && 0 !in h.names[0].name
    ensures Found(ParseTls(EncodeRecord(h) + rest)) == h.names[0].name
  {
    SniRoundTrip(h, rest);
    TextWithoutNul(h.names[0].name);
    assert h.names[0].name[..|h.names[0].name|] == h.names[0].name;
  }

  /** The sizes can be met for every host name of at most 255 bytes without NUL, and the parser
      finds it. */
  lemma EveryNameHasAHello(name: Bytes, random: Bytes) returns (h: Hello)
    requires |name| <= FQDN_MAX && 0 !in name && |random| == 32
    ensures HelloOk(h) && Found(ParseTls(EncodeRecord(h))) == name
  {
    h := Hello(3, 1, [0, 0, 0], [3, 3], random, [], [0, 0x2F], [0], [], [Name(0, name)], []);
    SmallHello(h, name);
    WholeNameComesBack(h, []);
    assert EncodeRecord(h) + [] == EncodeRecord(h);
  }

  lemma SmallHello(h: Hello, name: Bytes)
    requires |name| <= FQDN_MAX && |h.random| == 32
    requires h == Hello(3, 1, [0, 0, 0], [3, 3], h.random, [], [0, 0x2F], [0], [], [Name(0, name)], [])
    ensures HelloOk(h)
  {
    assert EncodeNames(h.names[1..]) == [];
    assert |EncodeNames(h.names)| == 3 + |name|;
    assert |EncodeBlock(h)| == 9 + |name|;
    assert |EncodeHandshake(h)| == 56 + |name|;
  }

  lemma {:induction false} TextWithoutNul(b: Bytes)
    requires 0 !in b
    ensures Text(b) == b
  {
    if b != [] {
      TextWithoutNul(b[1..]);
    }
  }

  // ---------------------------------------------------------------- soundness

  /** Two bytes are the encoding of the number they spell. */
  lemma SpelledNumber(d: Bytes, pos: nat)
    requires pos + 1 < |d|
    ensures Number16(d, pos) < 0x1_0000 && Be16(Number16(d, pos)) == d[pos..pos + 2]
  {
  }

  predicate NoHostName(names: seq<Name>) {
    NamesOk(names) && forall i :: 0 <= i < |names| ==> names[i].kind != 0
  }

  /** The bytes at the front of a name list that fits are an encoded entry. */
  lemma EntryAt(d: Bytes, pos: nat)
    requires pos + 3 < |d| && pos + 3 + Number16(d, pos + 1) <= |d|
    ensures var n := d[pos + 3..pos + 3 + Number16(d, pos + 1)];
            && |n| < 0x1_0000 && d[pos..] == EncodeName(Name(d[pos], n)) + d[pos + 3 + |n|..]
            && Cut(|n|) <= |n| && n[..Cut(|n|)] == d[pos + 3..pos + 3 + Cut(|n|)]
  {
    hide Number16, Be16;
    var len := Number16(d, pos + 1);
    var n := d[pos + 3..pos + 3 + len];
    SpelledNumber(d, pos + 1);
    assert d[pos..] == ([d[pos]] + d[pos + 1..pos + 3] + n) + d[pos + 3 + len..];
    SliceOfSlice(d, pos + 3, len, 0, Cut(len));
  }

  /** A name that the loop finds is the first host name of a well-formed list. */
  lemma {:induction false} NamesSound(d: Bytes, pos: nat) returns (skipped: seq<Name>, name: Bytes, rest: Bytes)
    requires ServerNameAt(d, pos).Some?
    ensures pos <= |d| && NoHostName(skipped) && |name| < 0x1_0000
    ensures d[pos..] == EncodeNames(skipped) + (EncodeName(Name(0, name)) + rest)
    ensures Cut(|name|) <= |name| && ServerNameAt(d, pos).value == Text(name[..Cut(|name|)])
    decreases |d| - pos
  {
    hide Number16, Be16, Text, Cut, EncodeName;
    var len := Number16(d, pos + 1);
    var n := d[pos + 3..pos + 3 + len];
    EntryAt(d, pos);
    if d[pos] == 0 {
      skipped, name, rest := [], n, d[pos + 3 + len..];
    } else {
      var more;
      more, name, rest := NamesSound(d, pos + 3 + len);
      skipped := [Name(d[pos], n)] + more;
      assert skipped[1..] == more;
      assert EncodeNames(skipped) == EncodeName(skipped[0]) + EncodeNames(more);
    }
  }

  /** The bytes at the front of an extension list that fits are an encoded extension. */
  lemma ExtensionBytesAt(d: Bytes, pos: nat)
    requires pos + 4 <= |d| && pos + 4 + Number16(d, pos + 2) <= |d|
    ensures var b := d[pos + 4..pos + 4 + Number16(d, pos + 2)];
            |b| < 0x1_0000 && d[pos..] == EncodeExtension(Extension(d[pos], d[pos + 1], b)) + d[pos + 4 + |b|..]
  {
    hide Number16, Be16;
    var len := Number16(d, pos + 2);
    SpelledNumber(d, pos + 2);
    var b := d[pos + 4..pos + 4 + len];
    assert d[pos..] == ([d[pos], d[pos + 1]] + d[pos + 2..pos + 4] + b) + d[pos + 4 + len..];
  }

  /** A server_name extension that the loop finds is the first of a well-formed list. */
  lemma {:induction false} ExtensionsSound(d: Bytes, pos: nat)
    returns (before: seq<Extension>, body: Bytes, after: Bytes)
    requires ExtensionsAt(d, pos).Some?
    ensures pos <= |d| && ExtensionsOk(before) && |body| < 0x1_0000
    ensures d[pos..] == EncodeExtensions(before) + (EncodeExtension(Extension(0, 0, body)) + after)
    ensures ExtensionsAt(d, pos) == ServerNameAt(body, 2)
    decreases |d| - pos
  {
    hide Number16, Be16, ServerNameAt, EncodeExtension;
    var len := Number16(d, pos + 2);
    if d[pos] == 0 && d[pos + 1] == 0 {
      ExtensionBytesAt(d, pos);
      before, body, after := [], d[pos + 4..pos + 4 + len], d[pos + 4 + len..];
    } else {
      var more;
      more, body, after := ExtensionsSound(d, pos + 4 + len);
      ExtensionBytesAt(d, pos);
      var e := Extension(d[pos], d[pos + 1], d[pos + 4..pos + 4 + len]);
      before := [e] + more;
      assert before[1..] == more;
      assert EncodeExtensions(before) == EncodeExtension(e) + EncodeExtensions(more);
    }
  }

  /** The parts of a record in which a server name was found. */
  datatype Record = Record(
    major: byte, minor: byte, fixed: Bytes, sessionId: Bytes, ciphers: Bytes, compression: Bytes,
    before: seq<Extension>, body: Bytes, after: Bytes, trailer: Bytes)

  predicate RecordOk(r: Record) {
    && r.major >= 3 && |r.fixed| == 38 && r.fixed[0] == 1
    && |r.sessionId| < 0x100 && |r.ciphers| < 0x1_0000 && |r.compression| < 0x100
    && ExtensionsOk(r.before) && |r.body| < 0x1_0000 && |BlockOf(r)| < 0x1_0000
  }

  function BlockOf(r: Record): Bytes
    requires ExtensionsOk(r.before) && |r.body| < 0x1_0000
  {
    EncodeExtensions(r.before) + (EncodeExtension(Extension(0, 0, r.body)) + r.after)
  }

  function HandshakeOf(r: Record): Bytes
    requires RecordOk(r)
  {
    r.fixed + ([|r.sessionId|] + r.sessionId) + (Be16(|r.ciphers|) + r.ciphers)
    + ([|r.compression|] + r.compression) + (Be16(|BlockOf(r)|) + BlockOf(r)) + r.trailer
  }

  /** A name found in a complete record comes from a handshake that is encoded as it should be. */
  lemma HandshakeSound(d: Bytes) returns (sid: Bytes, ciphers: Bytes, compression: Bytes, block: Bytes, trailer: Bytes)
    requires |d| >= TLS_HEADER_LEN && Handshake(d).Some?
    ensures |d| >= TLS_HEADER_LEN + 38 && d[TLS_HEADER_LEN] == 1
    ensures |sid| < 0x100 && |ciphers| < 0x1_0000 && |compression| < 0x100 && |block| < 0x1_0000
    ensures d[TLS_HEADER_LEN + 38..]
            == ([|sid|] + sid) + (Be16(|ciphers|) + ciphers) + ([|compression|] + compression)
               + (Be16(|block|) + block) + trailer
    ensures Handshake(d) == ExtensionsAt(block, 0)
  {
    hide Number16, Be16, ExtensionsAt;
    var a := TLS_HEADER_LEN + 38;
    var b := a + 1 + d[a];
    sid := d[a + 1..b];
    SpelledNumber(d, b);
    var c := b + 2 + Number16(d, b);
    ciphers := d[b + 2..c];
    var e := c + 1 + d[c];
    compression := d[c + 1..e];
    SpelledNumber(d, e);
    var f := e + 2 + Number16(d, e);
    block, trailer := d[e + 2..f], d[f..];
    assert d[a..b] == [d[a]] + sid;
    assert d[b..c] == d[b..b + 2] + ciphers;
    assert d[c..e] == [d[c]] + compression;
    assert d[e..f] == d[e..e + 2] + block;
    assert d[a..] == d[a..b] + d[b..c] + d[c..e] + d[e..f] + d[f..];
  }

  /** SNI soundness: whatever the payload, when the parser finds a name then the payload is a
      complete handshake record of version 3 or later with a ClientHello, whose extensions are
      well-formed up to the first server_name extension, and the name is the first host name of
      the list in it, cut to 255 bytes and to its first NUL. */
  lemma SniSound(data: Bytes) returns (r: Record, skipped: seq<Name>, name: Bytes, rest: Bytes, behind: Bytes)
    requires ParseTls(data).Some?
    ensures RecordOk(r) && |HandshakeOf(r)| < 0x1_0000
    ensures data == [0x16, r.major, r.minor] + Be16(|HandshakeOf(r)|) + HandshakeOf(r) + behind
    ensures NoHostName(skipped) && |name| < 0x1_0000
    ensures |r.body| >= 2 && r.body[2..] == EncodeNames(skipped) + (EncodeName(Name(0, name)) + rest)
    ensures Cut(|name|) <= |name| && ParseTls(data).value == Text(name[..Cut(|name|)])
  {
    hide Number16, Be16, ExtensionsAt, ServerNameAt, Handshake, Text, Cut, EncodeExtensions, EncodeExtension;
    var len := Number16(data, 3) + TLS_HEADER_LEN;
    SpelledNumber(data, 3);
    var d := data[..len];
    var sid, ciphers, compression, block, trailer := HandshakeSound(d);
    var before, body, after := ExtensionsSound(block, 0);
    skipped, name, rest := NamesSound(body, 2);
    assert block[0..] == block;
    r := Record(data[1], data[2], d[TLS_HEADER_LEN..TLS_HEADER_LEN + 38], sid, ciphers, compression,
                before, body, after, trailer);
    behind := data[len..];
    assert d[TLS_HEADER_LEN..] == r.fixed + d[TLS_HEADER_LEN + 38..];
    assert HandshakeOf(r) == d[TLS_HEADER_LEN..];
    assert data == data[..3] + data[3..5] + data[5..len] + behind;
    assert data[..3] == [0x16, r.major, r.minor] && d[TLS_HEADER_LEN..] == data[5..len];
  }
}
