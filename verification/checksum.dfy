/** `calc_checksum` (util.c) and the Internet checksum of RFC 1071. 16-bit words are read in
    little-endian order, as on every ABI the library is built for. */
module InternetChecksum {
  import opened Serial
  import opened Octets

  const ONES: int := 0xFFFF

  /** The most bytes whose sum, with any start value, fits 32 bits. */
  const MAX_BYTES := 131072

  /** The sum of the 16-bit words of a buffer, an odd last byte padded with zero. */
  function Words(b: Bytes): nat {
    if b == [] then 0
    else if |b| == 1 then b[0]
    else b[0] + 256 * b[1] + Words(b[2..])
  }

  /** The representative in 0..0xFFFF of n modulo 0xFFFF that is 0 only for n = 0. */
  function Canonical(n: nat): u16 {
    if n == 0 then 0 else 1 + (n - 1) % ONES
  }

  /** The carries of a 32-bit sum folded back until none is left. */
  function Fold(s: u32): u16 {
    if s < 0x1_0000 then s else Fold(s % 0x1_0000 + s / 0x1_0000)
  }

  /** The result of `calc_checksum`, whose 32-bit sum may wrap. */
  function Checksum(start: u16, b: Bytes): u16 {
    Fold(Wrap(start + Words(b)))
  }

  /** `calc_checksum`. */
  method CalcChecksum(start: u16, b: Bytes) returns (r: u16)
    ensures r == Checksum(start, b)
  {
    hide Words;
    var sum: u32 := start;
    var i := 0;
    assert b[0..] == b;
    while i + 1 < |b|
      invariant 0 <= i <= |b|
      invariant Wrap(sum + Words(b[i..])) == Wrap(start + Words(b))
    {
      var lo: int, hi: int := b[i], b[i + 1];
      NextWord(sum, b, i);
      sum := Wrap(sum + (lo + 256 * hi));
      i := i + 2;
    }
    LastByte(b, i);
    if i < |b| {
      sum := Wrap(sum + b[i]);
    }
    ghost var total := sum;
    while sum >= 0x1_0000
      invariant Fold(sum) == Fold(total)
    {
      sum := sum % 0x1_0000 + sum / 0x1_0000;
    }
    r := sum;
  }

  lemma NextWord(sum: u32, b: Bytes, i: nat)
    requires i + 1 < |b|
    ensures var lo: int, hi: int := b[i], b[i + 1];
            Wrap(Wrap(sum + (lo + 256 * hi)) + Words(b[i + 2..])) == Wrap(sum + Words(b[i..]))
  {
    var lo: int, hi: int := b[i], b[i + 1];
    assert b[i..][2..] == b[i + 2..];
    WrapAdd(sum + (lo + 256 * hi), Words(b[i + 2..]));
  }

  lemma LastByte(b: Bytes, i: nat)
    requires |b| - 1 <= i <= |b|
    ensures Words(b[i..]) == if i < |b| then b[i] else 0
  {
  }

  // ---------------------------------------------------------------- arithmetic modulo 0xFFFF

  lemma CanonicalShift(n: nat, k: nat)
    requires n > 0
    ensures Canonical(n + k * ONES) == Canonical(n)
  {
    ModShift(n - 1, k);
  }

  lemma ModShift(m: nat, k: nat)
    ensures (m + k * ONES) % ONES == m % ONES
  {
    var q := m / ONES;
    assert m == q * ONES + m % ONES;
    assert m + k * ONES == (q + k) * ONES + m % ONES;
  }

  lemma CanonicalQuotient(n: nat) returns (k: nat)
    ensures n == Canonical(n) + k * ONES
  {
    k := if n == 0 then 0 else (n - 1) / ONES;
  }

  /** Folding a part of a sum first does not change its canonical residue. */
  lemma CanonicalAdd(x: nat, y: nat)
    ensures Canonical(Canonical(x) + y) == Canonical(x + y)
  {
    var k := CanonicalQuotient(x);
    if x > 0 {
      CanonicalShift(Canonical(x) + y, k);
    }
  }

  /** Folding yields the canonical residue modulo 0xFFFF. */
  lemma {:induction false} FoldIsCanonical(s: u32)
    ensures Fold(s) == Canonical(s)
  {
    if s >= 0x1_0000 {
      var lo, hi := s % 0x1_0000, s / 0x1_0000;
      FoldIsCanonical(lo + hi);
      assert s == (lo + hi) + hi * ONES;
      CanonicalShift(lo + hi, hi);
    }
  }

  // ---------------------------------------------------------------- the 32-bit sum

  lemma {:induction false} WordsBound(b: Bytes)
    ensures Words(b) <= ONES * ((|b| + 1) / 2)
  {
    if |b| >= 2 {
      WordsBound(b[2..]);
    }
  }

  lemma SumBound(start: u16, b: Bytes)
    requires |b| <= MAX_BYTES
    ensures start + Words(b) < TWO32
  {
    hide Words;
    WordsBound(b);
    assert (|b| + 1) / 2 <= 65536;
  }

  /** Up to 131072 bytes the sum does not wrap and the result is the canonical residue. */
  lemma ChecksumIsCanonical(start: u16, b: Bytes)
    requires |b| <= MAX_BYTES
    ensures Checksum(start, b) == Canonical(start + Words(b))
  {
    hide Fold, Canonical, Words;
    SumBound(start, b);
    FoldIsCanonical(start + Words(b));
  }

  function AllOnes(n: nat): Bytes {
    if n == 0 then [] else [0xFF] + AllOnes(n - 1)
  }

  lemma {:induction false} WordsAllOnes(n: nat)
    ensures |AllOnes(n)| == n && Words(AllOnes(n)) == ONES * (n / 2) + 0xFF * (n % 2)
  {
    if n >= 2 {
      WordsAllOnes(n - 2);
      assert AllOnes(n)[2..] == AllOnes(n - 2);
    }
  }

  predicate SumFits(start: u16, b: Bytes) {
    start + Words(b) < TWO32
  }

  /** 131072 bytes is exact: the sum fits 32 bits for all contents of that length and not for
      all contents of any greater length. */
  lemma SumFitsExactly(n: nat)
    ensures (forall start: u16, b: Bytes :: |b| == n ==> SumFits(start, b)) <==> n <= MAX_BYTES
  {
    if n <= MAX_BYTES {
      forall start: u16, b: Bytes | |b| == n
        ensures SumFits(start, b)
      {
        SumBound(start, b);
      }
    } else {
      WordsAllOnes(n);
      var start: u16, b := 0xFFFF, AllOnes(n);
      assert n / 2 >= 65536;
      assert n / 2 == 65536 ==> n % 2 == 1;
      assert |b| == n && !SumFits(start, b);
    }
  }

  /** The word sum, byte by byte: a byte at an even place counts once, at an odd place 256 times. */
  lemma {:induction false} WordsByByte(b: Bytes, x: byte)
    ensures Words([]) == 0
    ensures Words(b + [x]) == Words(b) + if |b| % 2 == 0 then x else 256 * x
  {
    if |b| >= 2 {
      assert (b + [x])[2..] == b[2..] + [x];
      WordsByByte(b[2..], x);
    } else {
      assert (b + [x])[|b| + 1..] == [];
    }
  }

  // ---------------------------------------------------------------- chaining

  lemma {:induction false} WordsConcat(a: Bytes, b: Bytes)
    requires |a| % 2 == 0
    ensures Words(a + b) == Words(a) + Words(b)
  {
    if a == [] {
      assert a + b == b;
    } else {
      assert (a + b)[2..] == a[2..] + b;
      WordsConcat(a[2..], b);
    }
  }

  /** A chained call over an even-length piece and what follows equals one call over both. */
  lemma ChainedChecksum(start: u16, a: Bytes, b: Bytes)
    requires |a| % 2 == 0 && |a| + |b| <= MAX_BYTES
    ensures Checksum(Checksum(start, a), b) == Checksum(start, a + b)
  {
    ChecksumIsCanonical(start, a);
    ChecksumIsCanonical(Checksum(start, a), b);
    ChecksumIsCanonical(start, a + b);
    WordsConcat(a, b);
    CanonicalAdd(start + Words(a), Words(b));
  }

  /** The condition is needed: after an odd piece the words no longer line up. */
  lemma OddPieceBreaksChain()
    ensures Checksum(Checksum(0, [1]), [2]) != Checksum(0, [1] + [2])
  {
    assert Words([1]) == 1 && Words([2]) == 2;
    assert [1] + [2] == [1, 2];
    assert Words([1, 2]) == 1 + 256 * 2 + Words([1, 2][2..]);
  }

  // ---------------------------------------------------------------- the stored check

  /** A 16-bit value as the machine stores it. */
  function Stored(c: u16): (b: Bytes)
    ensures |b| == 2 && Words(b) == c
  {
    var b := [c % 256, c / 256];
    assert b[2..] == [];
    b
  }

  function Complement(c: u16): u16 {
    ONES - c
  }

  /** Summing a buffer that holds the complement of its own checksum, computed with a zero
      check field, gives 0xFFFF; the words of the part before the field may be permuted. */
  lemma StoredCheckVerifies(pre: Bytes, pre': Bytes, post: Bytes)
    requires |pre| % 2 == 0 && |pre'| % 2 == 0 && Words(pre) == Words(pre')
    requires |pre| + 2 + |post| <= MAX_BYTES && |pre'| + 2 + |post| <= MAX_BYTES
    ensures var c := Complement(Checksum(0, pre + [0, 0] + post));
            Checksum(0, pre' + Stored(c) + post) == 0xFFFF
  {
    hide Fold, Canonical, Checksum, Stored, Words;
    var c := Complement(Checksum(0, pre + [0, 0] + post));
    ZeroWords();
    SplitWords(pre, [0, 0], post);
    SplitWords(pre', Stored(c), post);
    ChecksumIsCanonical(0, pre + [0, 0] + post);
    ChecksumIsCanonical(0, pre' + Stored(c) + post);
    ComplementCancels(Words(pre) + Words(post));
  }

  lemma ComplementCancels(t: nat)
    ensures Canonical(t + Complement(Canonical(t))) == 0xFFFF
  {
    var k := CanonicalQuotient(t);
    CanonicalShift(ONES, k);
  }

  lemma ZeroWords()
    ensures Words([0, 0]) == 0
  {
    assert [0, 0][2..] == [];
  }

  lemma SplitWords(pre: Bytes, mid: Bytes, post: Bytes)
    requires |pre| % 2 == 0 && |mid| == 2
    ensures Words(pre + mid + post) == Words(pre) + Words(mid) + Words(post)
  {
    hide Words;
    WordsConcat(pre, mid);
    WordsConcat(pre + mid, post);
  }
}
