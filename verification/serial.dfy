/** 32-bit sequence numbers and `compare_u32` (util.c).

    Sequence numbers are residues modulo 2^32. Proofs about the session work with
    unbounded positions `p` and the residue `Wrap(p)` that travels in the header. */
module Serial {

  const TWO32: int := 0x1_0000_0000
  const TWO31: int := 0x8000_0000
  const HALF: int := 0x7FFF_FFFF

  type u16 = x: int | 0 <= x < 0x1_0000
  type u32 = x: int | 0 <= x < 0x1_0000_0000
  type byte = x: int | 0 <= x < 0x100

  /** The conversion of an integer to `uint32_t`. */
  function Wrap(x: int): u32 {
    x % TWO32
  }

  /** The conversion of a `uint32_t` to a 32-bit `int`. */
  function ToInt(s: u32): int {
    if s < TWO31 then s else s - TWO32
  }

  /** The distance from s1 up to s2 around the circle. */
  function Distance(s1: u32, s2: u32): u32 {
    Wrap(s2 - s1)
  }

  /** The representative of `s - r` closest to zero. */
  function SDiff(s: u32, r: u32): int {
    ToInt(Wrap(s - r))
  }

  function Sign(x: int): int {
    if x < 0 then -1 else if x == 0 then 0 else 1
  }

  /** `compare_u32`, its two differences taken over the integers. */
  function CompareU32(s1: u32, s2: u32): int {
    if s1 == s2 then 0 else
      var i1 := ToInt(s1);
      var i2 := ToInt(s2);
      if (i1 < i2 && i2 - i1 < HALF) || (i1 > i2 && i1 - i2 > HALF) then -1 else 1
  }

  /** `compare_u32`, its two differences taken in a 32-bit two's complement `int`. */
  function CompareInt32(s1: u32, s2: u32): int {
    if s1 == s2 then 0 else
      var i1 := ToInt(s1);
      var i2 := ToInt(s2);
      if (i1 < i2 && ToInt(Wrap(i2 - i1)) < HALF) || (i1 > i2 && ToInt(Wrap(i1 - i2)) > HALF) then -1 else 1
  }

  /** The order of section 3.2 of RFC 1982 for SERIAL_BITS = 32. */
  predicate RfcLess(s1: u32, s2: u32) {
    (s1 < s2 && s2 - s1 < TWO31) || (s1 > s2 && s1 - s2 > TWO31)
  }

  /** RFC 1982 leaves pairs at distance 2^31 without an order. */
  predicate RfcDefined(s1: u32, s2: u32) {
    Distance(s1, s2) != TWO31
  }

  /** The one family of pairs that `compare_u32` puts in the wrong order: s2 is exactly
      2^31 - 1 ahead of s1 and the signed readings do not wrap between them. */
  predicate OffByOne(s1: u32, s2: u32) {
    Distance(s1, s2) == HALF && ToInt(s1) < ToInt(s2)
  }

  /** Over the integers, `compare_u32` decides the RFC 1982 order for a pair that has one
      exactly when the pair is outside `OffByOne`. */
  lemma CompareIsRfc1982(s1: u32, s2: u32)
    requires RfcDefined(s1, s2)
    ensures CompareU32(s1, s2) == (if s1 == s2 then 0 else if RfcLess(s1, s2) then -1 else 1)
            <==> !OffByOne(s1, s2)
  {
  }

  /** The exception is real: 0x7FFFFFFF follows 0 but compares as if it preceded it. */
  lemma CompareOffByOneExample()
    ensures RfcLess(0, 0x7FFF_FFFF) && CompareU32(0, 0x7FFF_FFFF) == 1
  {
  }

  /** One of the two subtractions of the signed readings leaves the range of a 32-bit `int`. */
  predicate Overflows(s1: u32, s2: u32) {
    var d := ToInt(s1) - ToInt(s2);
    !(-TWO31 <= d < TWO31) || !(-TWO31 <= -d < TWO31)
  }

  /** One number below 0x80000000, the other at most 2^31 above it and not below 0x80000000. */
  predicate Straddles(s1: u32, s2: u32) {
    || (s1 < TWO31 <= s2 && s2 - s1 <= TWO31)
    || (s2 < TWO31 <= s1 && s1 - s2 <= TWO31)
  }

  /** The subtraction overflows exactly for the straddling pairs, and with a wrapping 32-bit
      `int` the answer differs from that over the integers for every one of them. */
  lemma CompareInt32Exact(s1: u32, s2: u32)
    ensures Overflows(s1, s2) <==> Straddles(s1, s2)
    ensures CompareInt32(s1, s2) == CompareU32(s1, s2) <==> !Straddles(s1, s2)
  {
  }

  /** Positions closer than 2^31 - 1 keep their order through `Wrap` and `compare_u32`. */
  lemma CompareWrapped(a: int, b: int)
    requires -HALF < a - b < HALF
    ensures CompareU32(Wrap(a), Wrap(b)) == Sign(a - b)
  {
  }

  /** `compare_u32` is a strict total order on any set of numbers that fits in a circular
      window narrower than 2^31 - 1: there it is the order of the positions. */
  lemma CompareTotalOrderOnWindow(base: int, width: int, a: int, b: int, c: int)
    requires width < HALF
    requires base <= a <= base + width && base <= b <= base + width && base <= c <= base + width
    ensures CompareU32(Wrap(a), Wrap(a)) == 0
    ensures CompareU32(Wrap(a), Wrap(b)) == -CompareU32(Wrap(b), Wrap(a))
    ensures CompareU32(Wrap(a), Wrap(b)) == 0 <==> a == b
    ensures CompareU32(Wrap(a), Wrap(b)) < 0 && CompareU32(Wrap(b), Wrap(c)) < 0
            ==> CompareU32(Wrap(a), Wrap(c)) < 0
  {
  }

  /** One number at distance 2^31 - 1 is enough to break transitivity. */
  lemma CompareNotTransitiveAtHalf()
    ensures CompareU32(0, 1) < 0 && CompareU32(1, 0x7FFF_FFFF) < 0 && CompareU32(0, 0x7FFF_FFFF) > 0
  {
  }

  /** With a wrapping 32-bit `int` the order is still that of the positions on every such window
      that does not run across 0x7FFFFFFF/0x80000000. */
  lemma CompareInt32OnWindow(base: int, width: int, a: int, b: int)
    requires width < HALF
    requires base <= a <= base + width && base <= b <= base + width
    requires forall x: int :: base < x <= base + width ==> Wrap(x) != TWO31
    ensures CompareInt32(Wrap(a), Wrap(b)) == Sign(a - b)
  {
    hide CompareInt32, CompareU32, Straddles, Wrap;
    var lo, hi := if a <= b then a else b, if a <= b then b else a;
    CompareWrapped(a, b);
    CompareInt32Exact(Wrap(a), Wrap(b));
    CompareInt32Exact(Wrap(b), Wrap(a));
    BoundaryBetween(lo, hi);
    StraddlesSymmetric(Wrap(a), Wrap(b));
  }

  lemma StraddlesSymmetric(s1: u32, s2: u32)
    ensures Straddles(s1, s2) <==> Straddles(s2, s1)
  {
  }

  /** The numbers of two positions straddle only if the boundary lies between them. */
  lemma BoundaryBetween(lo: int, hi: int)
    requires lo <= hi < lo + HALF
    ensures Straddles(Wrap(lo), Wrap(hi)) ==> exists x :: lo < x <= hi && Wrap(x) == TWO31
  {
    var s1, s2 := Wrap(lo), Wrap(hi);
    hide Wrap;
    SDiffOfPositions(hi, lo);
    StraddlingDifference(s1, s2);
    WrapAdd(lo, TWO31 - s1);
    assert Straddles(s1, s2) ==> lo < lo + (TWO31 - s1) <= hi && Wrap(lo + (TWO31 - s1)) == TWO31;
  }

  lemma StraddlingDifference(s1: u32, s2: u32)
    ensures Straddles(s1, s2) && 0 <= SDiff(s2, s1) < HALF ==> s1 < TWO31 <= s2 && SDiff(s2, s1) == s2 - s1
    ensures Wrap(TWO31) == TWO31
  {
  }

  /** `SDiff` recovers a difference of positions of less than half a turn. */
  lemma SDiffOfPositions(a: int, b: int)
    requires -TWO31 <= a - b < TWO31
    ensures SDiff(Wrap(a), Wrap(b)) == a - b
  {
  }

  /** Adding `SDiff` to a position of r gives a position of s. */
  lemma SDiffLands(s: u32, r: u32, b: int)
    requires r == Wrap(b)
    ensures Wrap(b + SDiff(s, r)) == s
  {
  }

  lemma WrapAdd(a: int, n: int)
    ensures Wrap(Wrap(a) + n) == Wrap(a + n)
  {
  }
}
