/** The route list of `startTunnel` (Tun2HttpVpnService.kt): everything but 192.168.0.0/16. */
module Routes {
  import opened Powers

  /** A prefix of `len` leading bits; `bits` is their value. */
  datatype Prefix = Prefix(bits: nat, len: nat) {
    predicate Valid() {
      len <= 32 && bits < Pow2(len)
    }
  }

  /** An IPv4 address as a number of 32 bits. */
  type Address = a: nat | a < 0x1_0000_0000

  function Div(a: nat, d: nat): nat
    requires d > 0
  {
    a / d
  }

  /** The leading bits of an address. */
  function Leading(a: Address, len: nat): nat
    requires len <= 32
  {
    Div(a, Pow2(32 - len))
  }

  predicate Covers(p: Prefix, a: Address)
    requires p.len <= 32
  {
    Leading(a, p.len) == p.bits
  }

  /** The prefix that differs from the first k bits of p in the last of them. */
  function Sibling(p: Prefix, k: nat): (s: Prefix)
    requires p.Valid() && 1 <= k <= p.len
    ensures s.len == k
  {
    var b := Div(p.bits, Pow2(p.len - k));
    Prefix(if b % 2 == 0 then b + 1 else b - 1, k)
  }

  /** The sibling prefixes of the first n lengths. */
  function Siblings(p: Prefix, n: nat): (s: seq<Prefix>)
    requires p.Valid() && n <= p.len
    ensures |s| == n && forall i :: 0 <= i < n ==> s[i] == Sibling(p, i + 1)
  {
    if n == 0 then [] else Siblings(p, n - 1) + [Sibling(p, n)]
  }

  lemma Gap(d: nat, q: nat, q': nat)
    requires q < q'
    ensures d * q + d <= d * q'
  {
    assert d * q + d == d * (q + 1);
  }

  lemma DivUnique(a: nat, d: nat, q: nat, r: nat)
    requires d > 0 && a == d * q + r && r < d
    ensures a / d == q
  {
    var k := a / d;
    assert a == d * k + a % d;
    if k < q {
      Gap(d, k, q);
    } else if q < k {
      Gap(d, q, k);
    }
  }

  /** Dropping one more bit halves. */
  lemma HalfDiv(a: nat, d: nat)
    requires d > 0
    ensures (a / d) / 2 == a / (2 * d)
  {
    var q, r := a / d, a % d;
    var h, b := q / 2, q % 2;
    assert a == d * q + r && q == 2 * h + b;
    assert d * (2 * h + b) == (2 * d) * h + d * b;
    assert b == 0 || b == 1;
    DivUnique(a, 2 * d, h, d * b + r);
  }

  /** The first k bits of p. */
  function Cut(p: Prefix, k: nat): Prefix
    requires k <= p.len
  {
    Prefix(Div(p.bits, Pow2(p.len - k)), k)
  }

  /** Two numbers agree up to the last bit if they are equal or siblings. */
  lemma HalfEqual(x: nat, b: nat)
    ensures x / 2 == b / 2 <==> x == b || x == (if b % 2 == 0 then b + 1 else b - 1)
  {
  }

  /** An address under the first k - 1 bits of p is either under the first k, or under the
      sibling of length k; an address not under the first k - 1 bits is under neither. */
  lemma OneMoreBit(p: Prefix, k: nat, a: Address)
    requires p.Valid() && 1 <= k <= p.len
    ensures Covers(Cut(p, k - 1), a) <==> Covers(Cut(p, k), a) || Covers(Sibling(p, k), a)
    ensures !(Covers(Cut(p, k), a) && Covers(Sibling(p, k), a))
  {
    HalfDiv(a, Pow2(32 - k));
    HalfDiv(p.bits, Pow2(p.len - k));
    HalfEqual(Leading(a, k), Cut(p, k).bits);
  }

  predicate Short(ps: seq<Prefix>) {
    forall i :: 0 <= i < |ps| ==> ps[i].len <= 32
  }

  /** How many of the prefixes cover an address. */
  function CoverCount(ps: seq<Prefix>, a: Address): nat
    requires Short(ps)
  {
    if ps == [] then 0
    else CoverCount(ps[..|ps| - 1], a) + if Covers(ps[|ps| - 1], a) then 1 else 0
  }

  /** The siblings of the first n lengths of an arbitrary prefix partition the complement of its
      first n bits: each address outside is covered once, each address inside not at all. */
  lemma {:induction false} SiblingsPartition(p: Prefix, n: nat, a: Address)
    requires p.Valid() && n <= p.len
    ensures CoverCount(Siblings(p, n), a) == if Covers(Cut(p, n), a) then 0 else 1
  {
    if n == 0 {
      WholeSpace(p, a);
    } else {
      SiblingsPartition(p, n - 1, a);
      OneMoreBit(p, n, a);
      assert Siblings(p, n)[..n - 1] == Siblings(p, n - 1);
    }
  }

  lemma WholeSpace(p: Prefix, a: Address)
    requires p.Valid()
    ensures Covers(Cut(p, 0), a)
  {
    Pow2Add(16, 16);
    SmallPowers();
    DivUnique(a, Pow2(32), 0, a);
    DivUnique(p.bits, Pow2(p.len), 0, p.bits);
  }

  /** A count of 0 means no cover, a count of 1 exactly one. */
  lemma {:induction false} CountMeans(ps: seq<Prefix>, a: Address)
    requires Short(ps)
    ensures CoverCount(ps, a) == 0 <==> forall i :: 0 <= i < |ps| ==> !Covers(ps[i], a)
    ensures CoverCount(ps, a) <= 1 ==>
              forall i, j :: 0 <= i < j < |ps| ==> !(Covers(ps[i], a) && Covers(ps[j], a))
  {
    if ps != [] {
      var front := ps[..|ps| - 1];
      CountMeans(front, a);
      assert forall i :: 0 <= i < |front| ==> front[i] == ps[i];
    }
  }

  // ---------------------------------------------------------------- the tunnel's routes

  /** A dotted address. */
  function Ip(a: nat, b: nat, c: nat, d: nat): nat {
    ((a * 256 + b) * 256 + c) * 256 + d
  }

  /** 192.168.0.0/16. */
  const EXCLUDED := Prefix(192 * 256 + 168, 16)

  /** A route that is added as address and length. */
  datatype Route = Route(address: nat, len: nat)

  predicate RouteCovers(r: Route, a: Address)
    requires r.len <= 32
  {
    Div(a, Pow2(32 - r.len)) == Div(r.address, Pow2(32 - r.len))
  }

  /** `VpnService.Builder`, as far as routes are concerned. */
  class Builder {
    var routes: seq<Route>

    constructor ()
      ensures routes == []
    {
      routes := [];
    }

    method AddRoute(address: nat, len: nat)
      modifies this
      ensures routes == old(routes) + [Route(address, len)]
    {
      routes := routes + [Route(address, len)];
    }
  }

  function TunnelRoutes(): (r: seq<Route>)
    ensures |r| == 16 && forall i :: 0 <= i < 16 ==> r[i].len <= 16
  {
    [Route(Ip(0, 0, 0, 0), 1), Route(Ip(128, 0, 0, 0), 2), Route(Ip(192, 0, 0, 0), 9),
     Route(Ip(192, 128, 0, 0), 11), Route(Ip(192, 160, 0, 0), 13), Route(Ip(192, 169, 0, 0), 16),
     Route(Ip(192, 170, 0, 0), 15), Route(Ip(192, 172, 0, 0), 14), Route(Ip(192, 176, 0, 0), 12),
     Route(Ip(192, 192, 0, 0), 10), Route(Ip(193, 0, 0, 0), 8), Route(Ip(194, 0, 0, 0), 7),
     Route(Ip(196, 0, 0, 0), 6), Route(Ip(200, 0, 0, 0), 5), Route(Ip(208, 0, 0, 0), 4),
     Route(Ip(224, 0, 0, 0), 3)]
  }

  /** The routes below the excluded addresses, lowest first. */
  method AddRoutesBelow(builder: Builder)
    modifies builder
    ensures builder.routes == old(builder.routes) + TunnelRoutes()[..5]
  {
    hide Ip;
    builder.AddRoute(Ip(0, 0, 0, 0), 1);
    builder.AddRoute(Ip(128, 0, 0, 0), 2);
    builder.AddRoute(Ip(192, 0, 0, 0), 9);
    builder.AddRoute(Ip(192, 128, 0, 0), 11);
    builder.AddRoute(Ip(192, 160, 0, 0), 13);
  }

  /** The routes above, up to 192.255.255.255. */
  method AddRoutesAbove(builder: Builder)
    modifies builder
    ensures builder.routes == old(builder.routes) + TunnelRoutes()[5..10]
  {
    hide Ip;
    builder.AddRoute(Ip(192, 169, 0, 0), 16);
    builder.AddRoute(Ip(192, 170, 0, 0), 15);
    builder.AddRoute(Ip(192, 172, 0, 0), 14);
    builder.AddRoute(Ip(192, 176, 0, 0), 12);
    builder.AddRoute(Ip(192, 192, 0, 0), 10);
  }

  method StartTunnel() returns (builder: Builder)
    ensures fresh(builder) && builder.routes == TunnelRoutes()
  {
    hide Ip;
    builder := new Builder();
    AddRoutesBelow(builder);
    AddRoutesAbove(builder);
    assert builder.routes == TunnelRoutes()[..10];
    builder.AddRoute(Ip(193, 0, 0, 0), 8);
    builder.AddRoute(Ip(194, 0, 0, 0), 7);
    builder.AddRoute(Ip(196, 0, 0, 0), 6);
    builder.AddRoute(Ip(200, 0, 0, 0), 5);
    builder.AddRoute(Ip(208, 0, 0, 0), 4);
    builder.AddRoute(Ip(224, 0, 0, 0), 3);
  }

  /** The place of the route of each length in the list. */
  const PLACES: seq<nat> := [0, 1, 15, 14, 13, 12, 11, 10, 2, 9, 3, 8, 4, 7, 6, 5]

  lemma PlacesOfLengths(i: nat)
    requires i < 16
    ensures 1 <= TunnelRoutes()[i].len <= 16 && PLACES[TunnelRoutes()[i].len - 1] == i
    ensures PLACES[i] < 16 && TunnelRoutes()[PLACES[i]].len == i + 1
  {
  }

  /** The siblings of 192.168.0.0/16, computed. */
  lemma SiblingBits()
    ensures EXCLUDED.Valid()
    ensures Sibling(EXCLUDED, 1).bits == 0 && Sibling(EXCLUDED, 2).bits == 2
    ensures Sibling(EXCLUDED, 3).bits == 7 && Sibling(EXCLUDED, 4).bits == 13
    ensures Sibling(EXCLUDED, 5).bits == 25 && Sibling(EXCLUDED, 6).bits == 49
    ensures Sibling(EXCLUDED, 7).bits == 97 && Sibling(EXCLUDED, 8).bits == 193
    ensures Sibling(EXCLUDED, 9).bits == 384 && Sibling(EXCLUDED, 10).bits == 771
    ensures Sibling(EXCLUDED, 11).bits == 1540 && Sibling(EXCLUDED, 12).bits == 3083
    ensures Sibling(EXCLUDED, 13).bits == 6164 && Sibling(EXCLUDED, 14).bits == 12331
    ensures Sibling(EXCLUDED, 15).bits == 24661 && Sibling(EXCLUDED, 16).bits == 49321
  {
    SmallPowers();
  }

  /** The route is the prefix, its host bits zero. */
  predicate RouteIs(r: Route, p: Prefix) {
    r.len == p.len <= 32 && r.address == p.bits * Pow2(32 - r.len)
  }

  lemma RouteAt(r: Route, bits: nat, k: nat)
    requires EXCLUDED.Valid() && 1 <= k <= 16 && r.len == k
    requires Sibling(EXCLUDED, k).bits == bits && r.address == bits * (65536 * Pow2(16 - k))
    ensures RouteIs(r, Sibling(EXCLUDED, k))
  {
    HighPower(k);
  }

  /** The list is the n = 16 instance: each route is the sibling of its length. */
  lemma RouteIsSibling(i: nat)
    requires i < 16
    ensures EXCLUDED.Valid() && 1 <= TunnelRoutes()[i].len <= 16
    ensures RouteIs(TunnelRoutes()[i], Sibling(EXCLUDED, TunnelRoutes()[i].len))
  {
    hide Sibling, Pow2, RouteIs;
    SiblingBits();
    SmallPowers();
    match i
    case 0 => RouteAt(Route(Ip(0, 0, 0, 0), 1), 0, 1);
    case 1 => RouteAt(Route(Ip(128, 0, 0, 0), 2), 2, 2);
    case 2 => RouteAt(Route(Ip(192, 0, 0, 0), 9), 384, 9);
    case 3 => RouteAt(Route(Ip(192, 128, 0, 0), 11), 1540, 11);
    case 4 => RouteAt(Route(Ip(192, 160, 0, 0), 13), 6164, 13);
    case 5 => RouteAt(Route(Ip(192, 169, 0, 0), 16), 49321, 16);
    case 6 => RouteAt(Route(Ip(192, 170, 0, 0), 15), 24661, 15);
    case 7 => RouteAt(Route(Ip(192, 172, 0, 0), 14), 12331, 14);
    case 8 => RouteAt(Route(Ip(192, 176, 0, 0), 12), 3083, 12);
    case 9 => RouteAt(Route(Ip(192, 192, 0, 0), 10), 771, 10);
    case 10 => RouteAt(Route(Ip(193, 0, 0, 0), 8), 193, 8);
    case 11 => RouteAt(Route(Ip(194, 0, 0, 0), 7), 97, 7);
    case 12 => RouteAt(Route(Ip(196, 0, 0, 0), 6), 49, 6);
    case 13 => RouteAt(Route(Ip(200, 0, 0, 0), 5), 25, 5);
    case 14 => RouteAt(Route(Ip(208, 0, 0, 0), 4), 13, 4);
    case 15 => RouteAt(Route(Ip(224, 0, 0, 0), 3), 7, 3);
  }

  lemma HighPower(k: nat)
    requires 1 <= k <= 16
    ensures Pow2(32 - k) == 65536 * Pow2(16 - k)
  {
    Pow2Add(16, 16 - k);
    SmallPowers();
  }

  lemma RouteCoversAs(r: Route, p: Prefix, a: Address)
    requires RouteIs(r, p)
    ensures RouteCovers(r, a) <==> Covers(p, a)
  {
    DivUnique(r.address, Pow2(32 - r.len), p.bits, 0);
  }

  lemma RouteCoversAsSibling(i: nat, a: Address)
    requires i < 16
    ensures EXCLUDED.Valid() && 1 <= TunnelRoutes()[i].len <= 16
    ensures RouteCovers(TunnelRoutes()[i], a) <==> Covers(Siblings(EXCLUDED, 16)[TunnelRoutes()[i].len - 1], a)
  {
    RouteIsSibling(i);
    RouteCoversAs(TunnelRoutes()[i], Sibling(EXCLUDED, TunnelRoutes()[i].len), a);
  }

  /** The routes of the tunnel partition the addresses outside 192.168.0.0/16: an address is
      covered by some route if and only if it lies outside, and never by two routes. */
  lemma RoutesArePartition(a: Address)
    ensures (exists i :: 0 <= i < 16 && RouteCovers(TunnelRoutes()[i], a)) <==> a / 0x1_0000 != 192 * 256 + 168
    ensures forall i, j :: 0 <= i < j < 16 ==>
              !(RouteCovers(TunnelRoutes()[i], a) && RouteCovers(TunnelRoutes()[j], a))
  {
    var ss := ExcludedSiblings(a);
    hide RouteCovers, Covers, TunnelRoutes;
    forall i | 0 <= i < 16
      ensures 1 <= TunnelRoutes()[i].len <= 16 && PLACES[TunnelRoutes()[i].len - 1] == i
      ensures RouteCovers(TunnelRoutes()[i], a) <==> Covers(ss[TunnelRoutes()[i].len - 1], a)
      ensures PLACES[i] < 16 && TunnelRoutes()[PLACES[i]].len == i + 1
    {
      RouteCoversAsSibling(i, a);
      PlacesOfLengths(i);
    }
    if !(forall i :: 0 <= i < 16 ==> !Covers(ss[i], a)) {
      var k :| 0 <= k < 16 && Covers(ss[k], a);
      assert RouteCovers(TunnelRoutes()[PLACES[k]], a);
    }
  }

  /** The siblings of 192.168.0.0/16 partition what is outside it. */
  lemma ExcludedSiblings(a: Address) returns (ss: seq<Prefix>)
    ensures EXCLUDED.Valid() && ss == Siblings(EXCLUDED, 16) && |ss| == 16 && Short(ss)
    ensures (forall i :: 0 <= i < 16 ==> !Covers(ss[i], a)) <==> a / 0x1_0000 == 192 * 256 + 168
    ensures forall i, j :: 0 <= i < j < 16 ==> !(Covers(ss[i], a) && Covers(ss[j], a))
  {
    SmallPowers();
    ss := Siblings(EXCLUDED, 16);
    assert Covers(Cut(EXCLUDED, 16), a) <==> a / 0x1_0000 == 192 * 256 + 168;
    hide Siblings, Covers, CoverCount, Pow2;
    SiblingsPartition(EXCLUDED, 16, a);
    CountMeans(ss, a);
  }
}
