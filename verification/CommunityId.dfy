/** Community ID: the bytes handed to SHA-1 do not depend on the direction of a flow. */
module CommunityId {
  import opened Bytes

  const ICMP := 1
  const TCP := 6
  const UDP := 17
  const ICMPV6 := 58
  const SCTP := 132

  /** Addresses are in network order: 4 bytes for IPv4, 16 for IPv6. */
  datatype Flow = Flow(proto: byte, src: bytes, dst: bytes, sport: nat, dport: nat, icmpType: byte, icmpCode: byte)

  predicate Wellformed(f: Flow, v6: bool) {
    |f.src| == |f.dst| == (if v6 then 16 else 4) && f.sport < TWO16 && f.dport < TWO16
  }

  // ---- ICMP types come in pairs ----

  datatype Code = Pair(other: byte) | OneWay

  function PairV4(t: byte): Code {
    match t
    case 8 => Pair(0)
    case 0 => Pair(8)
    case 13 => Pair(14)
    case 14 => Pair(13)
    case 15 => Pair(16)
    case 16 => Pair(15)
    case 10 => Pair(9)
    case 9 => Pair(10)
    case 17 => Pair(18)
    case 18 => Pair(17)
    case _ => OneWay
  }

  function PairV6(t: byte): Code {
    match t
    case 128 => Pair(129)
    case 129 => Pair(128)
    case 133 => Pair(134)
    case 134 => Pair(133)
    case 135 => Pair(136)
    case 136 => Pair(135)
    case 130 => Pair(131)
    case 131 => Pair(130)
    case 139 => Pair(140)
    case 140 => Pair(139)
    case 144 => Pair(145)
    case 145 => Pair(144)
    case _ => OneWay
  }

  function PairOf(v6: bool, t: byte): Code { if v6 then PairV6(t) else PairV4(t) }

  /** Pairing goes both ways, and never pairs a type with itself. */
  lemma PairsAreMutual(v6: bool, t: byte)
    requires PairOf(v6, t).Pair?
    ensures PairOf(v6, PairOf(v6, t).other) == Pair(t) && PairOf(v6, t).other != t
  {
  }

  /** The requests and replies of RFC 792, RFC 950 and RFC 1256, and those of ICMPv6. */
  const PAIRS_V4: set<(nat, nat)> := {(8, 0), (13, 14), (15, 16), (10, 9), (17, 18)}
  const PAIRS_V6: set<(nat, nat)> := {(128, 129), (133, 134), (135, 136), (130, 131), (139, 140), (144, 145)}

  /** A type is paired exactly with its request or reply. */
  lemma PairsExactly(v6: bool, t: byte, u: byte)
    ensures var pairs := if v6 then PAIRS_V6 else PAIRS_V4;
            PairOf(v6, t) == Pair(u) <==> (t, u) in pairs || (u, t) in pairs
  {
  }

  // ---- Endpoints ----

  datatype Ends = Ends(ipA: bytes, portA: nat, ipB: bytes, portB: nat)

  function Swap(e: Ends): Ends { Ends(e.ipB, e.portB, e.ipA, e.portA) }

  predicate IsIcmp(f: Flow, v6: bool) { f.proto == if v6 then ICMPV6 else ICMP }

  predicate Ported(proto: byte) { proto == SCTP || proto == UDP || proto == TCP }

  predicate IsOneWay(f: Flow, v6: bool) { IsIcmp(f, v6) && PairOf(v6, f.icmpType).OneWay? }

  /** The endpoints as sent, after the ports have been adjusted. */
  function EndsOf(f: Flow, v6: bool): Ends {
    if IsIcmp(f, v6) then
      var pair := PairOf(v6, f.icmpType);
      Ends(f.src, f.icmpType, f.dst, if pair.Pair? then pair.other else f.icmpCode)
    else if Ported(f.proto) then Ends(f.src, f.sport, f.dst, f.dport)
    else Ends(f.src, 0, f.dst, 0)
  }

  /** `memcmp` on equal lengths. */
  function Compare(a: bytes, b: bytes): int
    requires |a| == |b|
  {
    if a == [] then 0
    else if a[0] < b[0] then -1
    else if a[0] > b[0] then 1
    else Compare(a[1..], b[1..])
  }

  lemma {:induction false} CompareIsOrder(a: bytes, b: bytes)
    requires |a| == |b|
    ensures Compare(a, b) == 0 <==> a == b
    ensures Compare(a, b) == -Compare(b, a)
    decreases |a|
  {
    if a != [] {
      CompareIsOrder(a[1..], b[1..]);
      assert a == [a[0]] + a[1..] && b == [b[0]] + b[1..];
    }
  }

  function Power256(n: nat): (r: nat)
    ensures r > 0
  {
    if n == 0 then 1 else 256 * Power256(n - 1)
  }

  /** The number an address spells in network order. */
  function Number(a: bytes): (r: nat)
    ensures r < Power256(|a|)
  {
    if a == [] then 0
    else
      LeadingDigit(a[0], Number(a[1..]), Power256(|a| - 1));
      a[0] * Power256(|a| - 1) + Number(a[1..])
  }

  lemma LeadingDigit(d: nat, rest: nat, unit: nat)
    requires d < 256 && rest < unit
    ensures d * unit + rest < 256 * unit
  {
    assert d * unit <= 255 * unit;
  }

  lemma LeadingDecides(d: nat, e: nat, x: nat, y: nat, unit: nat)
    requires x < unit && y < unit && d < e
    ensures d * unit + x < e * unit + y
  {
    assert (d + 1) * unit <= e * unit;
  }

  /** The byte order of addresses is the order of their numbers. */
  lemma {:induction false} CompareIsNumeric(a: bytes, b: bytes)
    requires |a| == |b|
    ensures Compare(a, b) < 0 <==> Number(a) < Number(b)
    decreases |a|
  {
    if a != [] {
      var unit := Power256(|a| - 1);
      CompareIsNumeric(a[1..], b[1..]);
      if a[0] < b[0] {
        LeadingDecides(a[0], b[0], Number(a[1..]), Number(b[1..]), unit);
      } else if a[0] > b[0] {
        LeadingDecides(b[0], a[0], Number(b[1..]), Number(a[1..]), unit);
      }
    }
  }

  /** A port in network order, read as an integer of the host. */
  function InHost(port: nat, little: bool): nat
    requires port < TWO16
  {
    if little then port % 256 * 256 + port / 256 else port
  }

  /** On a big-endian host that is the port; on a little-endian one its two bytes count the other way round. */
  lemma InHostExactly(port: nat)
    requires port < TWO16
    ensures InHost(port, false) == port
    ensures var first: nat, second: nat := Word16(port)[0], Word16(port)[1]; InHost(port, true) == first + 256 * second
  {
  }

  predicate Small(e: Ends) { |e.ipA| == |e.ipB| && e.portA < TWO16 && e.portB < TWO16 }

  /** Whether the first endpoint is less than the second. */
  predicate InOrder(e: Ends, little: bool)
    requires Small(e)
  {
    var c := Compare(e.ipA, e.ipB);
    c < 0 || (c == 0 && InHost(e.portA, little) < InHost(e.portB, little))
  }

  lemma HostInjective(p: nat, q: nat, little: bool)
    requires p < TWO16 && q < TWO16 && InHost(p, little) == InHost(q, little)
    ensures p == q
  {
  }

  /** One of the two orders holds, and both only for equal endpoints. */
  lemma OrderIsTotal(e: Ends, little: bool)
    requires Small(e)
    ensures !(InOrder(e, little) && InOrder(Swap(e), little))
    ensures InOrder(e, little) || InOrder(Swap(e), little) || e == Swap(e)
  {
    CompareIsOrder(e.ipA, e.ipB);
    CompareIsOrder(e.ipB, e.ipA);
    if InHost(e.portA, little) == InHost(e.portB, little) {
      HostInjective(e.portA, e.portB, little);
    }
  }

  /** The endpoints as hashed: the lesser one first, unless the message is one-way. */
  function Canonical(f: Flow, v6: bool, little: bool): Ends
    requires Wellformed(f, v6)
  {
    var e := EndsOf(f, v6);
    if IsOneWay(f, v6) || InOrder(e, little) then e else Swap(e)
  }

  /** The lesser address leads; between equal addresses the lesser port does, as the host reads it. */
  lemma LesserLeads(f: Flow, v6: bool, little: bool)
    requires Wellformed(f, v6) && !IsOneWay(f, v6)
    ensures var e := Canonical(f, v6, little);
            e.portA < TWO16 && e.portB < TWO16 &&
            (Number(e.ipA) < Number(e.ipB) || (e.ipA == e.ipB && InHost(e.portA, little) <= InHost(e.portB, little)))
  {
    CompareIsNumeric(f.src, f.dst);
    CompareIsNumeric(f.dst, f.src);
    CompareIsOrder(f.src, f.dst);
  }

  /** A one-way message keeps its direction. */
  lemma OneWayKeepsDirection(f: Flow, v6: bool, little: bool)
    requires Wellformed(f, v6) && IsOneWay(f, v6)
    ensures Canonical(f, v6, little) == Ends(f.src, f.icmpType, f.dst, f.icmpCode)
  {
  }

  function Sorted(e: Ends, little: bool): Ends
    requires Small(e)
  {
    if InOrder(e, little) then e else Swap(e)
  }

  /** Sorting forgets the direction and nothing else. */
  lemma SortedExactly(d: Ends, e: Ends, little: bool)
    requires Small(d) && Small(e)
    ensures Sorted(d, little) == Sorted(e, little) <==> d == e || d == Swap(e)
  {
    OrderIsTotal(d, little);
    OrderIsTotal(e, little);
  }

  /** Two flows are the same conversation: same protocol, same endpoints up to the direction where there is a reply. */
  predicate SameConversation(f: Flow, g: Flow, v6: bool) {
    f.proto == g.proto &&
    (EndsOf(f, v6) == EndsOf(g, v6)
     || (!IsOneWay(f, v6) && !IsOneWay(g, v6) && EndsOf(f, v6) == Swap(EndsOf(g, v6))))
  }

  lemma CanonicalExactly(f: Flow, g: Flow, v6: bool, little: bool)
    requires Wellformed(f, v6) && Wellformed(g, v6) && f.proto == g.proto
    ensures Canonical(f, v6, little) == Canonical(g, v6, little) <==> SameConversation(f, g, v6)
  {
    if !IsOneWay(f, v6) && !IsOneWay(g, v6) {
      SortedExactly(EndsOf(f, v6), EndsOf(g, v6), little);
    } else if IsOneWay(f, v6) && !IsOneWay(g, v6) {
      OneWayApart(f, g, v6, little);
    } else if !IsOneWay(f, v6) && IsOneWay(g, v6) {
      OneWayApart(g, f, v6, little);
    }
  }

  /** The type of a one-way message is no type of a paired one. */
  lemma OneWayApart(f: Flow, g: Flow, v6: bool, little: bool)
    requires Wellformed(f, v6) && Wellformed(g, v6) && f.proto == g.proto
    requires IsOneWay(f, v6) && !IsOneWay(g, v6)
    ensures Canonical(f, v6, little) != Canonical(g, v6, little) && EndsOf(f, v6) != EndsOf(g, v6)
  {
    PairsAreMutual(v6, g.icmpType);
    assert f.icmpType != g.icmpType;
    assert f.icmpType != PairOf(v6, g.icmpType).other;
  }

  // ---- The bytes ----

  predicate WritesPorts(proto: byte) { proto == ICMP || proto == ICMPV6 || Ported(proto) }

  function Tail(proto: byte, e: Ends): bytes
    requires Small(e)
  {
    [proto, 0] + if WritesPorts(proto) then Word16(e.portA) + Word16(e.portB) else []
  }

  function Layout(proto: byte, e: Ends): bytes
    requires Small(e)
  {
    [0, 0] + e.ipA + e.ipB + Tail(proto, e)
  }

  /** What SHA-1 is given. */
  function Hashed(f: Flow, v6: bool, little: bool): bytes
    requires Wellformed(f, v6)
  {
    Layout(f.proto, Canonical(f, v6, little))
  }

  lemma Parts(a: bytes, b: bytes, c: bytes, a': bytes, b': bytes, c': bytes, n: nat)
    requires |a| == |b| == |a'| == |b'| == n && [0, 0] + a + b + c == [0, 0] + a' + b' + c'
    ensures a == a' && b == b' && c == c'
  {
    var x, y := [0, 0] + a + b + c, [0, 0] + a' + b' + c';
    assert x[2..2 + n] == a && y[2..2 + n] == a';
    assert x[2 + n..2 + 2 * n] == b && y[2 + n..2 + 2 * n] == b';
    assert x[2 + 2 * n..] == c && y[2 + 2 * n..] == c';
  }

  lemma TailExactly(proto: byte, proto': byte, d: Ends, e: Ends)
    requires Small(d) && Small(e) && Tail(proto, d) == Tail(proto', e)
    ensures proto == proto' && (WritesPorts(proto) ==> d.portA == e.portA && d.portB == e.portB)
  {
    var x, y := Tail(proto, d), Tail(proto', e);
    assert x[0] == proto && y[0] == proto';
    if WritesPorts(proto) {
      assert x[2] == d.portA / 256 && x[3] == d.portA % 256 && x[4] == d.portB / 256 && x[5] == d.portB % 256;
      assert y[2] == e.portA / 256 && y[3] == e.portA % 256 && y[4] == e.portB / 256 && y[5] == e.portB % 256;
    }
  }

  lemma LayoutExactly(proto: byte, proto': byte, d: Ends, e: Ends, n: nat)
    requires Small(d) && Small(e) && |d.ipA| == |e.ipA| == n && Layout(proto, d) == Layout(proto', e)
    ensures proto == proto' && d.ipA == e.ipA && d.ipB == e.ipB
    ensures WritesPorts(proto) ==> d.portA == e.portA && d.portB == e.portB
  {
    Parts(d.ipA, d.ipB, Tail(proto, d), e.ipA, e.ipB, Tail(proto', e), n);
    TailExactly(proto, proto', d, e);
  }

  /** Two flows of one address family give SHA-1 the same bytes exactly when they are the same conversation. */
  lemma HashedExactly(f: Flow, g: Flow, v6: bool, little: bool)
    requires Wellformed(f, v6) && Wellformed(g, v6)
    ensures Hashed(f, v6, little) == Hashed(g, v6, little) <==> SameConversation(f, g, v6)
  {
    var d, e := Canonical(f, v6, little), Canonical(g, v6, little);
    if Hashed(f, v6, little) == Hashed(g, v6, little) {
      LayoutExactly(f.proto, g.proto, d, e, |f.src|);
      assert d == e;
    }
    if f.proto == g.proto {
      CanonicalExactly(f, g, v6, little);
    }
  }

  /** For TCP, UDP and SCTP: the same endpoints, in either direction. */
  lemma PortedExactly(f: Flow, g: Flow, v6: bool, little: bool)
    requires Wellformed(f, v6) && Wellformed(g, v6) && Ported(f.proto) && Ported(g.proto)
    ensures Hashed(f, v6, little) == Hashed(g, v6, little) <==>
            f.proto == g.proto
            && ((f.src == g.src && f.dst == g.dst && f.sport == g.sport && f.dport == g.dport)
                || (f.src == g.dst && f.dst == g.src && f.sport == g.dport && f.dport == g.sport))
  {
    HashedExactly(f, g, v6, little);
  }

  /** For ICMP and ICMPv6: a request and its reply the other way; one-way messages only with themselves. */
  lemma IcmpExactly(f: Flow, g: Flow, v6: bool, little: bool)
    requires Wellformed(f, v6) && Wellformed(g, v6) && IsIcmp(f, v6) && IsIcmp(g, v6)
    ensures Hashed(f, v6, little) == Hashed(g, v6, little) <==>
            (f.src == g.src && f.dst == g.dst && f.icmpType == g.icmpType
             && (IsOneWay(f, v6) ==> f.icmpCode == g.icmpCode))
            || (f.src == g.dst && f.dst == g.src && PairOf(v6, f.icmpType) == Pair(g.icmpType))
  {
    HashedExactly(f, g, v6, little);
    if PairOf(v6, f.icmpType).Pair? {
      PairsAreMutual(v6, f.icmpType);
    }
    if PairOf(v6, g.icmpType).Pair? {
      PairsAreMutual(v6, g.icmpType);
    }
  }

  /** Which protocols have ports of their own, and for which two port fields are hashed. */
  lemma PortsExactly(proto: byte)
    ensures Ported(proto) <==> proto in {6, 17, 132}
    ensures WritesPorts(proto) <==> proto in {1, 6, 17, 58, 132}
  {
  }

  /** TCP from 192.168.1.1 port 8080 to 10.0.0.2 port 80: the lesser address first, everything in network order. */
  lemma HashedExample(little: bool)
    ensures var f := Flow(6, [192, 168, 1, 1], [10, 0, 0, 2], 8080, 80, 0, 0);
            Wellformed(f, false) &&
            Hashed(f, false, little) == [0, 0, 10, 0, 0, 2, 192, 168, 1, 1, 6, 0, 0, 80, 31, 144]
  {
  }

  /** An echo request: its type and the type of the reply stand for ports; GRE has none. */
  lemma EchoExample(little: bool)
    ensures var f := Flow(1, [10, 0, 0, 2], [192, 168, 1, 1], 0, 0, 8, 0);
            Wellformed(f, false) &&
            Hashed(f, false, little) == [0, 0, 10, 0, 0, 2, 192, 168, 1, 1, 1, 0, 0, 8, 0, 0]
    ensures var f := Flow(47, [10, 0, 0, 2], [192, 168, 1, 1], 5, 6, 0, 0);
            Wellformed(f, false) && Hashed(f, false, little) == [0, 0, 10, 0, 0, 2, 192, 168, 1, 1, 47, 0]
  {
  }

  // ---- Hosts ----

  /** The two kinds of host compare the ports alike. */
  predicate ComparedAlike(p: nat, q: nat)
    requires p < TWO16 && q < TWO16
  {
    InHost(p, true) < InHost(q, true) <==> InHost(p, false) < InHost(q, false)
  }

  lemma OrdersAgree(e: Ends)
    requires Small(e)
    ensures Sorted(e, true) == Sorted(e, false) <==> e.ipA != e.ipB || ComparedAlike(e.portA, e.portB)
  {
    CompareIsOrder(e.ipA, e.ipB);
  }

  /** Hosts of either byte order hash the same bytes exactly if the message is one-way, the addresses
      differ, or the byte-swapped ports compare as the ports do. */
  lemma HostsAgreeExactly(f: Flow, v6: bool)
    requires Wellformed(f, v6)
    ensures Hashed(f, v6, true) == Hashed(f, v6, false) <==>
            IsOneWay(f, v6) || f.src != f.dst || ComparedAlike(EndsOf(f, v6).portA, EndsOf(f, v6).portB)
  {
    var d, e := Canonical(f, v6, true), Canonical(f, v6, false);
    OrdersAgree(EndsOf(f, v6));
    if Hashed(f, v6, true) == Hashed(f, v6, false) {
      LayoutExactly(f.proto, f.proto, d, e, |f.src|);
    }
  }

  /** From 127.0.0.1 to itself, ports 256 and 1. */
  const LOCAL := Flow(TCP, [127, 0, 0, 1], [127, 0, 0, 1], 256, 1, 0, 0)

  lemma HostsDisagree()
    ensures Wellformed(LOCAL, false) && Hashed(LOCAL, false, true) != Hashed(LOCAL, false, false)
  {
    HostsAgreeExactly(LOCAL, false);
  }

  // ---- The buffer ----

  /** `ndpi_community_id_buf_copy` at `off`. */
  method Append(buf: array<byte>, off: nat, part: bytes) returns (end: nat)
    requires off + |part| <= buf.Length
    modifies buf
    ensures end == off + |part| && buf[..end] == old(buf[..off]) + part
  {
    var i := 0;
    while i < |part|
      invariant 0 <= i <= |part| && buf[..off + i] == old(buf[..off]) + part[..i]
    {
      buf[off + i] := part[i];
      assert part[..i + 1] == part[..i] + [part[i]];
      i := i + 1;
    }
    assert part[..i] == part;
    end := off + |part|;
  }

  /** The part of `ndpi_flowv4_flow_hash` and `ndpi_flowv6_flow_hash` before SHA-1. It fits the 40 bytes. */
  method Fill(f: Flow, v6: bool, little: bool, buf: array<byte>) returns (off: nat)
    requires Wellformed(f, v6) && buf.Length == 40
    modifies buf
    ensures off <= 40 && buf[..off] == Hashed(f, v6, little)
  {
    var e := EndsOf(f, v6);
    if !(IsOneWay(f, v6) || InOrder(e, little)) {
      e := Swap(e);
    }
    off := Lay(f.proto, e, buf);
  }

  /** The seed, the addresses and the rest. */
  method Lay(proto: byte, e: Ends, buf: array<byte>) returns (off: nat)
    requires Small(e) && |e.ipA| <= 16 && buf.Length == 40
    modifies buf
    ensures off <= 40 && buf[..off] == Layout(proto, e)
  {
    off := Append(buf, 0, [0, 0]);
    assert buf[..off] == [0, 0];
    off := Append(buf, off, e.ipA);
    assert buf[..off] == [0, 0] + e.ipA;
    off := Append(buf, off, e.ipB);
    assert buf[..off] == [0, 0] + e.ipA + e.ipB;
    off := Finish(proto, e, buf, off);
  }

  /** The end of the buffer: the protocol, a pad and, for some protocols, the ports. */
  method Finish(proto: byte, e: Ends, buf: array<byte>, start: nat) returns (off: nat)
    requires Small(e) && start + 6 <= buf.Length
    modifies buf
    ensures off <= buf.Length && buf[..off] == old(buf[..start]) + Tail(proto, e)
  {
    off := Append(buf, start, [proto]);
    off := Append(buf, off, [0]);
    if WritesPorts(proto) {
      off := Append(buf, off, Word16(e.portA));
      off := Append(buf, off, Word16(e.portB));
    }
  }
}
