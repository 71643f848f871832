/** From a packet to its payload: IPv4, IPv6 with extension headers, then TCP, UDP and ICMP. */
module Slicer {
  import opened Bytes

  const ICMP := 1
  const TCP := 6
  const UDP := 17
  const ICMPV6 := 58
  const NO_NEXT_HEADER := 59
  const FRAGMENT := 44

  /** Where a layer starts, how long it is, and which protocol it carries. */
  datatype Layer = Bad | Layer(off: nat, len: nat, protocol: nat)

  /** Hop-by-hop options, routing, fragment, no next header, destination options, mobility. */
  const EXTENSIONS: set<nat> := {0, 43, 44, 59, 60, 135}

  /** The test of the source. */
  predicate IsExtension(nxt: nat) {
    nxt == 0 || nxt == 43 || nxt == FRAGMENT || nxt == 60 || nxt == 135 || nxt == NO_NEXT_HEADER
  }

  lemma ExtensionsAre(nxt: nat)
    ensures IsExtension(nxt) <==> nxt in EXTENSIONS
  {
  }

  function U16(p: bytes, i: nat): nat
    requires i + 1 < |p|
  {
    var hi: nat := p[i];
    hi * 256 + p[i + 1]
  }

  // ---- The header chain (sections 4 and 4.5 of RFC 8200) ----

  /** The length of an extension header: eight bytes for a fragment header, else one more than its second byte, in units of eight. */
  function HeaderLength(p: bytes, off: nat, nxt: nat): nat
    requires off + 1 < |p|
  {
    var units: nat := p[off + 1];
    if nxt == 44 then 8 else 8 * (units + 1)
  }

  /** A fragment header whose 13-bit offset, the first bits of its third and fourth byte, is not zero. */
  predicate LaterFragment(p: bytes, off: nat, nxt: nat)
    requires off + 3 < |p|
  {
    nxt == 44 && (p[off + 2] > 0 || p[off + 3] >= 8)
  }

  /** The upper-layer header behind a chain of complete extension headers; a later fragment has none. */
  function Chain(p: bytes, off: nat, len: nat, nxt: nat): Layer
    requires off + len <= |p|
    decreases len
  {
    if nxt !in EXTENSIONS then Layer(off, len, nxt)
    else if nxt == 59 || len < 2 then Bad
    else
      var h := HeaderLength(p, off, nxt);
      if len < h || LaterFragment(p, off, nxt) then Bad
      else Chain(p, off + h, len - h, p[off])
  }

  /**
   The chain runs out of packet before it comes to an upper-layer header: `l3` counts what is left of
   the packet, and the loop looks at nothing further once that is at most one byte. A fragment header
   is counted with five bytes there, not with its eight.
   */
  predicate CutOff(p: bytes, off: nat, len: nat, nxt: nat, l3: nat)
    requires off + len <= |p|
    decreases len
  {
    if nxt !in EXTENSIONS then false
    else if l3 <= 1 then true
    else if nxt == 59 || len < 2 then false
    else
      var h := HeaderLength(p, off, nxt);
      var counted := if nxt == 44 then 5 else h;
      len >= h && l3 >= counted && !LaterFragment(p, off, nxt)
      && CutOff(p, off + h, len - h, p[off], l3 - counted)
  }

  /** A chain is not both complete and cut off. */
  lemma {:induction false} CutOffIsBad(p: bytes, off: nat, len: nat, nxt: nat, l3: nat)
    requires off + len <= |p| && len <= l3 && CutOff(p, off, len, nxt, l3)
    ensures Chain(p, off, len, nxt) == Bad
    decreases len
  {
    if l3 > 1 {
      var h := HeaderLength(p, off, nxt);
      CutOffIsBad(p, off + h, len - h, p[off], l3 - if nxt == 44 then 5 else h);
    }
  }

  /**
   `ndpi_handle_ipv6_extension_headers`. It passes on the header chain (and its upper-layer header), and
   besides exactly the chains that are cut off, as if their last header were the upper layer.
   */
  method ExtensionHeaders(p: bytes, l3len: nat, off: nat, len: nat, nxt: byte)
    returns (ok: bool, off': nat, len': nat, nxt': byte)
    requires off + len <= |p| && len <= l3len
    ensures ok <==> Chain(p, off, len, nxt).Layer? || CutOff(p, off, len, nxt, l3len)
    ensures ok ==> off <= off' && off' + len' == off + len
    ensures ok ==> if CutOff(p, off, len, nxt, l3len) then nxt' in EXTENSIONS && len' <= 1
                   else Chain(p, off, len, nxt) == Layer(off', len', nxt')
  {
    var l3: nat := l3len;
    ok, off', len', nxt' := true, off, len, nxt;
    while l3 > 1 && IsExtension(nxt')
      invariant ok && off <= off' && off' + len' == off + len && len' <= l3
      invariant Chain(p, off', len', nxt') == Chain(p, off, len, nxt)
      invariant CutOff(p, off', len', nxt', l3) <==> CutOff(p, off, len, nxt, l3len)
      decreases len'
    {
      ExtensionsAre(nxt');
      if nxt' == NO_NEXT_HEADER {
        ok := false;
        return;
      }
      if nxt' == FRAGMENT {
        if len' < 8 {
          ok := false;
          return;
        }
        if l3 < 5 {
          ok := false;
          return;
        }
        l3 := l3 - 5;
        var fragOffset := U16(p, off' + 2) / 8;
        if fragOffset != 0 {
          ok := false;
          return;
        }
        nxt' := p[off'];
        len' := len' - 8;
        off' := off' + 8;
      } else {
        if len' < 2 {
          ok := false;
          return;
        }
        var h: nat := p[off' + 1];
        h := h * 8 + 8;
        if h > l3 {
          ok := false;
          return;
        }
        l3 := l3 - h;
        if len' < h {
          ok := false;
          return;
        }
        nxt' := p[off'];
        len' := len' - h;
        off' := off' + h;
      }
    }
  }

  // ---- The IP header ----

  function Version(p: bytes): nat
    requires |p| > 0
  {
    p[0] / 16
  }

  function Ihl(p: bytes): nat
    requires |p| > 0
  {
    p[0] % 16
  }

  /** An IPv4 header of at least five words (section 3.1 of RFC 791). */
  predicate IsV4(p: bytes) {
    |p| >= 20 && 0x45 <= p[0] < 0x50
  }

  /** An IPv6 header (section 3 of RFC 8200). */
  predicate IsV6(p: bytes) {
    |p| >= 40 && 0x60 <= p[0] < 0x70
  }

  /** The bytes of an IPv4 header, and of the whole datagram. */
  function V4Header(p: bytes): nat
    requires IsV4(p)
  {
    4 * (p[0] - 0x40)
  }

  function V4Total(p: bytes): nat
    requires IsV4(p)
  {
    var high: nat := p[2];
    256 * high + p[3]
  }

  function V6Payload(p: bytes): nat
    requires IsV6(p)
  {
    var high: nat := p[4];
    256 * high + p[5]
  }

  /** The datagram is whole, and the 13 bits of its fragment offset are zero. */
  predicate StartsDatagram(p: bytes)
    requires IsV4(p)
  {
    V4Header(p) <= V4Total(p) <= |p| && p[6] % 32 == 0 && p[7] == 0
  }

  /** What lies above IP, by the two standards. */
  function Upper(p: bytes): Layer {
    if IsV4(p) then
      if StartsDatagram(p) then Layer(V4Header(p), V4Total(p) - V4Header(p), p[9]) else Bad
    else if IsV6(p) && V6Payload(p) <= |p| - 40 then Chain(p, 40, V6Payload(p), p[6])
    else Bad
  }

  /** `ndpi_iph_is_valid_and_not_fragmented`. */
  predicate Unfragmented(p: bytes)
    requires |p| >= 20
  {
    !(|p| < Ihl(p) * 4 || |p| < U16(p, 2) || U16(p, 2) < Ihl(p) * 4 || U16(p, 6) % 0x2000 != 0)
  }

  lemma FragmentBits(a: nat, b: nat)
    requires a < 256 && b < 256
    ensures (a * 256 + b) % 0x2000 == 0 <==> a % 32 == 0 && b == 0
  {
    var q, r := a / 32, a % 32;
    assert a * 256 + b == q * 0x2000 + (r * 256 + b);
    assert (a * 256 + b) % 0x2000 == r * 256 + b;
  }

  /** The test of the source is that of the standard. */
  lemma UnfragmentedExactly(p: bytes)
    requires IsV4(p)
    ensures Version(p) == 4 && Ihl(p) >= 5 && Ihl(p) * 4 == V4Header(p)
    ensures Unfragmented(p) <==> StartsDatagram(p)
  {
    FragmentBits(p[6], p[7]);
  }

  lemma VersionsExactly(p: bytes)
    requires |p| >= 20
    ensures Version(p) == 4 && Ihl(p) >= 5 <==> IsV4(p)
    ensures Version(p) == 6 && |p| >= 40 <==> IsV6(p)
  {
  }

  /** An IPv6 packet whose extension headers end with the packet. */
  predicate CutOffPacket(p: bytes) {
    IsV6(p) && V6Payload(p) <= |p| - 40 && CutOff(p, 40, V6Payload(p), p[6], |p| - 40)
  }

  /** `ndpi_detection_get_l4_internal`. */
  method GetL4(p: bytes) returns (r: Layer)
    requires |p| < TWO16
    ensures r.Layer? <==> Upper(p).Layer? || CutOffPacket(p)
    ensures r.Layer? ==> r.off + r.len <= |p|
    ensures r.Layer? ==> if CutOffPacket(p) then r.protocol in EXTENSIONS && r.len <= 1 else r == Upper(p)
    ensures CutOffPacket(p) ==> Upper(p) == Bad
  {
    if CutOffPacket(p) {
      CutOffIsBad(p, 40, V6Payload(p), p[6], |p| - 40);
    }
    if |p| < 20 {
      return Bad;
    }
    VersionsExactly(p);
    if Version(p) == 4 && Ihl(p) >= 5 {
      UnfragmentedExactly(p);
      if Unfragmented(p) {
        var length := U16(p, 2);
        var hlen := Ihl(p) * 4;
        if length == 0 {
          length := |p|;
        }
        r := Layer(hlen, if length > hlen then length - hlen else 0, p[9]);
      } else {
        r := Bad;
      }
    } else if Version(p) == 6 && |p| >= 40 {
      if |p| - 40 >= U16(p, 4) {
        var ok, off, len, nxt := ExtensionHeaders(p, |p| - 40, 40, U16(p, 4), p[6]);
        r := if ok then Layer(off, len, nxt) else Bad;
      } else {
        r := Bad;
      }
    } else {
      r := Bad;
    }
  }

  // ---- The payload ----

  datatype Slice =
    | Rejected
    | TcpPayload(header: nat, off: nat, len: nat)
    | UdpPayload(header: nat, off: nat, len: nat)
    | IcmpPayload(off: nat, len: nat)
    | Generic(off: nat)

  /** The data offset of a TCP header, in words. */
  function DataOffset(p: bytes, l: Layer): nat
    requires l.Layer? && l.off + l.len <= |p| && l.len >= 20
  {
    p[l.off + 12] / 16
  }

  /** A data offset under five words, which no TCP header can have. */
  predicate ShortOffset(p: bytes, l: Layer)
    requires l.Layer? && l.off + l.len <= |p|
  {
    l.protocol == 6 && l.len >= 20 && DataOffset(p, l) < 5
  }

  /**
   The payload a layer yields by section 3.1 of RFC 9293 and by RFC 768: what lies behind a TCP header of at
   least 20 bytes, or behind the 8 bytes of a UDP header. A TCP header that does not fit leaves no payload.
   */
  function PayloadOf(p: bytes, l: Layer): Slice
    requires l.Layer? && l.off + l.len <= |p|
  {
    if l.protocol == 6 && l.len >= 20 then
      if 5 <= DataOffset(p, l) <= l.len / 4 then
        TcpPayload(l.off, l.off + 4 * DataOffset(p, l), l.len - 4 * DataOffset(p, l))
      else Generic(0)
    else if l.protocol == 17 && l.len >= 8 then UdpPayload(l.off, l.off + 8, l.len - 8)
    else if (l.protocol == 1 || l.protocol == 58) && l.len >= 8 then IcmpPayload(l.off, l.len)
    else Generic(l.off)
  }

  predicate Inside(p: bytes, s: Slice) {
    match s
    case TcpPayload(h, off, len) => h <= off && h + 20 <= |p| && off + len <= |p|
    case UdpPayload(h, off, len) => h + 8 == off && off + len <= |p|
    case IcmpPayload(off, len) => off + len <= |p|
    case _ => true
  }

  /**
   `ndpi_init_packet`, as far as slicing goes. Every accepted slice lies inside the packet. It is the
   payload of the layer above IP, and lies behind the header, exactly if the layer has no short data offset.
   */
  method InitPacket(p: bytes, onlyV4: bool) returns (s: Slice)
    requires |p| < TWO16
    ensures Inside(p, s)
    ensures s != Rejected <==> !(onlyV4 && IsV6(p)) && (Upper(p).Layer? || CutOffPacket(p))
    ensures s.TcpPayload? || s.UdpPayload? || s.IcmpPayload? ==> Upper(p).Layer?
    ensures Upper(p).Layer? && !(onlyV4 && IsV6(p)) ==>
              Upper(p).off + Upper(p).len <= |p| && (s == PayloadOf(p, Upper(p)) <==> !ShortOffset(p, Upper(p)))
    ensures Upper(p).Layer? && !(onlyV4 && IsV6(p)) && ShortOffset(p, Upper(p)) ==>
              var words := DataOffset(p, Upper(p));
              s == TcpPayload(Upper(p).off, Upper(p).off + 4 * words, Upper(p).len - 4 * words)
    ensures s.TcpPayload? ==> (s.header + 20 <= s.off <==> !ShortOffset(p, Upper(p)))
    ensures onlyV4 && IsV6(p) ==> s == Rejected
  {
    if |p| < 20 {
      return Rejected;
    }
    VersionsExactly(p);
    if Version(p) == 4 && Ihl(p) >= 5 {
    } else if Version(p) == 6 && |p| >= 40 && !onlyV4 {
    } else {
      return Rejected;
    }
    var l := GetL4(p);
    if l.Bad? {
      return Rejected;
    }
    if l.protocol == TCP && l.len >= 20 {
      var hlen := p[l.off + 12] / 16 * 4;
      if l.len >= hlen {
        s := TcpPayload(l.off, l.off + hlen, l.len - hlen);
      } else {
        s := Generic(0);
      }
    } else if l.protocol == UDP && l.len >= 8 {
      s := UdpPayload(l.off, l.off + 8, l.len - 8);
    } else if (l.protocol == ICMP && l.len >= 8) || (l.protocol == ICMPV6 && l.len >= 8) {
      s := IcmpPayload(l.off, l.len);
    } else {
      s := Generic(l.off);
    }
  }

  /** The walk over the chain stays inside the packet and keeps its end. */
  lemma {:induction false} ChainInside(p: bytes, off: nat, len: nat, nxt: nat)
    requires off + len <= |p|
    ensures var c := Chain(p, off, len, nxt);
            c.Layer? ==> off <= c.off && c.off + c.len == off + len && c.protocol !in EXTENSIONS
    decreases len
  {
    if nxt in EXTENSIONS && nxt != 59 && len >= 2 {
      var h := HeaderLength(p, off, nxt);
      if len >= h && !LaterFragment(p, off, nxt) {
        ChainInside(p, off + h, len - h, p[off]);
      }
    }
  }

  /** An IPv6 header alone that announces hop-by-hop options, in a packet of `n` bytes. */
  function HeaderAlone(n: nat): (p: bytes)
    requires n >= 40
    ensures |p| == n && IsV6(p) && V6Payload(p) == 0 && p[6] == 0
  {
    seq<byte>(n, i => if i == 0 then 0x60 else 0)
  }

  /** Of 40 bytes it is cut off, and passed on; of 42 bytes it is not, and refused. */
  lemma CutOffExample()
    ensures CutOffPacket(HeaderAlone(40)) && Upper(HeaderAlone(40)) == Bad
    ensures !CutOffPacket(HeaderAlone(42)) && Upper(HeaderAlone(42)) == Bad
  {
  }

  /** An IPv4 packet of 40 bytes with a TCP header whose data offset is zero. */
  const SHORT_OFFSET: bytes := seq<byte>(40, i => if i == 0 then 0x45 else if i == 3 then 40 else if i == 9 then 6 else 0)

  /** The payload taken from it is its TCP header. */
  method ShortOffsetExample() returns (s: Slice)
    ensures ShortOffset(SHORT_OFFSET, Upper(SHORT_OFFSET)) && s == TcpPayload(20, 20, 20)
  {
    assert Upper(SHORT_OFFSET) == Layer(20, 20, TCP);
    s := InitPacket(SHORT_OFFSET, false);
  }

  /** Two IPv4 packets that differ in the flags of their seventh byte only. */
  predicate SameButFlags(p: bytes, q: bytes) {
    IsV4(p) && |p| == |q| && p[6] % 32 == q[6] % 32 && forall i :: 0 <= i < |p| && i != 6 ==> p[i] == q[i]
  }

  /** Don't Fragment and More Fragments change neither the layer nor the payload. */
  lemma FlagsDoNotMatter(p: bytes, q: bytes)
    requires SameButFlags(p, q)
    ensures Upper(q) == Upper(p)
    ensures Upper(p).Layer? ==> Upper(p).off + Upper(p).len <= |p| && PayloadOf(p, Upper(p)) == PayloadOf(q, Upper(q))
  {
  }

  /** A packet of 40 bytes with a TCP header and Don't Fragment. */
  const DONT_FRAGMENT: bytes :=
    seq<byte>(40, i => if i == 0 then 0x45 else if i == 3 then 40 else if i == 6 then 0x40
                       else if i == 9 then 6 else if i == 32 then 0x50 else 0)

  method DontFragmentExample() returns (s: Slice)
    ensures s == TcpPayload(20, 40, 0)
  {
    assert Upper(DONT_FRAGMENT) == Layer(20, 20, TCP);
    s := InitPacket(DONT_FRAGMENT, true);
  }

  /** An IPv6 packet of 65 bytes: hop-by-hop options, the header of a first fragment, UDP, one byte of payload. */
  const TWO_EXTENSIONS: bytes :=
    seq<byte>(65, i => if i == 0 then 0x60 else if i == 5 then 25 else if i == 40 then 44 else if i == 48 then 17
                       else if i == 51 then 1 else 0)

  method TwoExtensionsExample() returns (s: Slice)
    ensures s == UdpPayload(56, 64, 1)
  {
    var p := TWO_EXTENSIONS;
    assert Chain(p, 56, 9, 17) == Layer(56, 9, 17);
    assert Chain(p, 48, 17, 44) == Chain(p, 56, 9, 17);
    assert Chain(p, 40, 25, 0) == Chain(p, 48, 17, 44);
    assert Upper(p) == Layer(56, 9, UDP);
    s := InitPacket(p, false);
  }

  /** An IPv4 packet of 300 bytes: six words of header, More Fragments, UDP. */
  const LONG_V4: bytes :=
    seq<byte>(300, i => if i == 0 then 0x46 else if i == 2 then 1 else if i == 3 then 44 else if i == 6 then 0x20
                        else if i == 9 then 17 else 0)

  /** An IPv6 packet with 300 bytes of payload: destination options of sixteen bytes, then UDP. */
  const LONG_V6: bytes :=
    seq<byte>(340, i => if i == 0 then 0x60 else if i == 4 then 1 else if i == 5 then 44 else if i == 6 then 60
                        else if i == 40 then 17 else if i == 41 then 1 else 0)

  method LongExamples() returns (v4: Slice, v6: Slice)
    ensures v4 == UdpPayload(24, 32, 268) && v6 == UdpPayload(56, 64, 276)
  {
    assert Upper(LONG_V4) == Layer(24, 276, 17);
    v4 := InitPacket(LONG_V4, false);
    assert Chain(LONG_V6, 56, 284, 17) == Layer(56, 284, 17);
    assert Chain(LONG_V6, 40, 300, 60) == Chain(LONG_V6, 56, 284, 17);
    assert Upper(LONG_V6) == Layer(56, 284, 17);
    v6 := InitPacket(LONG_V6, false);
  }

  /** Later fragments, of IPv4 and of IPv6, at offset one. */
  const FRAGMENT_V4: bytes :=
    seq<byte>(40, i => if i == 0 then 0x45 else if i == 3 then 40 else if i == 7 then 1 else if i == 9 then 6 else 0)

  const FRAGMENT_V6: bytes :=
    seq<byte>(65, i => if i == 0 then 0x60 else if i == 5 then 25 else if i == 6 then 44 else if i == 40 then 17
                       else if i == 43 then 8 else 0)

  method FragmentExamples() returns (v4: Slice, v6: Slice)
    ensures v4 == v6 == Rejected
  {
    assert Upper(FRAGMENT_V4) == Bad;
    v4 := InitPacket(FRAGMENT_V4, false);
    assert Chain(FRAGMENT_V6, 40, 25, 44) == Bad;
    v6 := InitPacket(FRAGMENT_V6, false);
  }

  /** An ICMP message of eight bytes. */
  const ECHO: bytes := seq<byte>(28, i => if i == 0 then 0x45 else if i == 3 then 28 else if i == 9 then 1 else 0)

  method EchoExample() returns (s: Slice)
    ensures s == IcmpPayload(20, 8)
  {
    assert Upper(ECHO) == Layer(20, 8, 1);
    s := InitPacket(ECHO, true);
  }
}
