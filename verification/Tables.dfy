/** Registration of dissectors, and the four pre-filtered tables built from the registered ones. */
module Tables {

  // NDPI_SELECTION_BITMASK_PROTOCOL_*
  const IP: bv32 := 0x001
  const INT_TCP: bv32 := 0x002
  const INT_UDP: bv32 := 0x004
  const INT_TCP_OR_UDP: bv32 := 0x008
  const HAS_PAYLOAD: bv32 := 0x010
  const NO_TCP_RETRANSMISSION: bv32 := 0x020
  const IPV6: bv32 := 0x040
  const IPV4_OR_IPV6: bv32 := 0x080
  const COMPLETE_TRAFFIC: bv32 := 0x100

  const NUM_BITS := 512
  const MAX_SUPPORTED := 282
  const UNKNOWN := 0
  const MATCHED_BY_CONTENT := 65534

  /** A protocol bitmask is the set of its bits; a protocol id is taken modulo 512. */
  type Bitmask = set<nat>

  function Bit(protocol: nat): nat {
    protocol % NUM_BITS
  }

  /** `ndpi_call_function_struct`. Functions are numbered; 0 is NULL. */
  datatype Entry = Entry(func: nat, selection: bv32, detection: Bitmask, excluded: Bitmask, protocol: nat)

  const EMPTY := Entry(0, 0, {}, {}, 0)

  /** The test `(selection & packet) == selection`. */
  predicate Selected(e: Entry, packet: bv32) {
    e.selection & packet == e.selection
  }

  // ---- Filtering ----

  function Filter(s: seq<Entry>, keep: Entry -> bool): seq<Entry> {
    if s == [] then []
    else
      var front, x := s[..|s| - 1], s[|s| - 1];
      Filter(front, keep) + (if keep(x) then [x] else [])
  }

  lemma {:induction false} FilterIn(s: seq<Entry>, keep: Entry -> bool, e: Entry)
    ensures e in Filter(s, keep) <==> e in s && keep(e)
  {
    if s != [] {
      var front, x := s[..|s| - 1], s[|s| - 1];
      FilterIn(front, keep, e);
      assert s == front + [x];
    }
  }

  lemma FilterNext(s: seq<Entry>, a: nat, keep: Entry -> bool)
    requires a < |s|
    ensures Filter(s[..a + 1], keep) == if keep(s[a]) then Filter(s[..a], keep) + [s[a]] else Filter(s[..a], keep)
  {
    assert s[..a + 1][..a] == s[..a];
  }

  /** Filtering twice is filtering once with a test that agrees on the elements there are. */
  lemma {:induction false} FilterTwice(s: seq<Entry>, p: Entry -> bool, q: Entry -> bool, r: Entry -> bool)
    requires forall x :: x in s ==> (r(x) <==> p(x) && q(x))
    ensures Filter(Filter(s, p), q) == Filter(s, r)
  {
    if s != [] {
      var front, x := s[..|s| - 1], s[|s| - 1];
      FilterTwice(front, p, q, r);
      assert x in s;
      if p(x) {
        assert (Filter(front, p) + [x])[..|Filter(front, p)|] == Filter(front, p);
      } else {
        assert Filter(front, p) + [] == Filter(front, p);
      }
    }
  }

  predicate ForTcp(e: Entry) {
    e.selection & (INT_TCP | INT_TCP_OR_UDP | COMPLETE_TRAFFIC) != 0
  }

  predicate ForTcpWithoutPayload(e: Entry) {
    ForTcp(e) && e.selection & HAS_PAYLOAD == 0
  }

  predicate ForUdp(e: Entry) {
    e.selection & (INT_UDP | INT_TCP_OR_UDP | COMPLETE_TRAFFIC) != 0
  }

  predicate ForOther(e: Entry) {
    e.selection & (INT_TCP | INT_UDP | INT_TCP_OR_UDP) == 0 || e.selection & COMPLETE_TRAFFIC != 0
  }

  /** Some transport, or the complete-traffic bit. */
  predicate HasTransport(e: Entry) {
    e.selection & (INT_TCP | INT_UDP | INT_TCP_OR_UDP | COMPLETE_TRAFFIC) != 0
  }

  /** The four tables by the bits of the selection masks, and the size of a protocol bitmask. */
  lemma TablesExactly(e: Entry)
    ensures ForTcp(e) <==> e.selection & 0x10a != 0
    ensures ForTcpWithoutPayload(e) <==> e.selection & 0x10a != 0 && e.selection & 0x010 == 0
    ensures ForUdp(e) <==> e.selection & 0x10c != 0
    ensures ForOther(e) <==> e.selection & 0x00e == 0 || e.selection & 0x100 != 0
    ensures HasTransport(e) <==> e.selection & 0x10e != 0
    ensures e.protocol < 512 ==> Bit(e.protocol) == e.protocol
  {
  }

  // ---- Packets ----

  datatype Transport = Tcp | Udp | Other

  datatype Packet = Packet(v4: bool, v6: bool, transport: Transport, payload: nat, retransmission: bool)

  /** The selection bits of a packet, as `ndpi_detection_process_packet` collects them. */
  function PacketBits(p: Packet): bv32 {
    COMPLETE_TRAFFIC
    | (if p.v4 then IP | IPV4_OR_IPV6 else 0)
    | (if p.transport.Tcp? then INT_TCP | INT_TCP_OR_UDP else 0)
    | (if p.transport.Udp? then INT_UDP | INT_TCP_OR_UDP else 0)
    | (if p.payload != 0 then HAS_PAYLOAD else 0)
    | (if !p.retransmission then NO_TCP_RETRANSMISSION else 0)
    | (if p.v6 then IPV6 | IPV4_OR_IPV6 else 0)
  }

  /** Each selection bit of a packet says one thing about it, and there are no others. */
  lemma PacketBitsExactly(p: Packet)
    ensures PacketBits(p) & 0x001 != 0 <==> p.v4
    ensures PacketBits(p) & 0x002 != 0 <==> p.transport.Tcp?
    ensures PacketBits(p) & 0x004 != 0 <==> p.transport.Udp?
    ensures PacketBits(p) & 0x008 != 0 <==> p.transport.Tcp? || p.transport.Udp?
    ensures PacketBits(p) & 0x010 != 0 <==> p.payload > 0
    ensures PacketBits(p) & 0x020 != 0 <==> !p.retransmission
    ensures PacketBits(p) & 0x040 != 0 <==> p.v6
    ensures PacketBits(p) & 0x080 != 0 <==> p.v4 || p.v6
    ensures PacketBits(p) & 0x100 != 0
    ensures PacketBits(p) < 0x200
  {
  }

  // ---- The detection module ----

  datatype Defaults = Defaults(func: nat, index: nat, id: nat, subprotocols: seq<nat>)

  /** One call of `ndpi_set_bitmask_protocol_detection`. */
  datatype Registration = Registration(protocol: nat, func: nat, selection: bv32, saveUnknown: bool, addDetection: bool)

  predicate Registered(e: Entry) {
    e.func != 0 && e.excluded == {Bit(e.protocol)}
  }

  /**
   The registered slots and the protocol defaults. Slots in use are empty or registered, and the
   defaults of a protocol with a dissector name its own slot.
   */
  datatype Module = Module(callbacks: seq<Entry>, count: nat, defaults: seq<Defaults>)

  ghost predicate Consistent(m: Module) {
    && |m.callbacks| == MAX_SUPPORTED + 1 && m.count <= |m.callbacks|
    && |m.defaults| == NUM_BITS
    && (forall i :: 0 <= i < |m.callbacks| ==> m.callbacks[i] == EMPTY || (i < m.count && Registered(m.callbacks[i])))
    && (forall p :: 0 <= p < |m.defaults| ==> m.defaults[p].index < |m.callbacks|)
    && (forall p :: 0 <= p < |m.defaults| && m.defaults[p].func != 0 ==>
          m.defaults[p].index < m.count &&
          m.callbacks[m.defaults[p].index].func == m.defaults[p].func &&
          m.callbacks[m.defaults[p].index].protocol == p)
    && (forall p, s :: 0 <= p < |m.defaults| && s in m.defaults[p].subprotocols ==> s < NUM_BITS || s == MATCHED_BY_CONTENT)
  }

  class Engine {
    var callbacks: seq<Entry>
    var count: nat
    var defaults: seq<Defaults>
    var tcpPayload: seq<Entry>
    var tcpNoPayload: seq<Entry>
    var udp: seq<Entry>
    var other: seq<Entry>

    function View(): Module
      reads this`callbacks, this`count, this`defaults
    {
      Module(callbacks, count, defaults)
    }

    ghost predicate Valid()
      reads this`callbacks, this`count, this`defaults
    {
      Consistent(View())
    }

    ghost predicate Built()
      reads this
    {
      && Valid()
      && tcpPayload == Filter(callbacks[..count], ForTcp)
      && tcpNoPayload == Filter(callbacks[..count], ForTcpWithoutPayload)
      && udp == Filter(callbacks[..count], ForUdp)
      && other == Filter(callbacks[..count], ForOther)
    }

    /** All slots zeroed. `ids` and `subs` stand for the protocol defaults table. */
    constructor (ids: seq<nat>, subs: seq<seq<nat>>)
      requires |ids| == |subs| == NUM_BITS
      requires forall p, s :: 0 <= p < |subs| && s in subs[p] ==> s < NUM_BITS || s == MATCHED_BY_CONTENT
      ensures Valid() && count == 0
    {
      callbacks := seq(MAX_SUPPORTED + 1, _ => EMPTY);
      count := 0;
      defaults := seq(NUM_BITS, i requires 0 <= i < NUM_BITS => Defaults(0, 0, ids[i], subs[i]));
      tcpPayload, tcpNoPayload, udp, other := [], [], [], [];
    }

    /** A disabled protocol leaves its slot empty; the slot is used up all the same. */
    method Register(enabled: Bitmask, r: Registration)
      requires Valid() && count < |callbacks| && r.protocol < NUM_BITS && r.func != 0
      modifies this`callbacks, this`count, this`defaults
      ensures Valid() && count == old(count) + 1 && |callbacks| == |old(callbacks)|
      ensures forall i :: 0 <= i < |callbacks| && i != old(count) ==> callbacks[i] == old(callbacks)[i]
      ensures if Bit(r.protocol) in enabled then
                callbacks[old(count)] == Entry(r.func, r.selection,
                  (if r.saveUnknown then {0} else {}) + (if r.addDetection then {Bit(r.protocol)} else {}),
                  {Bit(r.protocol)}, r.protocol) &&
                defaults[r.protocol].func == r.func && defaults[r.protocol].index == old(count)
              else callbacks == old(callbacks) && defaults == old(defaults)
    {
      if Bit(r.protocol) in enabled {
        defaults := defaults[r.protocol := defaults[r.protocol].(index := count, func := r.func)];
        var e := callbacks[count].(func := r.func, protocol := r.protocol, selection := r.selection);
        if r.saveUnknown {
          e := e.(detection := {0});
        }
        if r.addDetection {
          e := e.(detection := e.detection + {Bit(r.protocol)});
        }
        e := e.(excluded := {Bit(r.protocol)});
        callbacks := callbacks[count := e];
      }
      count := count + 1;
    }

    /** The table-building loops at the end of `ndpi_set_protocol_detection_bitmask2`. */
    method BuildTables()
      requires Valid()
      modifies this`tcpPayload, this`tcpNoPayload, this`udp, this`other
      ensures Built()
    {
      BuildTcp();
      BuildUdp();
      BuildOther();
    }

    method BuildTcp()
      requires count <= |callbacks|
      modifies this`tcpPayload, this`tcpNoPayload
      ensures tcpPayload == Filter(callbacks[..count], ForTcp)
      ensures tcpNoPayload == Filter(callbacks[..count], ForTcpWithoutPayload)
    {
      tcpPayload, tcpNoPayload := [], [];
      for a := 0 to count
        invariant tcpPayload == Filter(callbacks[..a], ForTcp)
        invariant tcpNoPayload == Filter(callbacks[..a], ForTcpWithoutPayload)
      {
        FilterNext(callbacks, a, ForTcp);
        FilterNext(callbacks, a, ForTcpWithoutPayload);
        if ForTcp(callbacks[a]) {
          tcpPayload := tcpPayload + [callbacks[a]];
          if callbacks[a].selection & HAS_PAYLOAD == 0 {
            tcpNoPayload := tcpNoPayload + [callbacks[a]];
          }
        }
      }
    }

    method BuildUdp()
      requires count <= |callbacks|
      modifies this`udp
      ensures udp == Filter(callbacks[..count], ForUdp)
    {
      udp := [];
      for a := 0 to count
        invariant udp == Filter(callbacks[..a], ForUdp)
      {
        FilterNext(callbacks, a, ForUdp);
        if ForUdp(callbacks[a]) {
          udp := udp + [callbacks[a]];
        }
      }
    }

    method BuildOther()
      requires count <= |callbacks|
      modifies this`other
      ensures other == Filter(callbacks[..count], ForOther)
    {
      other := [];
      for a := 0 to count
        invariant other == Filter(callbacks[..a], ForOther)
      {
        FilterNext(callbacks, a, ForOther);
        if ForOther(callbacks[a]) {
          other := other + [callbacks[a]];
        }
      }
    }

    /** The table `ndpi_check_flow_func` scans for a packet. */
    function Table(p: Packet): seq<Entry>
      reads this
    {
      match p.transport
      case Tcp => if p.payload != 0 then tcpPayload else tcpNoPayload
      case Udp => udp
      case Other => other
    }
  }

  // ---- The fast tables visit what the full table would ----

  lemma TcpBits(e: Entry, p: Packet)
    requires p.transport.Tcp? && Selected(e, PacketBits(p))
    ensures HasTransport(e) <==> ForTcp(e)
    ensures p.payload == 0 ==> e.selection & HAS_PAYLOAD == 0
  {
  }

  lemma UdpBits(e: Entry, p: Packet)
    requires p.transport.Udp? && Selected(e, PacketBits(p))
    ensures HasTransport(e) <==> ForUdp(e)
  {
  }

  lemma OtherBits(e: Entry, p: Packet)
    requires p.transport.Other? && Selected(e, PacketBits(p))
    ensures ForOther(e)
  {
  }

  /** What a scan of a table calls on, as far as the selection test goes, in order. */
  function Visited(table: seq<Entry>, p: Packet): seq<Entry> {
    Filter(table, (e: Entry) => Selected(e, PacketBits(p)))
  }

  /** What a scan of the whole callback table would call on. */
  function VisitedInFull(callbacks: seq<Entry>, p: Packet): seq<Entry> {
    Filter(callbacks, (e: Entry) => Selected(e, PacketBits(p)) && (p.transport.Other? || HasTransport(e)))
  }

  lemma TcpRefines(callbacks: seq<Entry>, p: Packet)
    requires p.transport.Tcp?
    ensures p.payload != 0 ==> Visited(Filter(callbacks, ForTcp), p) == VisitedInFull(callbacks, p)
    ensures p.payload == 0 ==> Visited(Filter(callbacks, ForTcpWithoutPayload), p) == VisitedInFull(callbacks, p)
  {
    var selected := (e: Entry) => Selected(e, PacketBits(p));
    var full := (e: Entry) => Selected(e, PacketBits(p)) && (p.transport.Other? || HasTransport(e));
    forall e | e in callbacks && selected(e)
      ensures full(e) == ForTcp(e) && (p.payload == 0 ==> full(e) == ForTcpWithoutPayload(e))
    {
      TcpBits(e, p);
    }
    if p.payload != 0 {
      FilterTwice(callbacks, ForTcp, selected, full);
    } else {
      FilterTwice(callbacks, ForTcpWithoutPayload, selected, full);
    }
  }

  lemma UdpRefines(callbacks: seq<Entry>, p: Packet)
    requires p.transport.Udp?
    ensures Visited(Filter(callbacks, ForUdp), p) == VisitedInFull(callbacks, p)
  {
    var selected := (e: Entry) => Selected(e, PacketBits(p));
    var full := (e: Entry) => Selected(e, PacketBits(p)) && (p.transport.Other? || HasTransport(e));
    forall e | e in callbacks && selected(e) ensures full(e) == ForUdp(e) {
      UdpBits(e, p);
    }
    FilterTwice(callbacks, ForUdp, selected, full);
  }

  lemma OtherRefines(callbacks: seq<Entry>, p: Packet)
    requires p.transport.Other?
    ensures Visited(Filter(callbacks, ForOther), p) == VisitedInFull(callbacks, p)
  {
    var selected := (e: Entry) => Selected(e, PacketBits(p));
    var full := (e: Entry) => Selected(e, PacketBits(p)) && (p.transport.Other? || HasTransport(e));
    forall e | e in callbacks && selected(e) ensures full(e) == ForOther(e) {
      OtherBits(e, p);
    }
    FilterTwice(callbacks, ForOther, selected, full);
  }

  /** The table a packet is looked up in, from any callback table. */
  function FastTable(callbacks: seq<Entry>, p: Packet): seq<Entry> {
    match p.transport
    case Tcp => if p.payload != 0 then Filter(callbacks, ForTcp) else Filter(callbacks, ForTcpWithoutPayload)
    case Udp => Filter(callbacks, ForUdp)
    case Other => Filter(callbacks, ForOther)
  }

  /** The tables hold registered slots only. */
  lemma FastTableIn(callbacks: seq<Entry>, count: nat, p: Packet)
    requires count <= |callbacks|
    ensures forall e :: e in FastTable(callbacks[..count], p) ==> e in callbacks
  {
    var used := callbacks[..count];
    forall e | e in FastTable(used, p)
      ensures e in callbacks
    {
      FilterIn(used, ForTcp, e);
      FilterIn(used, ForTcpWithoutPayload, e);
      FilterIn(used, ForUdp, e);
      FilterIn(used, ForOther, e);
      assert e in used;
    }
  }

  /** For every registration history and every packet. */
  lemma FastTablesRefine(callbacks: seq<Entry>, p: Packet)
    ensures Visited(FastTable(callbacks, p), p) == VisitedInFull(callbacks, p)
  {
    match p.transport {
      case Tcp => TcpRefines(callbacks, p);
      case Udp => UdpRefines(callbacks, p);
      case Other => OtherRefines(callbacks, p);
    }
  }
}
