/**
 Dispatch over the tables. A dissector is any step that may set the flow's protocol stack and
 add to its exclusion set. Every call made is recorded.
 */
module Dispatch {
  import opened Tables

  /** What a dissector sees of a flow and may change. */
  datatype Verdict = Verdict(upper: nat, lower: nat, excluded: Bitmask)

  type Dissector = (nat, Verdict) -> Verdict

  /** Dissectors exclude protocols but never readmit one, and they set known ids. */
  ghost predicate Lawful(dissect: Dissector) {
    forall f: nat, v: Verdict :: v.excluded <= dissect(f, v).excluded && dissect(f, v).upper < NUM_BITS
  }

  /** One call: the entry it is made through, and what the flow shows before and after. */
  datatype Record = Record(entry: Entry, before: Verdict, after: Verdict)

  datatype Result = Result(v: Verdict, calls: seq<Record>)

  /** The tests shared by the three places a dissector is called from. */
  predicate Passes(e: Entry, excluded: Bitmask, detection: Bitmask, packet: bv32) {
    Selected(e, packet) && excluded !! e.excluded && e.detection * detection != {}
  }

  function Call(e: Entry, v: Verdict, dissect: Dissector): Result {
    var w := dissect(e.func, v);
    Result(w, [Record(e, v, w)])
  }

  // ---- What the dispatcher does, as functions ----

  /** The dissector of the guessed protocol goes first. */
  function Guessed(m: Module, guessed: nat, p: Packet, v: Verdict, dissect: Dissector): Result
    requires Consistent(m) && guessed < MAX_SUPPORTED
  {
    var d := m.defaults[guessed];
    var e := m.callbacks[d.index];
    var withoutPayload := p.transport.Tcp? && p.payload == 0;
    if d.id != UNKNOWN && Passes(e, v.excluded, {Bit(v.upper)}, PacketBits(p))
       && guessed != UNKNOWN && d.func != 0
       && (!withoutPayload || m.callbacks[guessed].selection & HAS_PAYLOAD == 0)
    then Call(e, v, dissect)
    else Result(v, [])
  }

  /** Then a table is scanned until a protocol is detected; `func` was called already. */
  function Scan(table: seq<Entry>, func: nat, detection: Bitmask, bits: bv32, v: Verdict, dissect: Dissector): Result {
    if table == [] then Result(v, [])
    else if func != table[0].func && Passes(table[0], v.excluded, detection, bits) then
      var first := Call(table[0], v, dissect);
      if first.v.upper != UNKNOWN then first
      else
        var rest := Scan(table[1..], func, detection, bits, first.v, dissect);
        Result(rest.v, first.calls + rest.calls)
    else Scan(table[1..], func, detection, bits, v, dissect)
  }

  /** A bound on the subprotocol lists: the loop follows the list of whatever is detected by now. */
  function Longest(ds: seq<Defaults>): (n: nat)
    ensures forall i :: 0 <= i < |ds| ==> |ds[i].subprotocols| <= n
  {
    if ds == [] then 0
    else
      var rest := Longest(ds[1..]);
      assert forall i :: 1 <= i < |ds| ==> ds[i] == ds[1..][i - 1];
      if |ds[0].subprotocols| > rest then |ds[0].subprotocols| else rest
  }

  /** One subprotocol is tried through the slot its defaults name. */
  function Subprotocol(m: Module, sub: nat, func: nat, detection: Bitmask, bits: bv32, v: Verdict, dissect: Dissector): Result
    requires Consistent(m) && sub < NUM_BITS
  {
    var d := m.defaults[sub];
    var e := m.callbacks[d.index];
    if func != d.func && Passes(e, v.excluded, detection, bits) then Call(e, v, dissect) else Result(v, [])
  }

  /** Last, the subprotocols of the detected protocol, until one of them is detected. */
  function Subprotocols(m: Module, a: nat, func: nat, detection: Bitmask, bits: bv32, v: Verdict, dissect: Dissector): Result
    requires Consistent(m) && v.upper < NUM_BITS && Lawful(dissect)
    decreases Longest(m.defaults) - a
  {
    var subs := m.defaults[v.upper].subprotocols;
    if a >= |subs| then Result(v, [])
    else if subs[a] == MATCHED_BY_CONTENT then Subprotocols(m, a + 1, func, detection, bits, v, dissect)
    else
      assert subs[a] in subs;
      var here := Subprotocol(m, subs[a], func, detection, bits, v, dissect);
      if here.v.lower != UNKNOWN then here
      else
        var rest := Subprotocols(m, a + 1, func, detection, bits, here.v, dissect);
        Result(rest.v, here.calls + rest.calls)
  }

  /** `check_ndpi_detection_func` on a given table. */
  function Check(m: Module, table: seq<Entry>, guessed: nat, p: Packet, v: Verdict, dissect: Dissector): Result
    requires Consistent(m) && guessed < MAX_SUPPORTED && v.upper < NUM_BITS && Lawful(dissect)
  {
    var detection := {Bit(v.upper)};
    var first := Guessed(m, guessed, p, v, dissect);
    var func := if first.calls == [] then 0 else m.defaults[guessed].func;
    var second :=
      if first.v.upper == UNKNOWN then Scan(table, func, detection, PacketBits(p), first.v, dissect)
      else Result(first.v, []);
    ScanBounded(table, func, detection, PacketBits(p), first.v, dissect);
    var third := Subprotocols(m, 0, func, detection, PacketBits(p), second.v, dissect);
    Result(third.v, first.calls + second.calls + third.calls)
  }

  lemma ScanBounded(table: seq<Entry>, func: nat, detection: Bitmask, bits: bv32, v: Verdict, dissect: Dissector)
    requires Lawful(dissect) && v.upper < NUM_BITS
    ensures Scan(table, func, detection, bits, v, dissect).v.upper < NUM_BITS
  {
  }

  // ---- Safety ----

  /** A call to a registered function whose own protocol is not excluded. */
  ghost predicate Safe(m: Module, r: Record)
    requires m.count <= |m.callbacks|
  {
    r.entry in m.callbacks[..m.count] && Registered(r.entry) && Bit(r.entry.protocol) !in r.before.excluded
  }

  /** All calls are safe, and from `first` on the exclusion set only grows, through every call. */
  ghost predicate Orderly(m: Module, first: Bitmask, r: Result)
    requires m.count <= |m.callbacks|
  {
    && first <= r.v.excluded
    && (forall i :: 0 <= i < |r.calls| ==> Safe(m, r.calls[i]))
    && (forall i :: 0 <= i < |r.calls| ==> first <= r.calls[i].before.excluded <= r.calls[i].after.excluded <= r.v.excluded)
    && (forall i, j :: 0 <= i < j < |r.calls| ==> r.calls[i].after.excluded <= r.calls[j].before.excluded)
  }

  lemma OrderlyThen(m: Module, first: Bitmask, r: Result, s: Result)
    requires m.count <= |m.callbacks| && Orderly(m, first, r) && Orderly(m, r.v.excluded, s)
    ensures Orderly(m, first, Result(s.v, r.calls + s.calls))
  {
  }

  /** An empty slot selects every packet and excludes nothing, but it never passes: it detects nothing. */
  lemma EmptyNeverPasses(excluded: Bitmask, detection: Bitmask, packet: bv32)
    ensures Selected(EMPTY, packet) && excluded !! EMPTY.excluded
    ensures !Passes(EMPTY, excluded, detection, packet)
  {
    assert (0 as bv32) & packet == 0;
  }

  lemma CallOrderly(m: Module, e: Entry, v: Verdict, detection: Bitmask, bits: bv32, dissect: Dissector)
    requires Consistent(m) && Lawful(dissect) && e in m.callbacks && Passes(e, v.excluded, detection, bits)
    ensures Orderly(m, v.excluded, Call(e, v, dissect))
  {
    EmptyNeverPasses(v.excluded, detection, bits);
    var i :| 0 <= i < |m.callbacks| && m.callbacks[i] == e;
    assert m.callbacks[..m.count][i] == e;
    assert Bit(e.protocol) in e.excluded;
  }

  lemma {:induction false} ScanOrderly(m: Module, table: seq<Entry>, func: nat, detection: Bitmask, bits: bv32, v: Verdict, dissect: Dissector)
    requires Consistent(m) && Lawful(dissect) && (forall e :: e in table ==> e in m.callbacks)
    ensures Orderly(m, v.excluded, Scan(table, func, detection, bits, v, dissect))
    decreases |table|
  {
    if table != [] {
      if func != table[0].func && Passes(table[0], v.excluded, detection, bits) {
        var first := Call(table[0], v, dissect);
        CallOrderly(m, table[0], v, detection, bits, dissect);
        if first.v.upper == UNKNOWN {
          ScanOrderly(m, table[1..], func, detection, bits, first.v, dissect);
          OrderlyThen(m, v.excluded, first, Scan(table[1..], func, detection, bits, first.v, dissect));
        }
      } else {
        ScanOrderly(m, table[1..], func, detection, bits, v, dissect);
      }
    }
  }

  lemma {:induction false} SubprotocolsOrderly(m: Module, a: nat, func: nat, detection: Bitmask, bits: bv32, v: Verdict, dissect: Dissector)
    requires Consistent(m) && v.upper < NUM_BITS && Lawful(dissect)
    ensures Orderly(m, v.excluded, Subprotocols(m, a, func, detection, bits, v, dissect))
    decreases Longest(m.defaults) - a
  {
    var subs := m.defaults[v.upper].subprotocols;
    if a < |subs| {
      if subs[a] == MATCHED_BY_CONTENT {
        SubprotocolsOrderly(m, a + 1, func, detection, bits, v, dissect);
      } else {
        assert subs[a] in subs;
        var here := Subprotocol(m, subs[a], func, detection, bits, v, dissect);
        if here.calls != [] {
          CallOrderly(m, m.callbacks[m.defaults[subs[a]].index], v, detection, bits, dissect);
        }
        if here.v.lower == UNKNOWN {
          SubprotocolsOrderly(m, a + 1, func, detection, bits, here.v, dissect);
          OrderlyThen(m, v.excluded, here, Subprotocols(m, a + 1, func, detection, bits, here.v, dissect));
        }
      }
    }
  }

  lemma GuessedOrderly(m: Module, guessed: nat, p: Packet, v: Verdict, dissect: Dissector)
    requires Consistent(m) && guessed < MAX_SUPPORTED && Lawful(dissect)
    ensures Orderly(m, v.excluded, Guessed(m, guessed, p, v, dissect))
    ensures v.upper < NUM_BITS ==> Guessed(m, guessed, p, v, dissect).v.upper < NUM_BITS
  {
    var e := m.callbacks[m.defaults[guessed].index];
    if Guessed(m, guessed, p, v, dissect).calls != [] {
      CallOrderly(m, e, v, {Bit(v.upper)}, PacketBits(p), dissect);
    }
  }

  /** Every call made for one packet, guessed, by the scan or for a subprotocol, is safe. */
  lemma CheckOrderly(m: Module, table: seq<Entry>, guessed: nat, p: Packet, v: Verdict, dissect: Dissector)
    requires Consistent(m) && guessed < MAX_SUPPORTED && v.upper < NUM_BITS && Lawful(dissect)
    requires forall e :: e in table ==> e in m.callbacks
    ensures Orderly(m, v.excluded, Check(m, table, guessed, p, v, dissect))
  {
    var detection := {Bit(v.upper)};
    var first := Guessed(m, guessed, p, v, dissect);
    var func := if first.calls == [] then 0 else m.defaults[guessed].func;
    var second :=
      if first.v.upper == UNKNOWN then Scan(table, func, detection, PacketBits(p), first.v, dissect)
      else Result(first.v, []);
    GuessedOrderly(m, guessed, p, v, dissect);
    ScanOrderly(m, table, func, detection, PacketBits(p), first.v, dissect);
    ScanBounded(table, func, detection, PacketBits(p), first.v, dissect);
    OrderlyThen(m, v.excluded, first, second);
    var third := Subprotocols(m, 0, func, detection, PacketBits(p), second.v, dissect);
    SubprotocolsOrderly(m, 0, func, detection, PacketBits(p), second.v, dissect);
    OrderlyThen(m, v.excluded, Result(second.v, first.calls + second.calls), third);
  }

  // ---- The fast tables make the same calls as the full table ----

  function Kept(e: Entry, keep: Entry -> bool): seq<Entry> { if keep(e) then [e] else [] }

  lemma FilterLast(s: seq<Entry>, keep: Entry -> bool)
    requires s != []
    ensures Filter(s, keep) == Filter(s[..|s| - 1], keep) + Kept(s[|s| - 1], keep)
  {
  }

  lemma {:induction false} FilterFront(s: seq<Entry>, keep: Entry -> bool)
    requires s != []
    ensures Filter(s, keep) == Kept(s[0], keep) + Filter(s[1..], keep)
  {
    var front, x := s[..|s| - 1], s[|s| - 1];
    FilterLast(s, keep);
    if front == [] {
      assert s[1..] == [];
    } else {
      var rest := s[1..];
      FilterFront(front, keep);
      FilterLast(rest, keep);
      assert rest[..|rest| - 1] == front[1..];
      GlueEntries(Kept(s[0], keep), Filter(front[1..], keep), Kept(x, keep));
    }
  }

  lemma GlueEntries(a: seq<Entry>, b: seq<Entry>, c: seq<Entry>)
    ensures a + b + c == a + (b + c)
  {
  }

  /** A scan only depends on the entries its selection test lets through. */
  lemma {:induction false} ScanOfSelected(table: seq<Entry>, func: nat, detection: Bitmask, p: Packet, v: Verdict, dissect: Dissector)
    ensures Scan(table, func, detection, PacketBits(p), v, dissect)
         == Scan(Visited(table, p), func, detection, PacketBits(p), v, dissect)
    decreases |table|
  {
    if table != [] {
      var bits := PacketBits(p);
      var e, rest := table[0], table[1..];
      FilterFront(table, (e: Entry) => Selected(e, bits));
      assert Selected(e, bits) ==> Visited(table, p) == [e] + Visited(rest, p) && Visited(table, p)[1..] == Visited(rest, p);
      assert !Selected(e, bits) ==> Visited(table, p) == Visited(rest, p);
      if func != e.func && Passes(e, v.excluded, detection, bits) {
        ScanOfSelected(rest, func, detection, p, Call(e, v, dissect).v, dissect);
      } else {
        ScanOfSelected(rest, func, detection, p, v, dissect);
      }
    }
  }

  /** Entries a packet of this transport is offered to at all. */
  function Offered(callbacks: seq<Entry>, p: Packet): seq<Entry> {
    Filter(callbacks, (e: Entry) => p.transport.Other? || HasTransport(e))
  }

  /** Same calls, same order, same verdict, whatever the dissectors do. */
  lemma FastScanIsFullScan(callbacks: seq<Entry>, func: nat, detection: Bitmask, p: Packet, v: Verdict, dissect: Dissector)
    ensures Scan(FastTable(callbacks, p), func, detection, PacketBits(p), v, dissect)
         == Scan(Offered(callbacks, p), func, detection, PacketBits(p), v, dissect)
  {
    FastTablesRefine(callbacks, p);
    ScanOfSelected(FastTable(callbacks, p), func, detection, p, v, dissect);
    ScanOfSelected(Offered(callbacks, p), func, detection, p, v, dissect);
    var offered := (e: Entry) => p.transport.Other? || HasTransport(e);
    var selected := (e: Entry) => Selected(e, PacketBits(p));
    var both := (e: Entry) => Selected(e, PacketBits(p)) && (p.transport.Other? || HasTransport(e));
    FilterTwice(callbacks, offered, selected, both);
  }

  // ---- Whole runs ----

  /** The part of a flow that dispatch depends on. */
  datatype FlowState = FlowState(v: Verdict, guessed: nat, alreadyGuessed: bool, initFinished: bool)

  const NEW_FLOW := FlowState(Verdict(0, 0, {}), 0, false, false)

  /** A packet, the guess made when it is the first one, and what the dissectors do with it. */
  datatype Arrival = Arrival(packet: Packet, syn: bool, ack: bool, guess: nat, dissect: Dissector)

  ghost predicate LawfulArrival(a: Arrival) {
    Lawful(a.dissect) && a.guess < MAX_SUPPORTED
  }

  /** `ndpi_init_packet`: a SYN on a flow without a detected protocol clears the flow but for its guess. */
  predicate Resets(st: FlowState, a: Arrival) {
    a.packet.transport.Tcp? && a.syn && !a.ack && st.initFinished && st.v.upper == UNKNOWN
  }

  function Prepared(st: FlowState, a: Arrival): FlowState {
    var st1 := if Resets(st, a) then NEW_FLOW.(guessed := st.guessed) else st;
    var st2 := st1.(initFinished := true);
    if st2.alreadyGuessed then st2 else st2.(guessed := a.guess, alreadyGuessed := true)
  }

  ghost predicate Sane(st: FlowState) {
    st.v.upper < NUM_BITS && st.guessed < MAX_SUPPORTED
  }

  /** One packet: nothing is dispatched once a protocol is detected. */
  function Process(m: Module, st: FlowState, a: Arrival): (r: (FlowState, seq<Record>))
    requires Consistent(m) && Sane(st) && LawfulArrival(a)
  {
    if st.v.upper != UNKNOWN then (st, [])
    else
      var s := Prepared(st, a);
      var r := Check(m, FastTable(m.callbacks[..m.count], a.packet), s.guessed, a.packet, s.v, a.dissect);
      (s.(v := r.v), r.calls)
  }

  lemma ProcessOrderly(m: Module, st: FlowState, a: Arrival)
    requires Consistent(m) && Sane(st) && LawfulArrival(a)
    ensures var (s, calls) := Process(m, st, a);
            Sane(s) && Orderly(m, if Resets(st, a) then {} else st.v.excluded, Result(s.v, calls))
  {
    if st.v.upper == UNKNOWN {
      var s := Prepared(st, a);
      FastTableIn(m.callbacks, m.count, a.packet);
      CheckOrderly(m, FastTable(m.callbacks[..m.count], a.packet), s.guessed, a.packet, s.v, a.dissect);
      CheckBounded(m, FastTable(m.callbacks[..m.count], a.packet), s.guessed, a.packet, s.v, a.dissect);
    }
  }

  lemma {:induction false} SubprotocolsBounded(m: Module, a: nat, func: nat, detection: Bitmask, bits: bv32, v: Verdict, dissect: Dissector)
    requires Consistent(m) && v.upper < NUM_BITS && Lawful(dissect)
    ensures Subprotocols(m, a, func, detection, bits, v, dissect).v.upper < NUM_BITS
    decreases Longest(m.defaults) - a
  {
    var subs := m.defaults[v.upper].subprotocols;
    if a < |subs| {
      if subs[a] == MATCHED_BY_CONTENT {
        SubprotocolsBounded(m, a + 1, func, detection, bits, v, dissect);
      } else {
        assert subs[a] in subs;
        var here := Subprotocol(m, subs[a], func, detection, bits, v, dissect);
        SubprotocolsBounded(m, a + 1, func, detection, bits, here.v, dissect);
      }
    }
  }

  lemma CheckBounded(m: Module, table: seq<Entry>, guessed: nat, p: Packet, v: Verdict, dissect: Dissector)
    requires Consistent(m) && guessed < MAX_SUPPORTED && v.upper < NUM_BITS && Lawful(dissect)
    ensures Check(m, table, guessed, p, v, dissect).v.upper < NUM_BITS
  {
    var detection := {Bit(v.upper)};
    var first := Guessed(m, guessed, p, v, dissect);
    var func := if first.calls == [] then 0 else m.defaults[guessed].func;
    ScanBounded(table, func, detection, PacketBits(p), first.v, dissect);
    var second :=
      if first.v.upper == UNKNOWN then Scan(table, func, detection, PacketBits(p), first.v, dissect)
      else Result(first.v, []);
    SubprotocolsBounded(m, 0, func, detection, PacketBits(p), second.v, dissect);
  }

  /** A recorded call and the number of resets before it. */
  datatype Stamped = Stamped(epoch: nat, record: Record)

  datatype History = History(st: FlowState, epoch: nat, calls: seq<Stamped>)

  function Stamp(epoch: nat, calls: seq<Record>): (r: seq<Stamped>)
    ensures |r| == |calls| && forall i :: 0 <= i < |r| ==> r[i] == Stamped(epoch, calls[i])
  {
    seq(|calls|, i requires 0 <= i < |calls| => Stamped(epoch, calls[i]))
  }

  ghost predicate AllLawful(arrivals: seq<Arrival>) {
    forall i :: 0 <= i < |arrivals| ==> LawfulArrival(arrivals[i])
  }

  ghost function Extend(m: Module, h: History, a: Arrival): History
    requires Consistent(m) && Sane(h.st) && LawfulArrival(a)
  {
    var epoch := if Resets(h.st, a) then h.epoch + 1 else h.epoch;
    var (st, calls) := Process(m, h.st, a);
    History(st, epoch, h.calls + Stamp(epoch, calls))
  }

  /** Every call so far is safe, and what was excluded stays so until the next reset. */
  ghost predicate Disciplined(m: Module, h: History)
    requires m.count <= |m.callbacks|
  {
    && Sane(h.st)
    && (forall i :: 0 <= i < |h.calls| ==> Safe(m, h.calls[i].record) && h.calls[i].epoch <= h.epoch)
    && (forall i :: 0 <= i < |h.calls| && h.calls[i].epoch == h.epoch ==> h.calls[i].record.after.excluded <= h.st.v.excluded)
    && (forall i, j :: 0 <= i < j < |h.calls| ==> h.calls[i].epoch <= h.calls[j].epoch)
    && (forall i, j :: 0 <= i < j < |h.calls| && h.calls[i].epoch == h.calls[j].epoch ==>
          h.calls[i].record.after.excluded <= h.calls[j].record.before.excluded)
  }

  lemma ExtendDisciplined(m: Module, h: History, a: Arrival)
    requires Consistent(m) && Disciplined(m, h) && LawfulArrival(a)
    ensures Disciplined(m, Extend(m, h, a))
  {
    ProcessOrderly(m, h.st, a);
  }

  ghost function RunAll(m: Module, arrivals: seq<Arrival>): (h: History)
    requires Consistent(m) && AllLawful(arrivals)
    ensures Disciplined(m, h)
  {
    if arrivals == [] then History(NEW_FLOW, 0, [])
    else
      var h := RunAll(m, arrivals[..|arrivals| - 1]);
      ExtendDisciplined(m, h, arrivals[|arrivals| - 1]);
      Extend(m, h, arrivals[|arrivals| - 1])
  }

  /**
   Over every run of packets: each call goes to a registered function whose own protocol is not
   excluded, and an entry excluded by then is not called again before the flow is reset.
   */
  lemma DispatchSafety(m: Module, arrivals: seq<Arrival>, j: nat)
    requires Consistent(m) && AllLawful(arrivals) && j < |RunAll(m, arrivals).calls|
    ensures var calls := RunAll(m, arrivals).calls;
            var called := calls[j].record;
            && called.entry in m.callbacks[..m.count] && called.entry.func != 0
            && Bit(called.entry.protocol) !in called.before.excluded
            && forall i :: 0 <= i < j && calls[i].epoch == calls[j].epoch ==>
                 Bit(called.entry.protocol) !in calls[i].record.after.excluded
  {
    var h := RunAll(m, arrivals);
    assert Disciplined(m, h);
    assert Safe(m, h.calls[j].record);
  }

  // ---- The same, in place on a flow ----

  lemma GlueRecords(a: seq<Record>, b: seq<Record>, c: seq<Record>)
    ensures a + b + c == a + (b + c)
  {
  }

  class Flow {
    var upper: nat
    var lower: nat
    var excluded: Bitmask
    var guessed: nat
    var alreadyGuessed: bool
    var initFinished: bool

    constructor ()
      ensures State() == NEW_FLOW
    {
      upper, lower, guessed, excluded, alreadyGuessed, initFinished := 0, 0, 0, {}, false, false;
    }

    ghost function Seen(): Verdict
      reads this
    {
      Verdict(upper, lower, excluded)
    }

    ghost function State(): FlowState
      reads this
    {
      FlowState(Seen(), guessed, alreadyGuessed, initFinished)
    }

    /** Runs one dissector on the flow. */
    method Invoke(e: Entry, dissect: Dissector) returns (r: Record)
      modifies this`upper, this`lower, this`excluded
      ensures Result(Seen(), [r]) == Call(e, old(Seen()), dissect)
    {
      var was := Verdict(upper, lower, excluded);
      var v := dissect(e.func, was);
      r := Record(e, was, v);
      upper, lower, excluded := v.upper, v.lower, v.excluded;
    }

    method CallGuessed(engine: Engine, p: Packet, dissect: Dissector) returns (func: nat, calls: seq<Record>)
      requires engine.Valid() && guessed < MAX_SUPPORTED
      modifies this`upper, this`lower, this`excluded
      ensures Result(Seen(), calls) == Guessed(engine.View(), guessed, p, old(Seen()), dissect)
      ensures func == if calls == [] then 0 else engine.defaults[guessed].func
    {
      func, calls := 0, [];
      var withoutPayload := p.transport.Tcp? && p.payload == 0;
      var d := engine.defaults[guessed];
      var e := engine.callbacks[d.index];
      if d.id != UNKNOWN && Passes(e, excluded, {Bit(upper)}, PacketBits(p)) {
        if guessed != UNKNOWN && d.func != 0
           && (!withoutPayload || engine.callbacks[guessed].selection & HAS_PAYLOAD == 0) {
          var r := Invoke(e, dissect);
          func, calls := d.func, [r];
        }
      }
    }

    method ScanTable(table: seq<Entry>, func: nat, detection: Bitmask, bits: bv32, dissect: Dissector)
      returns (calls: seq<Record>)
      modifies this`upper, this`lower, this`excluded
      ensures Result(Seen(), calls) == Scan(table, func, detection, bits, old(Seen()), dissect)
    {
      calls := [];
      ghost var whole := Scan(table, func, detection, bits, Seen(), dissect);
      var a := 0;
      assert table[0..] == table;
      while a < |table|
        invariant a <= |table|
        invariant var rest := Scan(table[a..], func, detection, bits, Seen(), dissect);
                  whole == Result(rest.v, calls + rest.calls)
      {
        ghost var rest := Scan(table[a..], func, detection, bits, Seen(), dissect);
        assert table[a..][0] == table[a] && table[a..][1..] == table[a + 1..];
        if func != table[a].func && Passes(table[a], excluded, detection, bits) {
          var r := Invoke(table[a], dissect);
          if upper != UNKNOWN {
            calls := calls + [r];
            return;
          }
          ghost var next := Scan(table[a + 1..], func, detection, bits, Seen(), dissect);
          assert calls + ([r] + next.calls) == calls + [r] + next.calls;
          calls := calls + [r];
        }
        a := a + 1;
      }
      assert calls + [] == calls;
    }

    method CallSubprotocol(engine: Engine, sub: nat, func: nat, detection: Bitmask, bits: bv32, dissect: Dissector)
      returns (calls: seq<Record>)
      requires engine.Valid() && sub < NUM_BITS
      modifies this`upper, this`lower, this`excluded
      ensures Result(Seen(), calls) == Subprotocol(engine.View(), sub, func, detection, bits, old(Seen()), dissect)
    {
      calls := [];
      var d := engine.defaults[sub];
      var e := engine.callbacks[d.index];
      if func != d.func && Passes(e, excluded, detection, bits) {
        var r := Invoke(e, dissect);
        calls := [r];
      }
    }

    method CallSubprotocols(engine: Engine, func: nat, detection: Bitmask, bits: bv32, dissect: Dissector)
      returns (calls: seq<Record>)
      requires engine.Valid() && Lawful(dissect) && upper < NUM_BITS
      modifies this`upper, this`lower, this`excluded
      ensures upper < NUM_BITS
      ensures Result(Seen(), calls) == Subprotocols(engine.View(), 0, func, detection, bits, old(Seen()), dissect)
    {
      calls := [];
      ghost var m := engine.View();
      ghost var whole := Subprotocols(m, 0, func, detection, bits, Seen(), dissect);
      var a := 0;
      while a < |engine.defaults[upper].subprotocols|
        invariant upper < NUM_BITS
        invariant var rest := Subprotocols(m, a, func, detection, bits, Seen(), dissect);
                  whole == Result(rest.v, calls + rest.calls)
        decreases Longest(m.defaults) - a
      {
        var sub := engine.defaults[upper].subprotocols[a];
        assert sub in engine.defaults[upper].subprotocols;
        if sub == MATCHED_BY_CONTENT {
          a := a + 1;
          continue;
        }
        var here := CallSubprotocol(engine, sub, func, detection, bits, dissect);
        ghost var before := calls;
        calls := calls + here;
        if lower != UNKNOWN {
          return;
        }
        a := a + 1;
        GlueRecords(before, here, Subprotocols(m, a, func, detection, bits, Seen(), dissect).calls);
      }
      assert calls + [] == calls;
    }

    /** `check_ndpi_detection_func` with the table of the packet. */
    method CheckDetection(engine: Engine, p: Packet, dissect: Dissector) returns (numCalls: nat, calls: seq<Record>)
      requires engine.Built() && Lawful(dissect) && guessed < MAX_SUPPORTED && upper < NUM_BITS
      modifies this`upper, this`lower, this`excluded
      ensures Result(Seen(), calls)
           == Check(engine.View(), FastTable(engine.callbacks[..engine.count], p), guessed, p, old(Seen()), dissect)
      ensures numCalls == |calls| + (if p.transport.Tcp? && p.payload == 0 then 1 else 0)
      ensures Orderly(engine.View(), old(excluded), Result(Seen(), calls))
    {
      ghost var v, m := Seen(), engine.View();
      var table := engine.Table(p);
      var detection := {Bit(upper)};
      FastTableIn(engine.callbacks, engine.count, p);
      CheckOrderly(m, table, guessed, p, v, dissect);
      var func, first := CallGuessed(engine, p, dissect);
      var second := [];
      ScanBounded(table, func, detection, PacketBits(p), Seen(), dissect);
      if upper == UNKNOWN {
        second := ScanTable(table, func, detection, PacketBits(p), dissect);
      }
      var third := CallSubprotocols(engine, func, detection, PacketBits(p), dissect);
      calls := first + second + third;
      numCalls := (if p.transport.Tcp? && p.payload == 0 then 1 else 0) + |calls|;
    }

    /** `ndpi_init_packet` and the guess: a SYN on an undetected flow clears all but the guess. */
    method Prepare(a: Arrival)
      modifies this
      ensures State() == Prepared(old(State()), a)
    {
      if a.packet.transport.Tcp? && a.syn && !a.ack && initFinished && upper == UNKNOWN {
        var kept := guessed;
        upper, lower, excluded, guessed, alreadyGuessed, initFinished := 0, 0, {}, 0, false, false;
        guessed := kept;
      }
      initFinished := true;
      if !alreadyGuessed {
        alreadyGuessed := true;
        guessed := a.guess;
      }
    }

    /** `ndpi_detection_process_packet`, as far as dispatch goes. */
    method ProcessPacket(engine: Engine, a: Arrival) returns (calls: seq<Record>)
      requires engine.Built() && Sane(State()) && LawfulArrival(a)
      modifies this
      ensures (State(), calls) == Process(engine.View(), old(State()), a)
      ensures Sane(State())
    {
      ProcessOrderly(engine.View(), State(), a);
      if upper != UNKNOWN {
        return [];
      }
      Prepare(a);
      var _, made := CheckDetection(engine, a.packet, a.dissect);
      calls := made;
    }

    /** A whole run of packets on a new flow, each call recorded with the number of resets before it. */
    method ProcessAll(engine: Engine, arrivals: seq<Arrival>) returns (epoch: nat, calls: seq<Stamped>)
      requires engine.Built() && State() == NEW_FLOW && AllLawful(arrivals)
      modifies this
      ensures History(State(), epoch, calls) == RunAll(engine.View(), arrivals)
      ensures Disciplined(engine.View(), History(State(), epoch, calls))
    {
      epoch, calls := 0, [];
      ghost var m := engine.View();
      ghost var h := History(NEW_FLOW, 0, []);
      for i := 0 to |arrivals|
        invariant engine.Built() && engine.View() == m
        invariant h == RunAll(m, arrivals[..i]) == History(State(), epoch, calls)
      {
        RunNext(m, arrivals, i);
        epoch, calls := ProcessNext(engine, arrivals[i], epoch, calls, h);
        h := Extend(m, h, arrivals[i]);
      }
      assert arrivals[..|arrivals|] == arrivals;
    }

    method ProcessNext(engine: Engine, a: Arrival, epoch: nat, calls: seq<Stamped>, ghost h: History)
      returns (epoch': nat, calls': seq<Stamped>)
      requires engine.Built() && LawfulArrival(a) && Sane(h.st) && h == History(State(), epoch, calls)
      modifies this
      ensures History(State(), epoch', calls') == Extend(engine.View(), h, a)
    {
      epoch' := epoch;
      if a.packet.transport.Tcp? && a.syn && !a.ack && initFinished && upper == UNKNOWN {
        epoch' := epoch + 1;
      }
      var made := ProcessPacket(engine, a);
      calls' := calls + Stamp(epoch', made);
    }
  }

  lemma RunNext(m: Module, arrivals: seq<Arrival>, i: nat)
    requires Consistent(m) && AllLawful(arrivals) && i < |arrivals|
    ensures RunAll(m, arrivals[..i + 1]) == Extend(m, RunAll(m, arrivals[..i]), arrivals[i])
  {
    assert arrivals[..i + 1][..i] == arrivals[..i];
  }
}
