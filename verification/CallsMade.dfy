/**
 Which dissectors are called: not only that a call made is a safe one, but that every call that is due
 is made, in the order of the tables, and that a detection ends the search.
 */
module CallsMade {
  import opened Tables
  import opened Dispatch

  // ---- When a call is due ----

  /** The packet has every property the entry asks for, the flow has excluded none of the entry's
      protocols, and the entry looks for something in flows of protocol `x`. */
  predicate Wanted(e: Entry, excluded: Bitmask, x: nat, bits: bv32) {
    e.selection & bits == e.selection && (forall b :: b in e.excluded ==> b !in excluded) && x in e.detection
  }

  lemma PassesExactly(e: Entry, excluded: Bitmask, x: nat, bits: bv32)
    ensures Passes(e, excluded, {x}, bits) <==> Wanted(e, excluded, x, bits)
  {
    assert x in e.detection ==> x in e.detection * {x};
  }

  /** What is wanted under more exclusions is wanted under fewer. */
  lemma WantedEarlier(e: Entry, fewer: Bitmask, more: Bitmask, x: nat, bits: bv32)
    requires fewer <= more && Wanted(e, more, x, bits)
    ensures Wanted(e, fewer, x, bits)
  {
  }

  // ---- Calls one behind the other ----

  /** What the flow shows once the first `k` calls were made. */
  function VerdictAt(v: Verdict, calls: seq<Record>, k: nat): Verdict
    requires k <= |calls|
  {
    if k == 0 then v else calls[k - 1].after
  }

  predicate LinkAt(v: Verdict, calls: seq<Record>, dissect: Dissector, k: nat)
    requires k < |calls|
  {
    calls[k].before == VerdictAt(v, calls, k) && calls[k].after == dissect(calls[k].entry.func, calls[k].before)
  }

  /** Each call works on what the one before it left, and the last one leaves the result. */
  ghost predicate Chained(v: Verdict, r: Result, dissect: Dissector) {
    r.v == VerdictAt(v, r.calls, |r.calls|) && forall k :: 0 <= k < |r.calls| ==> LinkAt(v, r.calls, dissect, k)
  }

  lemma ChainedThen(v: Verdict, r: Result, s: Result, dissect: Dissector)
    requires Chained(v, r, dissect) && Chained(r.v, s, dissect)
    ensures Chained(v, Result(s.v, r.calls + s.calls), dissect)
  {
    var calls := r.calls + s.calls;
    forall k | 0 <= k < |calls|
      ensures LinkAt(v, calls, dissect, k)
    {
      if k < |r.calls| {
        assert LinkAt(v, r.calls, dissect, k);
      } else {
        assert LinkAt(r.v, s.calls, dissect, k - |r.calls|);
      }
    }
  }

  lemma ChainedCall(e: Entry, v: Verdict, dissect: Dissector)
    ensures Chained(v, Call(e, v, dissect), dissect)
  {
  }

  /** Along a chain of lawful dissectors the exclusions only grow. */
  lemma {:induction false} ExclusionsGrow(v: Verdict, r: Result, dissect: Dissector, k: nat)
    requires Lawful(dissect) && Chained(v, r, dissect) && k <= |r.calls|
    ensures VerdictAt(v, r.calls, k).excluded <= r.v.excluded
    decreases |r.calls| - k
  {
    if k < |r.calls| {
      assert LinkAt(v, r.calls, dissect, k);
      ExclusionsGrow(v, r, dissect, k + 1);
    }
  }

  // ---- The scan of a table ----

  /** An entry that is due: wanted, and not the function called already. */
  predicate Due(e: Entry, func: nat, excluded: Bitmask, x: nat, bits: bv32) {
    e.func != func && Wanted(e, excluded, x, bits)
  }

  /** The `k`-th call is made through the `at[k]`-th entry, which is due; unless it is the last, it detects nothing. */
  predicate MadeAt(table: seq<Entry>, func: nat, x: nat, bits: bv32, calls: seq<Record>, at: seq<nat>, k: nat)
    requires |at| == |calls| && k < |calls|
  {
    at[k] < |table| && calls[k].entry == table[at[k]] && Due(table[at[k]], func, calls[k].before.excluded, x, bits)
    && (k + 1 < |calls| ==> at[k] < at[k + 1] && calls[k].after.upper == UNKNOWN)
  }

  /** The `i`-th entry lies between the `k`-th call and the one before it. */
  predicate Between(at: seq<nat>, i: nat, k: nat)
    requires k <= |at|
  {
    (k > 0 ==> at[k - 1] < i) && (k < |at| ==> i < at[k])
  }

  /** An entry passed over was not due when its turn came. Behind a detection no turn comes. */
  predicate PassedOver(table: seq<Entry>, func: nat, x: nat, bits: bv32, v: Verdict, r: Result, at: seq<nat>, i: nat, k: nat)
    requires |at| == |r.calls| && i < |table| && k <= |at|
  {
    Between(at, i, k) && (k < |at| || k == 0 || r.v.upper == UNKNOWN)
    ==> !Due(table[i], func, VerdictAt(v, r.calls, k).excluded, x, bits)
  }

  ghost predicate Scanned(table: seq<Entry>, func: nat, x: nat, bits: bv32, v: Verdict, r: Result, at: seq<nat>) {
    |at| == |r.calls|
    && (forall k :: 0 <= k < |at| ==> MadeAt(table, func, x, bits, r.calls, at, k))
    && forall i, k :: 0 <= i < |table| && 0 <= k <= |at| ==> PassedOver(table, func, x, bits, v, r, at, i, k)
  }

  function Shifted(at: seq<nat>): (r: seq<nat>)
    ensures |r| == |at| && forall k :: 0 <= k < |at| ==> r[k] == at[k] + 1
  {
    seq(|at|, k requires 0 <= k < |at| => at[k] + 1)
  }

  lemma ScannedSkip(table: seq<Entry>, func: nat, x: nat, bits: bv32, v: Verdict, r: Result, at: seq<nat>)
    requires table != [] && !Due(table[0], func, v.excluded, x, bits) && Scanned(table[1..], func, x, bits, v, r, at)
    ensures Scanned(table, func, x, bits, v, r, Shifted(at))
  {
    var up := Shifted(at);
    forall k | 0 <= k < |up|
      ensures MadeAt(table, func, x, bits, r.calls, up, k)
    {
      assert MadeAt(table[1..], func, x, bits, r.calls, at, k);
    }
    forall i, k | 0 <= i < |table| && 0 <= k <= |up|
      ensures PassedOver(table, func, x, bits, v, r, up, i, k)
    {
      if i > 0 {
        assert PassedOver(table[1..], func, x, bits, v, r, at, i - 1, k);
      }
    }
  }

  lemma ScannedStop(table: seq<Entry>, func: nat, x: nat, bits: bv32, v: Verdict, dissect: Dissector)
    requires table != [] && Due(table[0], func, v.excluded, x, bits)
    requires Call(table[0], v, dissect).v.upper != UNKNOWN
    ensures Scanned(table, func, x, bits, v, Call(table[0], v, dissect), [0])
  {
  }

  lemma MadeMore(table: seq<Entry>, func: nat, x: nat, bits: bv32, c: Record, calls: seq<Record>, at: seq<nat>, k: nat)
    requires table != [] && |at| == |calls| && k < |calls| + 1
    requires c.entry == table[0] && Due(table[0], func, c.before.excluded, x, bits) && c.after.upper == UNKNOWN
    requires forall j :: 0 <= j < |at| ==> MadeAt(table[1..], func, x, bits, calls, at, j)
    ensures MadeAt(table, func, x, bits, [c] + calls, [0] + Shifted(at), k)
  {
    if k > 0 {
      assert MadeAt(table[1..], func, x, bits, calls, at, k - 1);
    }
  }

  lemma PassedMore(table: seq<Entry>, func: nat, x: nat, bits: bv32, v: Verdict, c: Record, rest: Result, at: seq<nat>, i: nat, k: nat)
    requires table != [] && |at| == |rest.calls| && i < |table| && k <= |at| + 1
    requires c.after.upper == UNKNOWN
    requires i > 0 && k > 0 ==> PassedOver(table[1..], func, x, bits, c.after, rest, at, i - 1, k - 1)
    ensures PassedOver(table, func, x, bits, v, Result(rest.v, [c] + rest.calls), [0] + Shifted(at), i, k)
  {
    if i > 0 && k > 0 {
      assert VerdictAt(v, [c] + rest.calls, k) == VerdictAt(c.after, rest.calls, k - 1);
    }
  }

  lemma ScannedCall(table: seq<Entry>, func: nat, x: nat, bits: bv32, v: Verdict, c: Record, rest: Result, at: seq<nat>)
    requires table != [] && c.entry == table[0] && Due(table[0], func, c.before.excluded, x, bits)
    requires c.after.upper == UNKNOWN && Scanned(table[1..], func, x, bits, c.after, rest, at)
    requires |at| == 0 ==> rest.v == c.after
    ensures Scanned(table, func, x, bits, v, Result(rest.v, [c] + rest.calls), [0] + Shifted(at))
  {
    var up, r := [0] + Shifted(at), Result(rest.v, [c] + rest.calls);
    forall k | 0 <= k < |up|
      ensures MadeAt(table, func, x, bits, r.calls, up, k)
    {
      MadeMore(table, func, x, bits, c, rest.calls, at, k);
    }
    forall i, k | 0 <= i < |table| && 0 <= k <= |up|
      ensures PassedOver(table, func, x, bits, v, r, up, i, k)
    {
      PassedMore(table, func, x, bits, v, c, rest, at, i, k);
    }
  }

  /** The scan calls exactly the entries that are due when their turn comes, in order, up to the first detection. */
  lemma {:induction false} ScanExactly(table: seq<Entry>, func: nat, x: nat, bits: bv32, v: Verdict, dissect: Dissector)
    returns (at: seq<nat>)
    ensures var r := Scan(table, func, {x}, bits, v, dissect);
            Chained(v, r, dissect) && Scanned(table, func, x, bits, v, r, at)
    decreases |table|
  {
    at := [];
    if table != [] {
      PassesExactly(table[0], v.excluded, x, bits);
      if Due(table[0], func, v.excluded, x, bits) {
        var first := Call(table[0], v, dissect);
        ChainedCall(table[0], v, dissect);
        if first.v.upper != UNKNOWN {
          ScannedStop(table, func, x, bits, v, dissect);
          at := [0];
        } else {
          var below := ScanExactly(table[1..], func, x, bits, first.v, dissect);
          var rest := Scan(table[1..], func, {x}, bits, first.v, dissect);
          ScannedCall(table, func, x, bits, v, first.calls[0], rest, below);
          ChainedThen(v, first, rest, dissect);
          at := [0] + Shifted(below);
        }
      } else {
        var below := ScanExactly(table[1..], func, x, bits, v, dissect);
        ScannedSkip(table, func, x, bits, v, Scan(table[1..], func, {x}, bits, v, dissect), below);
        at := Shifted(below);
      }
    }
  }

  /** Where an entry lies among the calls: it was called, or passed over before some call or behind the last. */
  lemma {:induction false} Placed(at: seq<nat>, i: nat) returns (k: nat)
    requires forall j :: 0 <= j < |at| - 1 ==> at[j] < at[j + 1]
    ensures k <= |at| && (Between(at, i, k) || (k < |at| && at[k] == i))
    decreases |at|
  {
    k := |at|;
    if at != [] && i <= at[|at| - 1] {
      var last := |at| - 1;
      if i == at[last] {
        k := last;
      } else {
        k := Placed(at[..last], i);
      }
    }
  }

  lemma Rising(table: seq<Entry>, func: nat, x: nat, bits: bv32, v: Verdict, r: Result, at: seq<nat>)
    requires Scanned(table, func, x, bits, v, r, at)
    ensures forall j :: 0 <= j < |at| - 1 ==> at[j] < at[j + 1]
  {
    forall j | 0 <= j < |at| - 1
      ensures at[j] < at[j + 1]
    {
      assert MadeAt(table, func, x, bits, r.calls, at, j);
    }
  }

  lemma NotDueAfter(table: seq<Entry>, func: nat, x: nat, bits: bv32, v: Verdict, r: Result, at: seq<nat>, dissect: Dissector, i: nat, k: nat)
    requires Lawful(dissect) && Chained(v, r, dissect) && Scanned(table, func, x, bits, v, r, at)
    requires r.v.upper == UNKNOWN && i < |table| && k <= |at| && Between(at, i, k)
    ensures !Due(table[i], func, r.v.excluded, x, bits)
  {
    assert PassedOver(table, func, x, bits, v, r, at, i, k);
    ExclusionsGrow(v, r, dissect, k);
    if Wanted(table[i], r.v.excluded, x, bits) {
      WantedEarlier(table[i], VerdictAt(v, r.calls, k).excluded, r.v.excluded, x, bits);
    }
  }

  /** If the scan ends without a detection, every entry still due under the final exclusions was called. */
  lemma NoneSkipped(table: seq<Entry>, func: nat, x: nat, bits: bv32, v: Verdict, r: Result, at: seq<nat>, dissect: Dissector, i: nat)
    requires Lawful(dissect) && Chained(v, r, dissect) && Scanned(table, func, x, bits, v, r, at)
    requires r.v.upper == UNKNOWN && i < |table| && Due(table[i], func, r.v.excluded, x, bits)
    ensures exists k :: 0 <= k < |r.calls| && r.calls[k].entry == table[i]
  {
    Rising(table, func, x, bits, v, r, at);
    var k := Placed(at, i);
    if Between(at, i, k) {
      NotDueAfter(table, func, x, bits, v, r, at, dissect, i, k);
    } else {
      assert MadeAt(table, func, x, bits, r.calls, at, k);
      assert r.calls[k].entry == table[i];
    }
  }

  // ---- The guessed protocol ----

  /** The dissector of a guess is due. */
  predicate GuessDue(m: Module, guessed: nat, p: Packet, v: Verdict)
    requires Consistent(m) && guessed < MAX_SUPPORTED
  {
    guessed != 0 && m.defaults[guessed].id != 0 && m.defaults[guessed].func != 0
    && Wanted(m.callbacks[m.defaults[guessed].index], v.excluded, Bit(v.upper), PacketBits(p))
  }

  /** The slot whose number is the guessed protocol, whatever is registered there, asks for a payload. */
  predicate Misjudged(m: Module, guessed: nat, p: Packet)
    requires Consistent(m) && guessed < MAX_SUPPORTED
  {
    p.transport.Tcp? && p.payload == 0 && m.callbacks[guessed].selection & HAS_PAYLOAD != 0
  }

  /**
   The dissector registered for the guess is called exactly if it is due, except that for a TCP packet
   without payload the test looks at the slot numbered like the protocol and not at the protocol's slot.
   */
  lemma GuessExactly(m: Module, guessed: nat, p: Packet, v: Verdict, dissect: Dissector)
    requires Consistent(m) && guessed < MAX_SUPPORTED
    ensures var r := Guessed(m, guessed, p, v, dissect);
            Chained(v, r, dissect) && |r.calls| == (if GuessDue(m, guessed, p, v) && !Misjudged(m, guessed, p) then 1 else 0)
            && (r.calls != [] ==> r.calls[0].entry.protocol == guessed && r.calls[0].entry.func == m.defaults[guessed].func
                                  && r.calls[0].entry == m.callbacks[m.defaults[guessed].index])
  {
    PassesExactly(m.callbacks[m.defaults[guessed].index], v.excluded, Bit(v.upper), PacketBits(p));
    ChainedCall(m.callbacks[m.defaults[guessed].index], v, dissect);
  }

  /** Protocol 5 in slot 0, for any TCP packet, and protocol 9 in slot 5, for those with a payload. */
  const TWO_SLOTS := Module(
    seq(MAX_SUPPORTED + 1, i => if i == 0 then Entry(1, INT_TCP, {0}, {5}, 5)
                                else if i == 5 then Entry(2, INT_TCP | HAS_PAYLOAD, {0}, {9}, 9) else EMPTY),
    6,
    seq(NUM_BITS, i requires 0 <= i < NUM_BITS => Defaults(if i == 5 then 1 else if i == 9 then 2 else 0, if i == 9 then 5 else 0, i, [])))

  /** On a guess of 5 and a packet without payload, the dissector of 5 is due and is not called. */
  lemma MisjudgedExample(dissect: Dissector)
    ensures var p := Packet(true, false, Tcp, 0, false);
            var v := Verdict(UNKNOWN, UNKNOWN, {});
            Consistent(TWO_SLOTS) && GuessDue(TWO_SLOTS, 5, p, v) && Guessed(TWO_SLOTS, 5, p, v, dissect).calls == []
  {
    assert Consistent(TWO_SLOTS);
    GuessExactly(TWO_SLOTS, 5, Packet(true, false, Tcp, 0, false), Verdict(UNKNOWN, UNKNOWN, {}), dissect);
  }

  // ---- The subprotocols ----

  /** The dissector of a listed subprotocol is due. */
  predicate SubDue(m: Module, sub: nat, func: nat, excluded: Bitmask, x: nat, bits: bv32)
    requires Consistent(m)
  {
    sub < NUM_BITS && m.defaults[sub].func != func
    && Wanted(m.callbacks[m.defaults[sub].index], excluded, x, bits)
  }

  /** The `k`-th call goes to the subprotocol at `at[k]` in the list of the protocol detected by then. */
  predicate SubMadeAt(m: Module, func: nat, x: nat, bits: bv32, calls: seq<Record>, at: seq<nat>, k: nat)
    requires Consistent(m) && |at| == |calls| && k < |calls|
  {
    var upper := calls[k].before.upper;
    upper < NUM_BITS && at[k] < |m.defaults[upper].subprotocols|
    && var sub := m.defaults[upper].subprotocols[at[k]];
       SubDue(m, sub, func, calls[k].before.excluded, x, bits)
       && calls[k].entry == m.callbacks[m.defaults[sub].index]
       && (k + 1 < |calls| ==> at[k] < at[k + 1] && calls[k].after.lower == UNKNOWN)
  }

  ghost predicate SubsTried(m: Module, func: nat, x: nat, bits: bv32, calls: seq<Record>, at: seq<nat>)
    requires Consistent(m)
  {
    |at| == |calls| && forall k :: 0 <= k < |at| ==> SubMadeAt(m, func, x, bits, calls, at, k)
  }

  lemma SubsTriedMore(m: Module, func: nat, x: nat, bits: bv32, c: Record, calls: seq<Record>, at: seq<nat>, a: nat)
    requires Consistent(m) && SubsTried(m, func, x, bits, [c], [a]) && SubsTried(m, func, x, bits, calls, at)
    requires at != [] ==> a < at[0]
    requires c.after.lower == UNKNOWN
    ensures SubsTried(m, func, x, bits, [c] + calls, [a] + at)
  {
    assert SubMadeAt(m, func, x, bits, [c], [a], 0);
    forall k | 0 <= k < |at| + 1
      ensures SubMadeAt(m, func, x, bits, [c] + calls, [a] + at, k)
    {
      if k > 0 {
        assert SubMadeAt(m, func, x, bits, calls, at, k - 1);
      }
    }
  }

  /** One listed subprotocol. */
  lemma SubprotocolExactly(m: Module, sub: nat, func: nat, x: nat, bits: bv32, v: Verdict, dissect: Dissector)
    requires Consistent(m) && sub < NUM_BITS
    ensures var r := Subprotocol(m, sub, func, {x}, bits, v, dissect);
            Chained(v, r, dissect) && |r.calls| == (if SubDue(m, sub, func, v.excluded, x, bits) then 1 else 0)
            && (r.calls != [] ==> r.calls[0].entry == m.callbacks[m.defaults[sub].index])
  {
    PassesExactly(m.callbacks[m.defaults[sub].index], v.excluded, x, bits);
    ChainedCall(m.callbacks[m.defaults[sub].index], v, dissect);
  }

  /** Every call goes to a listed subprotocol that is due, in order, and none follows a detected subprotocol. */
  lemma {:induction false} SubprotocolsTried(m: Module, a: nat, func: nat, x: nat, bits: bv32, v: Verdict, dissect: Dissector)
    returns (at: seq<nat>)
    requires Consistent(m) && v.upper < NUM_BITS && Lawful(dissect)
    ensures var r := Subprotocols(m, a, func, {x}, bits, v, dissect);
            Chained(v, r, dissect) && SubsTried(m, func, x, bits, r.calls, at) && (at != [] ==> a <= at[0])
    decreases Longest(m.defaults) - a
  {
    at := [];
    var subs := m.defaults[v.upper].subprotocols;
    if a < |subs| {
      if subs[a] == MATCHED_BY_CONTENT {
        at := SubprotocolsTried(m, a + 1, func, x, bits, v, dissect);
      } else {
        assert subs[a] in subs;
        var here := Subprotocol(m, subs[a], func, {x}, bits, v, dissect);
        SubprotocolExactly(m, subs[a], func, x, bits, v, dissect);
        if here.calls != [] {
          assert LinkAt(v, here.calls, dissect, 0);
          assert SubMadeAt(m, func, x, bits, here.calls, [a], 0);
        }
        if here.v.lower != UNKNOWN {
          at := if here.calls == [] then [] else [a];
        } else {
          var rest := Subprotocols(m, a + 1, func, {x}, bits, here.v, dissect);
          at := SubprotocolsTried(m, a + 1, func, x, bits, here.v, dissect);
          ChainedThen(v, here, rest, dissect);
          if here.calls != [] {
            SubsTriedMore(m, func, x, bits, here.calls[0], rest.calls, at, a);
            at := [a] + at;
            assert here.calls == [here.calls[0]];
          } else {
            assert here.calls + rest.calls == rest.calls;
          }
        }
      }
    }
  }

  /** No call changes the protocol found before. */
  predicate KeepsUpper(calls: seq<Record>, upper: nat) { forall k :: 0 <= k < |calls| ==> calls[k].after.upper == upper }

  /** If no subprotocol is detected, every listed one still due under the final exclusions was called. */
  lemma {:induction false} NoSubprotocolSkipped(m: Module, a: nat, func: nat, x: nat, bits: bv32, v: Verdict, dissect: Dissector, b: nat)
    requires Consistent(m) && v.upper < NUM_BITS && Lawful(dissect)
    requires var r := Subprotocols(m, a, func, {x}, bits, v, dissect);
             KeepsUpper(r.calls, v.upper) && r.v.lower == UNKNOWN
             && a <= b < |m.defaults[v.upper].subprotocols|
             && SubDue(m, m.defaults[v.upper].subprotocols[b], func, r.v.excluded, x, bits)
    ensures var r := Subprotocols(m, a, func, {x}, bits, v, dissect);
            var entry := m.callbacks[m.defaults[m.defaults[v.upper].subprotocols[b]].index];
            exists k :: 0 <= k < |r.calls| && r.calls[k].entry == entry
    decreases Longest(m.defaults) - a
  {
    var subs := m.defaults[v.upper].subprotocols;
    if subs[a] == MATCHED_BY_CONTENT {
      NoSubprotocolSkipped(m, a + 1, func, x, bits, v, dissect, b);
    } else {
      assert subs[a] in subs;
      var here := Subprotocol(m, subs[a], func, {x}, bits, v, dissect);
      var rest := Subprotocols(m, a + 1, func, {x}, bits, here.v, dissect);
      var r := Result(rest.v, here.calls + rest.calls);
      SubprotocolExactly(m, subs[a], func, x, bits, v, dissect);
      if here.calls != [] {
        assert r.calls[0] == here.calls[0];
        assert LinkAt(v, here.calls, dissect, 0);
      }
      assert here.v.upper == v.upper;
      if a == b {
        var at := SubprotocolsTried(m, a + 1, func, x, bits, here.v, dissect);
        ExclusionsGrow(here.v, rest, dissect, 0);
        WantedEarlier(m.callbacks[m.defaults[subs[a]].index], v.excluded, r.v.excluded, x, bits);
        assert r.calls[0].entry == m.callbacks[m.defaults[subs[a]].index];
      } else {
        assert forall k :: 0 <= k < |rest.calls| ==> rest.calls[k] == r.calls[|here.calls| + k];
        NoSubprotocolSkipped(m, a + 1, func, x, bits, here.v, dissect, b);
        var k :| 0 <= k < |rest.calls| && rest.calls[k].entry == m.callbacks[m.defaults[subs[b]].index];
        assert r.calls[|here.calls| + k].entry == m.callbacks[m.defaults[subs[b]].index];
      }
    }
  }

  // ---- One packet ----

  /**
   The calls made for one packet, in three groups: the guess, then the table unless the guess detected a
   protocol, then the subprotocols of what is detected by now. Each group works on what the one before
   left, and each makes exactly the calls that are due.
   */
  lemma CheckExactly(m: Module, table: seq<Entry>, guessed: nat, p: Packet, v: Verdict, dissect: Dissector)
    returns (first: Result, second: Result, third: Result, func: nat, at: seq<nat>, subs: seq<nat>)
    requires Consistent(m) && guessed < MAX_SUPPORTED && v.upper < NUM_BITS && Lawful(dissect)
    ensures Check(m, table, guessed, p, v, dissect) == Result(third.v, first.calls + second.calls + third.calls)
    ensures Chained(v, first, dissect) && Chained(first.v, second, dissect) && Chained(second.v, third, dissect)
    ensures |first.calls| == if GuessDue(m, guessed, p, v) && !Misjudged(m, guessed, p) then 1 else 0
    ensures first.calls != [] ==> first.calls[0].entry == m.callbacks[m.defaults[guessed].index]
    ensures func == if first.calls == [] then 0 else m.defaults[guessed].func
    ensures if first.v.upper == UNKNOWN then Scanned(table, func, Bit(v.upper), PacketBits(p), first.v, second, at)
            else second.calls == []
    ensures SubsTried(m, func, Bit(v.upper), PacketBits(p), third.calls, subs) && second.v.upper < NUM_BITS
    ensures KeepsUpper(third.calls, second.v.upper) && third.v.lower == UNKNOWN ==>
              SubsCalled(m, m.defaults[second.v.upper].subprotocols, func, third, Bit(v.upper), PacketBits(p))
  {
    var x, bits := Bit(v.upper), PacketBits(p);
    first := Guessed(m, guessed, p, v, dissect);
    GuessExactly(m, guessed, p, v, dissect);
    GuessedOrderly(m, guessed, p, v, dissect);
    func := if first.calls == [] then 0 else m.defaults[guessed].func;
    second := if first.v.upper == UNKNOWN then Scan(table, func, {x}, bits, first.v, dissect) else Result(first.v, []);
    at := ScanExactly(table, func, x, bits, first.v, dissect);
    ScanBounded(table, func, {x}, bits, first.v, dissect);
    third := Subprotocols(m, 0, func, {x}, bits, second.v, dissect);
    subs := SubprotocolsTried(m, 0, func, x, bits, second.v, dissect);
    var list := m.defaults[second.v.upper].subprotocols;
    if KeepsUpper(third.calls, second.v.upper) && third.v.lower == UNKNOWN {
      forall b | 0 <= b < |list| && SubDue(m, list[b], func, third.v.excluded, x, bits)
        ensures SubCalled(m, third.calls, list[b])
      {
        NoSubprotocolSkipped(m, 0, func, x, bits, second.v, dissect, b);
      }
    }
  }

  /** The dissector of a subprotocol is among those called. */
  ghost predicate SubCalled(m: Module, calls: seq<Record>, sub: nat)
    requires Consistent(m)
  {
    sub < NUM_BITS && exists k :: 0 <= k < |calls| && calls[k].entry == m.callbacks[m.defaults[sub].index]
  }

  /** Every listed subprotocol that is due under the final exclusions was called. */
  ghost predicate SubsCalled(m: Module, list: seq<nat>, func: nat, r: Result, x: nat, bits: bv32)
    requires Consistent(m)
  {
    forall b :: 0 <= b < |list| && SubDue(m, list[b], func, r.v.excluded, x, bits) ==> SubCalled(m, r.calls, list[b])
  }

  /** An entry was called, or its function was, as that of the guess. */
  ghost predicate Served(m: Module, guessed: nat, calls: seq<Record>, e: Entry)
    requires Consistent(m) && guessed < MAX_SUPPORTED
  {
    (exists k :: 0 <= k < |calls| && calls[k].entry == e)
    || (calls != [] && calls[0].entry == m.callbacks[m.defaults[guessed].index] && e.func == m.defaults[guessed].func)
  }

  /** If no call detects a protocol, every entry of the table that is still wanted under the final exclusions is served. */
  lemma EveryDueCallIsMade(m: Module, table: seq<Entry>, guessed: nat, p: Packet, v: Verdict, dissect: Dissector, i: nat)
    requires Consistent(m) && guessed < MAX_SUPPORTED && v.upper == UNKNOWN && Lawful(dissect) && i < |table|
    requires var r := Check(m, table, guessed, p, v, dissect);
             KeepsUpper(r.calls, UNKNOWN) && table[i].func != 0 && Wanted(table[i], r.v.excluded, UNKNOWN, PacketBits(p))
    ensures Served(m, guessed, Check(m, table, guessed, p, v, dissect).calls, table[i])
  {
    var first, second, third, func, at, subs := CheckExactly(m, table, guessed, p, v, dissect);
    var r := Check(m, table, guessed, p, v, dissect);
    if table[i].func == func {
      assert r.calls[0] == first.calls[0];
    } else {
      KeptParts(first.calls, second.calls, third.calls, UNKNOWN);
      ExclusionsGrow(second.v, third, dissect, 0);
      WantedEarlier(table[i], second.v.excluded, r.v.excluded, UNKNOWN, PacketBits(p));
      NoneSkipped(table, func, Bit(v.upper), PacketBits(p), first.v, second, at, dissect, i);
      var k :| 0 <= k < |second.calls| && second.calls[k].entry == table[i];
      assert r.calls[|first.calls| + k] == second.calls[k];
    }
  }

  /** An entry registered for the transport of the packet and wanted for it is in the table of the packet. */
  lemma WantedIsInTable(callbacks: seq<Entry>, p: Packet, e: Entry, excluded: Bitmask, x: nat)
    requires e in callbacks && Wanted(e, excluded, x, PacketBits(p)) && (p.transport.Other? || HasTransport(e))
    ensures e in FastTable(callbacks, p)
  {
    FastTablesRefine(callbacks, p);
    FilterIn(callbacks, (c: Entry) => Selected(c, PacketBits(p)) && (p.transport.Other? || HasTransport(c)), e);
    FilterIn(FastTable(callbacks, p), (c: Entry) => Selected(c, PacketBits(p)), e);
  }

  /** ... so every registered dissector that is still wanted is served, when the flow stays unknown. */
  lemma EveryRegisteredIsServed(m: Module, guessed: nat, p: Packet, v: Verdict, dissect: Dissector, e: Entry)
    requires Consistent(m) && guessed < MAX_SUPPORTED && v.upper == UNKNOWN && Lawful(dissect)
    requires e in m.callbacks[..m.count] && e.func != 0 && (p.transport.Other? || HasTransport(e))
    requires var r := Check(m, FastTable(m.callbacks[..m.count], p), guessed, p, v, dissect);
             KeepsUpper(r.calls, UNKNOWN) && Wanted(e, r.v.excluded, UNKNOWN, PacketBits(p))
    ensures Served(m, guessed, Check(m, FastTable(m.callbacks[..m.count], p), guessed, p, v, dissect).calls, e)
  {
    var table := FastTable(m.callbacks[..m.count], p);
    var r := Check(m, table, guessed, p, v, dissect);
    WantedIsInTable(m.callbacks[..m.count], p, e, r.v.excluded, UNKNOWN);
    var i :| 0 <= i < |table| && table[i] == e;
    EveryDueCallIsMade(m, table, guessed, p, v, dissect, i);
  }

  lemma KeptParts(a: seq<Record>, b: seq<Record>, c: seq<Record>, upper: nat)
    requires KeepsUpper(a + b + c, upper)
    ensures KeepsUpper(a, upper) && KeepsUpper(b, upper)
  {
    forall k | 0 <= k < |a|
      ensures a[k].after.upper == upper
    {
      assert (a + b + c)[k] == a[k];
    }
    forall k | 0 <= k < |b|
      ensures b[k].after.upper == upper
    {
      assert (a + b + c)[|a| + k] == b[k];
    }
  }

  // ---- Runs ----

  /** A packet starts from the verdict left by the last one, from nothing behind a reset, and with the guess
      made at the first packet since. */
  lemma ProcessStarts(m: Module, st: FlowState, a: Arrival)
    requires Consistent(m) && Sane(st) && LawfulArrival(a) && st.v.upper == UNKNOWN
    ensures var (s, calls) := Process(m, st, a);
            var fresh_ := a.packet.transport == Tcp && a.syn && !a.ack && st.initFinished;
            && Chained(if fresh_ then Verdict(UNKNOWN, UNKNOWN, {}) else st.v, Result(s.v, calls), a.dissect)
            && s.guessed == (if fresh_ || !st.alreadyGuessed then a.guess else st.guessed)
            && s.alreadyGuessed && s.initFinished
  {
    var s := Prepared(st, a);
    var table := FastTable(m.callbacks[..m.count], a.packet);
    var first, second, third, func, at, subs := CheckExactly(m, table, s.guessed, a.packet, s.v, a.dissect);
    ChainedThen(s.v, first, second, a.dissect);
    ChainedThen(s.v, Result(second.v, first.calls + second.calls), third, a.dissect);
  }

  lemma ExtendDetected(m: Module, h: History, a: Arrival)
    requires Consistent(m) && Sane(h.st) && LawfulArrival(a) && h.st.v.upper != UNKNOWN
    ensures Extend(m, h, a) == h
  {
    assert h.calls + Stamp(h.epoch, []) == h.calls;
  }

  /** Once a protocol is detected, no later packet of the run changes anything or calls anything. */
  lemma {:induction false} DetectionStands(m: Module, arrivals: seq<Arrival>, i: nat)
    requires Consistent(m) && AllLawful(arrivals) && i <= |arrivals|
    requires RunAll(m, arrivals[..i]).st.v.upper != UNKNOWN
    ensures RunAll(m, arrivals) == RunAll(m, arrivals[..i])
    decreases |arrivals|
  {
    var n := |arrivals| - 1;
    if i <= n {
      var front := arrivals[..n];
      assert front[..i] == arrivals[..i];
      DetectionStands(m, front, i);
      RunNext(m, arrivals, n);
      assert arrivals[..n + 1] == arrivals;
      ExtendDetected(m, RunAll(m, front), arrivals[n]);
    } else {
      assert arrivals[..i] == arrivals;
    }
  }
}
