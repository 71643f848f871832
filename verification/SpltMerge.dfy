/** Merging the packets of the two directions of a flow into one sequence of lengths and gaps. */
module SpltMerge {
  import opened Bytes

  const MILLION := 1_000_000

  // ---- Time values ----

  datatype Time = Time(sec: int, usec: int)

  predicate Proper(t: Time) { 0 <= t.usec < MILLION }

  /** Microseconds since the epoch. */
  function Stamp(t: Time): int { t.sec * MILLION + t.usec }

  /** `ndpi_timer_lt`. */
  predicate Earlier(a: Time, b: Time) {
    if a.sec == b.sec then a.usec < b.usec else a.sec < b.sec
  }

  /** `ndpi_timer_sub`. */
  function Minus(a: Time, b: Time): Time {
    var usec := a.usec - b.usec;
    if usec < 0 then Time(a.sec - b.sec - 1, usec + MILLION) else Time(a.sec - b.sec, usec)
  }

  /** The two conversions, to `unsigned int`. */
  function Millis(t: Time): nat { (t.usec / 1000 + t.sec * 1000) % TWO32 }

  function Micros(t: Time): nat { (t.usec + t.sec * 1000 * 1000) % TWO32 }

  /** On proper times the comparison and the difference are those of the stamps. */
  lemma TimesAreStamps(a: Time, b: Time)
    requires Proper(a) && Proper(b)
    ensures Earlier(a, b) <==> Stamp(a) < Stamp(b)
    ensures Proper(Minus(a, b)) && Stamp(Minus(a, b)) == Stamp(a) - Stamp(b)
    ensures a == b <==> Stamp(a) == Stamp(b)
  {
  }

  /** What is stored for a difference: milliseconds, or microseconds if those are zero, at 16 bits. */
  function Stored(t: Time): nat {
    var ms := Millis(t) % TWO16;
    if ms == 0 then Micros(t) % TWO16 else ms
  }

  /** What a gap of `us` microseconds should be stored as. */
  function Gap(us: int): int { if us < 1000 then us else us / 1000 }

  /** A gap is stored as it should be exactly when it is under 65536 milliseconds. */
  lemma StoredExactly(t: Time)
    requires Proper(t) && t.sec >= 0
    ensures Stored(t) == Gap(Stamp(t)) <==> Stamp(t) < 65_536_000
  {
    var us := Stamp(t);
    var ms := t.usec / 1000 + t.sec * 1000;
    assert us / 1000 == ms;
    if us < 65_536_000 {
      assert ms < TWO16 && us < TWO32;
      assert Millis(t) == ms && Micros(t) == us;
    } else {
      assert Gap(us) >= TWO16;
    }
  }

  /** 65.536 seconds come to zero milliseconds at 16 bits, and are stored as microseconds at 16 bits, again zero. */
  lemma GapExample()
    ensures Gap(Stamp(Time(65, 536_000))) == 65_536 && Stored(Time(65, 536_000)) == 0
  {
  }

  /** The gap between two packets in time order, from their stamps. */
  lemma GapBetween(a: Time, b: Time)
    requires Proper(a) && Proper(b) && Stamp(b) <= Stamp(a)
    ensures Stored(Minus(a, b)) == Gap(Stamp(a) - Stamp(b)) <==> Stamp(a) - Stamp(b) < 65_536_000
  {
    TimesAreStamps(a, b);
    StoredExactly(Minus(a, b));
  }

  // ---- The order of the packets ----

  datatype Packet = Packet(len: nat, time: Time)

  /** A packet of the flow or of its twin, by its index. */
  datatype Pick = Own(i: nat) | Twin(i: nat)

  predicate Exists(p: Pick, xs: seq<Packet>, ys: seq<Packet>) {
    if p.Own? then p.i < |xs| else p.i < |ys|
  }

  function Of(p: Pick, xs: seq<Packet>, ys: seq<Packet>): Packet
    requires Exists(p, xs, ys)
  {
    if p.Own? then xs[p.i] else ys[p.i]
  }

  predicate AllProper(xs: seq<Packet>) { forall i :: 0 <= i < |xs| ==> Proper(xs[i].time) }

  predicate InTime(xs: seq<Packet>) {
    forall i, j :: 0 <= i < j < |xs| ==> Stamp(xs[i].time) <= Stamp(xs[j].time)
  }

  /** The order wanted: by time, twin first among equals, then by index. */
  predicate Before(p: Pick, q: Pick, xs: seq<Packet>, ys: seq<Packet>)
    requires Exists(p, xs, ys) && Exists(q, xs, ys)
  {
    var a, b := Stamp(Of(p, xs, ys).time), Stamp(Of(q, xs, ys).time);
    a < b || (a == b && if p.Twin? == q.Twin? then p.i < q.i else p.Twin?)
  }

  predicate AllExist(o: seq<Pick>, xs: seq<Packet>, ys: seq<Packet>) {
    forall k :: 0 <= k < |o| ==> Exists(o[k], xs, ys)
  }

  /** Each packet occurs, and nothing else. */
  ghost predicate Complete(o: seq<Pick>, xs: seq<Packet>, ys: seq<Packet>) {
    forall p: Pick :: p in o <==> Exists(p, xs, ys)
  }

  predicate Ordered(o: seq<Pick>, xs: seq<Packet>, ys: seq<Packet>)
    requires AllExist(o, xs, ys)
  {
    forall j, k :: 0 <= j < k < |o| ==> Before(o[j], o[k], xs, ys)
  }

  /** Packets of one side keep their order. */
  predicate KeepsBothOrders(o: seq<Pick>) {
    forall j, k :: 0 <= j < k < |o| && o[j].Twin? == o[k].Twin? ==> o[j].i < o[k].i
  }

  /** How many packets of each side have been taken. */
  datatype Taken = Taken(s: nat, r: nat)

  predicate Partial(t: Taken, xs: seq<Packet>, ys: seq<Packet>) {
    t.s <= |xs| && t.r <= |ys| && t.s + t.r < |xs| + |ys|
  }

  predicate ToCome(p: Pick, t: Taken) { p.i >= if p.Own? then t.s else t.r }

  /** The choice made for the next place. */
  function Next(xs: seq<Packet>, ys: seq<Packet>, t: Taken): (p: Pick)
    requires Partial(t, xs, ys)
    ensures Exists(p, xs, ys) && ToCome(p, t)
  {
    if t.s >= |xs| then Twin(t.r)
    else if t.r >= |ys| then Own(t.s)
    else if Earlier(xs[t.s].time, ys[t.r].time) then Own(t.s)
    else Twin(t.r)
  }

  function Take(t: Taken, p: Pick): Taken {
    if p.Own? then Taken(t.s + 1, t.r) else Taken(t.s, t.r + 1)
  }

  /** The picks from what is taken on. */
  function Order(xs: seq<Packet>, ys: seq<Packet>, t: Taken): (o: seq<Pick>)
    requires t.s <= |xs| && t.r <= |ys|
    ensures |o| == |xs| - t.s + |ys| - t.r
    decreases |xs| - t.s + |ys| - t.r
  {
    if !Partial(t, xs, ys) then []
    else
      var p := Next(xs, ys, t);
      [p] + Order(xs, ys, Take(t, p))
  }

  const NOTHING := Taken(0, 0)

  /** Only packets still to come are picked. */
  lemma {:induction false} PicksAreToCome(xs: seq<Packet>, ys: seq<Packet>, t: Taken, k: nat)
    requires t.s <= |xs| && t.r <= |ys| && k < |Order(xs, ys, t)|
    ensures var p := Order(xs, ys, t)[k]; Exists(p, xs, ys) && ToCome(p, t)
    decreases |xs| - t.s + |ys| - t.r
  {
    if k > 0 {
      PicksAreToCome(xs, ys, Take(t, Next(xs, ys, t)), k - 1);
    }
  }

  /** Every packet still to come is picked. */
  lemma {:induction false} AllArePicked(xs: seq<Packet>, ys: seq<Packet>, t: Taken, p: Pick)
    requires t.s <= |xs| && t.r <= |ys| && Exists(p, xs, ys) && ToCome(p, t)
    ensures p in Order(xs, ys, t)
    decreases |xs| - t.s + |ys| - t.r
  {
    var q := Next(xs, ys, t);
    if p != q {
      AllArePicked(xs, ys, Take(t, q), p);
    }
  }

  /** Every packet of both sides is picked, and only those. */
  lemma OrderComplete(xs: seq<Packet>, ys: seq<Packet>)
    ensures Complete(Order(xs, ys, NOTHING), xs, ys)
  {
    var o := Order(xs, ys, NOTHING);
    forall p: Pick
      ensures p in o <==> Exists(p, xs, ys)
    {
      if Exists(p, xs, ys) {
        AllArePicked(xs, ys, NOTHING, p);
      } else if p in o {
        var k :| 0 <= k < |o| && o[k] == p;
        PicksAreToCome(xs, ys, NOTHING, k);
      }
    }
  }

  lemma {:induction false} SidesKept(xs: seq<Packet>, ys: seq<Packet>, t: Taken, j: nat, k: nat)
    requires t.s <= |xs| && t.r <= |ys| && j < k < |Order(xs, ys, t)|
    ensures var o := Order(xs, ys, t); o[j].Twin? == o[k].Twin? ==> o[j].i < o[k].i
    decreases |xs| - t.s + |ys| - t.r
  {
    var rest := Take(t, Next(xs, ys, t));
    if j > 0 {
      SidesKept(xs, ys, rest, j - 1, k - 1);
    } else {
      PicksAreToCome(xs, ys, rest, k - 1);
    }
  }

  /** Whatever the times are, the merge keeps the order of each side. */
  lemma OrderKeepsSides(xs: seq<Packet>, ys: seq<Packet>)
    ensures KeepsBothOrders(Order(xs, ys, NOTHING))
  {
    var o := Order(xs, ys, NOTHING);
    forall j, k | 0 <= j < k < |o| && o[j].Twin? == o[k].Twin?
      ensures o[j].i < o[k].i
    {
      SidesKept(xs, ys, NOTHING, j, k);
    }
  }

  lemma NextIsFirst(xs: seq<Packet>, ys: seq<Packet>, t: Taken, q: Pick)
    requires Partial(t, xs, ys) && Exists(q, xs, ys) && ToCome(q, t) && q != Next(xs, ys, t)
    requires AllProper(xs) && AllProper(ys) && InTime(xs) && InTime(ys)
    ensures Before(Next(xs, ys, t), q, xs, ys)
  {
    if t.s < |xs| && t.r < |ys| {
      TimesAreStamps(xs[t.s].time, ys[t.r].time);
    }
  }

  lemma {:induction false} PicksInOrder(xs: seq<Packet>, ys: seq<Packet>, t: Taken, j: nat, k: nat)
    requires t.s <= |xs| && t.r <= |ys| && j < k < |Order(xs, ys, t)|
    requires AllProper(xs) && AllProper(ys) && InTime(xs) && InTime(ys)
    ensures var o := Order(xs, ys, t);
            Exists(o[j], xs, ys) && Exists(o[k], xs, ys) && Before(o[j], o[k], xs, ys)
    decreases |xs| - t.s + |ys| - t.r
  {
    var rest := Take(t, Next(xs, ys, t));
    if j > 0 {
      PicksInOrder(xs, ys, rest, j - 1, k - 1);
    } else {
      PicksAreToCome(xs, ys, rest, k - 1);
      NextIsFirst(xs, ys, t, Order(xs, ys, rest)[k - 1]);
    }
  }

  lemma OrderExists(xs: seq<Packet>, ys: seq<Packet>)
    ensures AllExist(Order(xs, ys, NOTHING), xs, ys)
  {
    var o := Order(xs, ys, NOTHING);
    forall k | 0 <= k < |o|
      ensures Exists(o[k], xs, ys)
    {
      PicksAreToCome(xs, ys, NOTHING, k);
    }
  }

  /** From inputs in time order, the merge is in time order, the twin first among equals. */
  lemma OrderIsOrdered(xs: seq<Packet>, ys: seq<Packet>)
    requires AllProper(xs) && AllProper(ys) && InTime(xs) && InTime(ys)
    ensures AllExist(Order(xs, ys, NOTHING), xs, ys) && Ordered(Order(xs, ys, NOTHING), xs, ys)
  {
    OrderExists(xs, ys);
    var o := Order(xs, ys, NOTHING);
    forall j, k | 0 <= j < k < |o|
      ensures Before(o[j], o[k], xs, ys)
    {
      PicksInOrder(xs, ys, NOTHING, j, k);
    }
  }

  // ---- The merge in place ----

  /** The difference stored in the first entry: from the start of the side that counts as first. */
  function StartGap(xs: seq<Packet>, ys: seq<Packet>, start: Time, startTwin: Time): Time
    requires |xs| + |ys| > 0
  {
    if |ys| == 0 then Minus(xs[0].time, start)
    else if |xs| == 0 then Minus(ys[0].time, startTwin)
    else if Earlier(start, startTwin) then Minus(xs[0].time, start)
    else Minus(ys[0].time, startTwin)
  }

  /** The first entry counts from the start of a one-sided flow to its first packet. */
  lemma StartOfOneSide(xs: seq<Packet>, start: Time, startTwin: Time)
    requires xs != [] && AllProper(xs) && Proper(start) && Proper(startTwin)
    ensures Stamp(StartGap(xs, [], start, startTwin)) == Stamp(xs[0].time) - Stamp(start)
    ensures Stamp(StartGap([], xs, start, startTwin)) == Stamp(xs[0].time) - Stamp(startTwin)
  {
    TimesAreStamps(xs[0].time, start);
    TimesAreStamps(xs[0].time, startTwin);
  }

  function Least(a: int, b: int): int { if a < b then a else b }

  /**
   With two sides it counts from the earlier start to the first packet of all, if and only if the side that
   started first (the twin among equals) also has the first packet; else to that side's own first packet.
   */
  lemma StartExactly(xs: seq<Packet>, ys: seq<Packet>, start: Time, startTwin: Time)
    requires xs != [] && ys != [] && AllProper(xs) && AllProper(ys) && Proper(start) && Proper(startTwin)
    ensures var own, twin := Stamp(xs[0].time), Stamp(ys[0].time);
            var earliest, began := Least(Stamp(start), Stamp(startTwin)), Stamp(start) < Stamp(startTwin);
            var gap := Stamp(StartGap(xs, ys, start, startTwin));
            gap == (if began then own else twin) - earliest
            && (gap == Least(own, twin) - earliest <==> if began then own <= twin else twin <= own)
            && Stamp(Of(Order(xs, ys, NOTHING)[0], xs, ys).time) == Least(own, twin)
  {
    TimesAreStamps(start, startTwin);
    TimesAreStamps(xs[0].time, ys[0].time);
    TimesAreStamps(xs[0].time, start);
    TimesAreStamps(ys[0].time, startTwin);
    OrderExists(xs, ys);
  }

  /** The lengths, in order. */
  function Lengths(o: seq<Pick>, xs: seq<Packet>, ys: seq<Packet>): (r: seq<nat>)
    requires AllExist(o, xs, ys)
    ensures |r| == |o|
  {
    seq(|o|, k requires 0 <= k < |o| => Of(o[k], xs, ys).len)
  }

  function TimeBefore(o: seq<Pick>, xs: seq<Packet>, ys: seq<Packet>, first: Time, k: nat): Time
    requires AllExist(o, xs, ys) && k <= |o|
  {
    if k == 0 then first else Of(o[k - 1], xs, ys).time
  }

  /** The gaps from each packet to the one before it, and from `first` to the first one. */
  function Gaps(o: seq<Pick>, xs: seq<Packet>, ys: seq<Packet>, first: Time): (r: seq<nat>)
    requires AllExist(o, xs, ys)
    ensures |r| == |o|
  {
    seq(|o|, k requires 0 <= k < |o| => Stored(Minus(Of(o[k], xs, ys).time, TimeBefore(o, xs, ys, first, k))))
  }

  /** An output of which the first `k` entries have been written. */
  ghost predicate Written(a: seq<nat>, now: seq<nat>, was: seq<nat>, k: nat) {
    |a| == |was| && k <= |now| <= |was|
    && (forall i :: 0 <= i < k ==> a[i] == now[i])
    && forall i :: k <= i < |a| ==> a[i] == was[i]
  }

  /** One entry of the two outputs: the wanted one, `ls[k]` and `gs[k]`. */
  method Place(lens: array<nat>, times: array<nat>, k: nat, packet: Packet, previous: Time,
               ghost ls: seq<nat>, ghost gs: seq<nat>, ghost ls0: seq<nat>, ghost gs0: seq<nat>)
    requires lens != times && k < |ls| == |gs|
    requires Written(lens[..], ls, ls0, k) && Written(times[..], gs, gs0, k)
    requires ls[k] == packet.len && gs[k] == Stored(Minus(packet.time, previous))
    modifies lens, times
    ensures Written(lens[..], ls, ls0, k + 1) && Written(times[..], gs, gs0, k + 1)
  {
    lens[k] := packet.len;
    var gap := Minus(packet.time, previous);
    times[k] := Millis(gap) % TWO16;
    if times[k] == 0 {
      times[k] := Micros(gap) % TWO16;
    }
  }

  /** Where the merge stands. */
  ghost predicate Merging(o: seq<Pick>, xs: seq<Packet>, ys: seq<Packet>, t: Taken) {
    t.s <= |xs| && t.r <= |ys| && AllExist(o, xs, ys) && |o| == |xs| + |ys| && o[t.s + t.r..] == Order(xs, ys, t)
  }

  lemma Advance(o: seq<Pick>, xs: seq<Packet>, ys: seq<Packet>, t: Taken, first: Time, p: Pick, k: nat)
    requires Merging(o, xs, ys, t) && Partial(t, xs, ys) && p == Next(xs, ys, t) && k == t.s + t.r
    ensures Merging(o, xs, ys, Take(t, p))
    ensures var packet := Of(p, xs, ys);
            Lengths(o, xs, ys)[k] == packet.len
            && Gaps(o, xs, ys, first)[k] == Stored(Minus(packet.time, TimeBefore(o, xs, ys, first, k)))
            && TimeBefore(o, xs, ys, first, k + 1) == packet.time
  {
    assert o[k..] == [p] + Order(xs, ys, Take(t, p));
    assert o[k] == p && o[k + 1..] == o[k..][1..];
  }

  /** The merging loop. */
  method Fill(xs: seq<Packet>, ys: seq<Packet>, first: Time, lens: array<nat>, times: array<nat>,
              ghost o: seq<Pick>, ghost ls: seq<nat>, ghost gs: seq<nat>)
    requires lens != times && lens.Length >= |xs| + |ys| && times.Length >= |xs| + |ys|
    requires Merging(o, xs, ys, NOTHING) && ls == Lengths(o, xs, ys) && gs == Gaps(o, xs, ys, first)
    modifies lens, times
    ensures Written(lens[..], ls, old(lens[..]), |o|) && Written(times[..], gs, old(times[..]), |o|)
  {
    ghost var ls0, gs0 := lens[..], times[..];
    var previous := first;
    var t := NOTHING;
    var k := 0;
    while t.s < |xs| || t.r < |ys|
      invariant k == t.s + t.r && Merging(o, xs, ys, t)
      invariant Written(lens[..], ls, ls0, k) && Written(times[..], gs, gs0, k)
      invariant previous == TimeBefore(o, xs, ys, first, k)
      decreases |o| - k
    {
      var p := Next(xs, ys, t);
      var packet := Of(p, xs, ys);
      Advance(o, xs, ys, t, first, p, k);
      Place(lens, times, k, packet, previous, ls, gs, ls0, gs0);
      previous := packet.time;
      t := Take(t, p);
      k := k + 1;
    }
  }

  /** The stored entry is the gap to the packet before, exactly if that gap is under 65536 milliseconds. */
  predicate GapAt(o: seq<Pick>, xs: seq<Packet>, ys: seq<Packet>, entry: nat, k: nat)
    requires AllExist(o, xs, ys) && 1 <= k < |o|
  {
    var us := Stamp(Of(o[k], xs, ys).time) - Stamp(Of(o[k - 1], xs, ys).time);
    0 <= us && (entry == Gap(us) <==> us < 65_536_000)
  }

  /** All packets of both sides in the order wanted, with the gaps between them. */
  ghost predicate MergedInTime(o: seq<Pick>, xs: seq<Packet>, ys: seq<Packet>, times: seq<nat>)
    requires |o| <= |times|
  {
    AllExist(o, xs, ys) && Complete(o, xs, ys) && Ordered(o, xs, ys)
    && forall k :: 1 <= k < |o| ==> GapAt(o, xs, ys, times[k], k)
  }

  lemma OrderedMerge(o: seq<Pick>, xs: seq<Packet>, ys: seq<Packet>, lens: seq<nat>, times: seq<nat>)
    requires AllProper(xs) && AllProper(ys) && InTime(xs) && InTime(ys)
    requires o == Order(xs, ys, NOTHING) && Filled(o, xs, ys, lens, times)
    ensures MergedInTime(o, xs, ys, times)
  {
    OrderComplete(xs, ys);
    OrderIsOrdered(xs, ys);
    forall k | 1 <= k < |o|
      ensures GapAt(o, xs, ys, times[k], k)
    {
      assert Before(o[k - 1], o[k], xs, ys);
      GapBetween(Of(o[k], xs, ys).time, Of(o[k - 1], xs, ys).time);
    }
  }

  /** What the arrays hold behind a merge. */
  ghost predicate Filled(o: seq<Pick>, xs: seq<Packet>, ys: seq<Packet>, lens: seq<nat>, times: seq<nat>) {
    AllExist(o, xs, ys) && |o| <= |lens| && |o| <= |times| && lens[..|o|] == Lengths(o, xs, ys)
    && forall k :: 1 <= k < |o| ==> times[k] == Stored(Minus(Of(o[k], xs, ys).time, Of(o[k - 1], xs, ys).time))
  }

  method MergeArrays(xs: seq<Packet>, ys: seq<Packet>, start: Time, startTwin: Time, lens: array<nat>, times: array<nat>,
                     ghost o: seq<Pick>)
    requires lens != times && lens.Length >= |xs| + |ys| && times.Length >= |xs| + |ys|
    requires o == Order(xs, ys, NOTHING) && AllExist(o, xs, ys) && o != []
    modifies lens, times
    ensures Filled(o, xs, ys, lens[..], times[..])
    ensures lens[|o|..] == old(lens[..])[|o|..] && times[|o|..] == old(times[..])[|o|..]
    ensures times[0] == Stored(StartGap(xs, ys, start, startTwin))
  {
    var first, startM := Start(xs, ys, start, startTwin);
    assert o[0..] == o;
    Fill(xs, ys, first, lens, times, o, Lengths(o, xs, ys), Gaps(o, xs, ys, first));
    StoreFirst(times, startM);
  }

  /**
   `ndpi_merge_splt_arrays`. Whatever the times are, the lengths and gaps are those of `Order`; from inputs
   in time order that is all packets in time order, and the gaps are right exactly under 65536 milliseconds.
   */
  method Merge(xs: seq<Packet>, ys: seq<Packet>, start: Time, startTwin: Time, lens: array<nat>, times: array<nat>)
    requires lens != times && lens.Length >= |xs| + |ys| && times.Length >= |xs| + |ys|
    modifies lens, times
    ensures var o := Order(xs, ys, NOTHING);
            Filled(o, xs, ys, lens[..], times[..])
            && lens[|o|..] == old(lens[..])[|o|..] && times[|o|..] == old(times[..])[|o|..]
            && (|o| > 0 ==> times[0] == Stored(StartGap(xs, ys, start, startTwin)))
    ensures AllProper(xs) && AllProper(ys) && InTime(xs) && InTime(ys) ==>
              MergedInTime(Order(xs, ys, NOTHING), xs, ys, times[..])
  {
    ghost var o := Order(xs, ys, NOTHING);
    OrderExists(xs, ys);
    if |xs| + |ys| == 0 {
      OrderComplete(xs, ys);
      return;
    }
    MergeArrays(xs, ys, start, startTwin, lens, times, o);
    if AllProper(xs) && AllProper(ys) && InTime(xs) && InTime(ys) {
      OrderedMerge(o, xs, ys, lens[..], times[..]);
    }
  }

  /** Where the time of the first entry is counted from. */
  method Start(xs: seq<Packet>, ys: seq<Packet>, start: Time, startTwin: Time) returns (first: Time, startM: Time)
    requires |xs| + |ys| > 0
    ensures startM == StartGap(xs, ys, start, startTwin)
  {
    first := Time(0, 0);
    if |ys| == 0 {
      first := xs[0].time;
      startM := Minus(xs[0].time, start);
    } else if |xs| == 0 {
      first := ys[0].time;
      startM := Minus(ys[0].time, startTwin);
    } else if Earlier(start, startTwin) {
      first := xs[0].time;
      startM := Minus(xs[0].time, start);
    } else {
      startM := Minus(ys[0].time, startTwin);
    }
  }

  /** The first entry is overwritten. */
  method StoreFirst(times: array<nat>, startM: Time)
    requires times.Length > 0
    modifies times
    ensures times[..] == old(times[..])[0 := Stored(startM)]
  {
    times[0] := Millis(startM) % TWO16;
    if times[0] == 0 {
      times[0] := Micros(startM) % TWO16;
    }
  }
}
