/** The TCP part of `ndpi_connection_tracking`: handshake flags and expected sequence numbers. */
module TcpTracker {
  import opened Bytes

  const WINDOW := 0x10000

  type Seq32 = n: nat | n < TWO32

  /** One TCP packet of the flow; `dir` is its direction, `late` that it is not the flow's first one. */
  datatype Segment = Segment(dir: nat, syn: bool, ack: bool, rst: bool,
                             seqNr: Seq32, ackNr: Seq32, payload: nat, late: bool)

  predicate Legal(s: Segment) {
    s.dir < 2 && s.payload < TWO16
  }

  datatype State = State(seenSyn: bool, seenSynAck: bool, seenAck: bool, next: (Seq32, Seq32))

  const FRESH := State(false, false, false, (0, 0))

  function Expected(st: State, dir: nat): Seq32
    requires dir < 2
  {
    if dir == 0 then st.next.0 else st.next.1
  }

  function Sum32(a: int, b: int): Seq32 {
    (a + b) % TWO32
  }

  function Diff32(a: int, b: int): Seq32 {
    (a - b) % TWO32
  }

  function With(next: (Seq32, Seq32), dir: nat, n: Seq32): (Seq32, Seq32) {
    if dir == 0 then (n, next.1) else (next.0, n)
  }

  // ---- The step, as a function ----

  function Handshake(st: State, s: Segment): State {
    if s.syn && !s.ack && !st.seenSyn && !st.seenSynAck && !st.seenAck then st.(seenSyn := true)
    else if s.syn && s.ack && st.seenSyn && !st.seenSynAck && !st.seenAck then st.(seenSynAck := true)
    else if !s.syn && s.ack && st.seenSyn && st.seenSynAck && !st.seenAck then st.(seenAck := true)
    else st
  }

  predicate Tracking(st: State) {
    st.next.0 != 0 && st.next.1 != 0
  }

  /** The packet is flagged as a retransmission. */
  predicate Flagged(st: State, s: Segment)
    requires Legal(s)
  {
    Tracking(st) && s.payload > 0 && Diff32(s.seqNr, Expected(st, s.dir)) > WINDOW
  }

  function Numbers(st: State, s: Segment): (Seq32, Seq32)
    requires Legal(s)
  {
    var expected := Expected(st, s.dir);
    if !Tracking(st) then
      if s.ack then
        var n := With(st.next, s.dir, Sum32(s.seqNr, if s.syn then 1 else s.payload));
        if s.late then With(n, 1 - s.dir, s.ackNr) else n
      else st.next
    else if s.payload > 0 then
      if Flagged(st, s) then
        if Diff32(expected, s.seqNr) < s.payload && s.late then With(st.next, s.dir, Sum32(s.seqNr, s.payload))
        else st.next
      else With(st.next, s.dir, Sum32(s.seqNr, s.payload))
    else st.next
  }

  function Step(st: State, s: Segment): State
    requires Legal(s)
  {
    var h := Handshake(st, s);
    h.(next := if s.rst then (0, 0) else Numbers(st, s))
  }

  // ---- The step, in place ----

  class Flow {
    var seenSyn: bool
    var seenSynAck: bool
    var seenAck: bool
    const next: array<Seq32>

    ghost predicate Valid() {
      next.Length == 2
    }

    ghost function Seen(): State
      reads this, next
      requires Valid()
    {
      State(seenSyn, seenSynAck, seenAck, (next[0], next[1]))
    }

    constructor ()
      ensures Valid() && fresh(next) && Seen() == FRESH
    {
      seenSyn, seenSynAck, seenAck := false, false, false;
      next := new Seq32[2](_ => 0);
    }

    method TrackHandshake(s: Segment)
      requires Valid()
      modifies this`seenSyn, this`seenSynAck, this`seenAck
      ensures Seen() == Handshake(old(Seen()), s)
    {
      if s.syn && !s.ack && !seenSyn && !seenSynAck && !seenAck {
        seenSyn := true;
      } else if s.syn && s.ack && seenSyn && !seenSynAck && !seenAck {
        seenSynAck := true;
      } else if !s.syn && s.ack && seenSyn && seenSynAck && !seenAck {
        seenAck := true;
      }
    }

    method TrackNumbers(s: Segment) returns (retransmission: bool)
      requires Valid() && Legal(s)
      modifies next
      ensures (next[0], next[1]) == Numbers(old(Seen()), s)
      ensures retransmission == Flagged(old(Seen()), s)
    {
      retransmission := false;
      if next[0] == 0 || next[1] == 0 {
        if s.ack {
          next[s.dir] := Sum32(s.seqNr, if s.syn then 1 else s.payload);
          if s.late {
            next[1 - s.dir] := s.ackNr;
          }
        }
      } else if s.payload > 0 {
        if Diff32(s.seqNr, next[s.dir]) > WINDOW {
          retransmission := true;
          if Diff32(next[s.dir], s.seqNr) < s.payload {
            if s.late {
              next[s.dir] := Sum32(s.seqNr, s.payload);
            }
          }
        } else {
          next[s.dir] := Sum32(s.seqNr, s.payload);
        }
      }
    }

    method Track(s: Segment) returns (retransmission: bool)
      requires Valid() && Legal(s)
      modifies this, next
      ensures Valid() && Seen() == Step(old(Seen()), s)
      ensures retransmission == Flagged(old(Seen()), s)
    {
      ghost var st := Seen();
      TrackHandshake(s);
      assert Numbers(Seen(), s) == Numbers(st, s);
      retransmission := TrackNumbers(s);
      if s.rst {
        next[0] := 0;
        next[1] := 0;
      }
    }
  }

  // ---- The handshake over runs ----

  ghost predicate AllLegal(run: seq<Segment>) {
    forall i :: 0 <= i < |run| ==> Legal(run[i])
  }

  /** A run since the flow was created or last reset. */
  function After(run: seq<Segment>): State
    requires AllLegal(run)
  {
    if run == [] then FRESH else Step(After(run[..|run| - 1]), run[|run| - 1])
  }

  predicate IsSyn(s: Segment) { s.syn && !s.ack }
  predicate IsSynAck(s: Segment) { s.syn && s.ack }
  predicate IsAck(s: Segment) { !s.syn && s.ack }

  ghost predicate SynSeen(run: seq<Segment>) {
    exists i :: 0 <= i < |run| && IsSyn(run[i])
  }

  ghost predicate SynAckSeen(run: seq<Segment>) {
    exists j :: 0 <= j < |run| && IsSynAck(run[j]) && SynSeen(run[..j])
  }

  ghost predicate AckSeen(run: seq<Segment>) {
    exists k :: 0 <= k < |run| && IsAck(run[k]) && SynAckSeen(run[..k])
  }

  lemma SynSeenMore(run: seq<Segment>, s: Segment)
    ensures SynSeen(run + [s]) <==> SynSeen(run) || IsSyn(s)
  {
    var more := run + [s];
    if SynSeen(run) {
      var i :| 0 <= i < |run| && IsSyn(run[i]);
      assert IsSyn(more[i]);
    }
    if IsSyn(s) {
      assert IsSyn(more[|run|]);
    }
  }

  lemma SynAckSeenMore(run: seq<Segment>, s: Segment)
    ensures SynAckSeen(run + [s]) <==> SynAckSeen(run) || (IsSynAck(s) && SynSeen(run))
  {
    var more := run + [s];
    assert forall j :: 0 <= j <= |run| ==> more[..j] == run[..j];
    if SynAckSeen(run) {
      var j :| 0 <= j < |run| && IsSynAck(run[j]) && SynSeen(run[..j]);
      assert IsSynAck(more[j]) && more[..j] == run[..j];
    }
    if IsSynAck(s) && SynSeen(run) {
      assert IsSynAck(more[|run|]) && more[..|run|] == run;
    }
    if SynAckSeen(more) {
      var j :| 0 <= j < |more| && IsSynAck(more[j]) && SynSeen(more[..j]);
      assert more[..j] == run[..j];
      if j == |run| {
        assert run[..j] == run;
      }
    }
  }

  lemma AckSeenMore(run: seq<Segment>, s: Segment)
    ensures AckSeen(run + [s]) <==> AckSeen(run) || (IsAck(s) && SynAckSeen(run))
  {
    var more := run + [s];
    if AckSeen(run) {
      var k :| 0 <= k < |run| && IsAck(run[k]) && SynAckSeen(run[..k]);
      assert IsAck(more[k]) && more[..k] == run[..k];
    }
    if IsAck(s) && SynAckSeen(run) {
      assert IsAck(more[|run|]) && more[..|run|] == run;
    }
    if AckSeen(more) {
      var k :| 0 <= k < |more| && IsAck(more[k]) && SynAckSeen(more[..k]);
      assert more[..k] == run[..k];
      if k == |run| {
        assert run[..k] == run;
      }
    }
  }

  lemma Nested(run: seq<Segment>)
    ensures AckSeen(run) ==> SynAckSeen(run)
    ensures SynAckSeen(run) ==> SynSeen(run)
  {
    if SynAckSeen(run) {
      var j :| 0 <= j < |run| && IsSynAck(run[j]) && SynSeen(run[..j]);
      var i :| 0 <= i < j && IsSyn(run[..j][i]);
      assert IsSyn(run[i]);
    }
    if AckSeen(run) {
      var k :| 0 <= k < |run| && IsAck(run[k]) && SynAckSeen(run[..k]);
      var j :| 0 <= j < k && IsSynAck(run[..k][j]) && SynSeen(run[..k][..j]);
      assert IsSynAck(run[j]) && run[..k][..j] == run[..j];
    }
  }

  /** The flags say exactly which prefix of SYN, SYN+ACK, ACK occurred in that order since the reset. */
  lemma {:induction false} HandshakeExactly(run: seq<Segment>)
    requires AllLegal(run)
    ensures var st := After(run);
            st.seenSyn == SynSeen(run) && st.seenSynAck == SynAckSeen(run) && st.seenAck == AckSeen(run)
  {
    if run != [] {
      var front, s := run[..|run| - 1], run[|run| - 1];
      assert run == front + [s];
      HandshakeExactly(front);
      SynSeenMore(front, s);
      SynAckSeenMore(front, s);
      AckSeenMore(front, s);
      Nested(front);
    }
  }

  // ---- Sequence numbers ----

  lemma OtherStays(st: State, s: Segment)
    requires Legal(s) && Tracking(st) && !s.rst
    ensures Expected(Step(st, s), 1 - s.dir) == Expected(st, 1 - s.dir)
  {
  }

  lemma Advance(from: Seq32, start: Seq32, length: nat)
    requires Diff32(start, from) + length < TWO32
    ensures Diff32(Sum32(start, length), from) == Diff32(start, from) + length
  {
  }

  lemma AdvancePartial(from: Seq32, start: Seq32, length: nat)
    requires Diff32(from, start) < length < TWO32
    ensures Diff32(Sum32(start, length), from) == length - Diff32(from, start)
  {
  }

  /** While both directions are tracked and no RST arrives, a payload packet moves its own expected number
      forward by at most 131071, and the other direction's number stays. */
  lemma MovesForward(st: State, s: Segment)
    requires Legal(s) && Tracking(st) && !s.rst
    ensures var next := Step(st, s);
            Diff32(Expected(next, s.dir), Expected(st, s.dir)) <= WINDOW + 65535 == 131071 &&
            Expected(next, 1 - s.dir) == Expected(st, 1 - s.dir)
  {
    var expected := Expected(st, s.dir);
    OtherStays(st, s);
    if s.payload > 0 {
      if !Flagged(st, s) {
        Advance(expected, s.seqNr, s.payload);
      } else if Diff32(expected, s.seqNr) < s.payload {
        AdvancePartial(expected, s.seqNr, s.payload);
      }
    }
  }

  /** An in-order segment is accepted and advances the number by its length. */
  lemma InOrderAccepted(st: State, s: Segment)
    requires Legal(s) && Tracking(st) && !s.rst && s.payload > 0 && s.seqNr == Expected(st, s.dir)
    ensures !Flagged(st, s)
    ensures Expected(Step(st, s), s.dir) == Sum32(Expected(st, s.dir), s.payload)
  {
  }

  /** A segment whose bytes were all covered before is flagged and changes no number. */
  lemma CoveredFlagged(st: State, s: Segment)
    requires Legal(s) && Tracking(st) && !s.rst
    requires 0 < s.payload <= Diff32(Expected(st, s.dir), s.seqNr) < TWO32 - WINDOW
    ensures Flagged(st, s) && Step(st, s).next == st.next
  {
  }

  /** A segment that starts before the expected number and ends behind it is flagged, and moves the number to its end. */
  lemma PartialFlagged(st: State, s: Segment)
    requires Legal(s) && Tracking(st) && !s.rst && s.late
    requires 0 < Diff32(Expected(st, s.dir), s.seqNr) < s.payload
    ensures Flagged(st, s) && Expected(Step(st, s), s.dir) == Sum32(s.seqNr, s.payload)
  {
  }

  /** Steps from a given state. */
  function From(st: State, run: seq<Segment>): State
    requires AllLegal(run)
  {
    if run == [] then st else Step(From(st, run[..|run| - 1]), run[|run| - 1])
  }

  /** Payload bytes sent in one direction. */
  function Sent(run: seq<Segment>, dir: nat): nat {
    if run == [] then 0
    else Sent(run[..|run| - 1], dir) + (if run[|run| - 1].dir == dir then run[|run| - 1].payload else 0)
  }

  /** The segment starts where its direction's bytes so far end, counted from the initial numbers. */
  predicate InOrderAt(st: State, run: seq<Segment>, i: nat)
    requires i < |run|
  {
    var s := run[i];
    Legal(s) && !s.rst && (s.payload > 0 ==> s.seqNr == Sum32(Expected(st, s.dir), Sent(run[..i], s.dir)))
  }

  /** Without gaps. */
  ghost predicate GapFree(st: State, run: seq<Segment>) {
    forall i :: 0 <= i < |run| ==> InOrderAt(st, run, i)
  }

  /** The two numbers reached by the bytes of a prefix are not zero, the value that stands for "not known". */
  predicate ClearAt(st: State, run: seq<Segment>, i: nat)
    requires i <= |run|
  {
    Sum32(Expected(st, 0), Sent(run[..i], 0)) != 0 && Sum32(Expected(st, 1), Sent(run[..i], 1)) != 0
  }

  /** Before each segment of the run. */
  ghost predicate Clear(st: State, run: seq<Segment>) {
    forall i :: 0 <= i < |run| ==> ClearAt(st, run, i)
  }

  /** Tracked throughout: the tracker knows both numbers before each segment and at the end. */
  ghost predicate TrackedThroughout(st: State, run: seq<Segment>)
    requires AllLegal(run)
  {
    forall i :: 0 <= i <= |run| ==> Tracking(From(st, run[..i]))
  }

  lemma SumSum(a: int, b: int, c: int)
    ensures Sum32(Sum32(a, b), c) == Sum32(a, b + c)
  {
  }

  lemma InOrderStep(st: State, s: Segment, dir: nat)
    requires dir < 2 && Legal(s) && Tracking(st) && !s.rst && (s.payload > 0 ==> s.seqNr == Expected(st, s.dir))
    ensures Expected(Step(st, s), dir) == Sum32(Expected(st, dir), if s.dir == dir then s.payload else 0)
  {
    OtherStays(st, s);
    if s.payload > 0 {
      InOrderAccepted(st, s);
    }
    assert dir == s.dir || dir == 1 - s.dir;
  }

  lemma GapFreePrefix(st: State, run: seq<Segment>, n: nat)
    requires AllLegal(run) && GapFree(st, run) && Clear(st, run) && n <= |run|
    ensures GapFree(st, run[..n]) && Clear(st, run[..n])
  {
    forall i | 0 <= i < n
      ensures ClearAt(st, run[..n], i) && InOrderAt(st, run[..n], i)
    {
      assert ClearAt(st, run, i) && InOrderAt(st, run, i);
      assert run[..n][..i] == run[..i];
    }
  }

  /** The tracker's numbers are the initial ones plus the bytes sent. */
  lemma {:induction false} GapFreeNumbers(st: State, run: seq<Segment>, dir: nat)
    requires dir < 2 && AllLegal(run) && GapFree(st, run) && Clear(st, run)
    ensures Expected(From(st, run), dir) == Sum32(Expected(st, dir), Sent(run, dir))
    decreases |run|
  {
    if run != [] {
      var last := |run| - 1;
      var front, s := run[..last], run[last];
      GapFreePrefix(st, run, last);
      GapFreeNumbers(st, front, dir);
      GapFreeNumbers(st, front, s.dir);
      GapFreeNumbers(st, front, 1 - s.dir);
      assert ClearAt(st, run, last) && InOrderAt(st, run, last);
      InOrderStep(From(st, front), s, dir);
      SumSum(Expected(st, dir), Sent(front, dir), if s.dir == dir then s.payload else 0);
    }
  }

  lemma TrackingExactly(st: State, run: seq<Segment>)
    requires AllLegal(run) && GapFree(st, run) && Clear(st, run)
    ensures Tracking(From(st, run)) <==> ClearAt(st, run, |run|)
  {
    GapFreeNumbers(st, run, 0);
    GapFreeNumbers(st, run, 1);
    assert run[..|run|] == run;
  }

  lemma PrefixAt(st: State, run: seq<Segment>, n: nat, i: nat)
    requires i <= n <= |run|
    ensures run[..n][..i] == run[..i] && (ClearAt(st, run[..n], i) <==> ClearAt(st, run, i))
  {
    assert run[..n][..i] == run[..i];
  }

  lemma {:induction false} TrackedIsClear(st: State, run: seq<Segment>, n: nat)
    requires AllLegal(run) && GapFree(st, run) && TrackedThroughout(st, run) && n <= |run|
    ensures Clear(st, run[..n]) && ClearAt(st, run, n)
    decreases n
  {
    var front := run[..n];
    forall i | 0 <= i < n
      ensures ClearAt(st, front, i)
    {
      TrackedIsClear(st, run, i);
      PrefixAt(st, run, n, i);
    }
    forall i | 0 <= i < n
      ensures InOrderAt(st, front, i)
    {
      assert InOrderAt(st, run, i) && front[..i] == run[..i];
    }
    TrackingExactly(st, front);
    PrefixAt(st, run, n, n);
  }

  /** In a gap-free run the tracker knows both numbers throughout exactly if the bytes sent take none to zero. */
  lemma ThroughoutExactly(st: State, run: seq<Segment>)
    requires AllLegal(run) && GapFree(st, run)
    ensures TrackedThroughout(st, run) <==> Clear(st, run) && ClearAt(st, run, |run|)
  {
    if TrackedThroughout(st, run) {
      TrackedIsClear(st, run, |run|);
      assert run[..|run|] == run;
    } else if Clear(st, run) && ClearAt(st, run, |run|) {
      forall i | 0 <= i <= |run|
        ensures Tracking(From(st, run[..i]))
      {
        GapFreePrefix(st, run, i);
        assert ClearAt(st, run, i);
        PrefixAt(st, run, i, i);
        TrackingExactly(st, run[..i]);
      }
    }
  }

  /** In a gap-free stream no packet is flagged as a retransmission while the numbers stay off zero. */
  lemma GapFreeNeverFlagged(st: State, run: seq<Segment>, i: nat)
    requires AllLegal(run) && GapFree(st, run) && Clear(st, run) && i < |run|
    ensures !Flagged(From(st, run[..i]), run[i])
  {
    GapFreePrefix(st, run, i);
    assert InOrderAt(st, run, i);
    GapFreeNumbers(st, run[..i], run[i].dir);
  }

  lemma {:induction false} SentGrows(run: seq<Segment>, i: nat, dir: nat)
    requires i <= |run|
    ensures Sent(run[..i], dir) <= Sent(run, dir)
    decreases |run|
  {
    if i == |run| {
      assert run[..i] == run;
    } else {
      var front := run[..|run| - 1];
      SentGrows(front, i, dir);
      assert front[..i] == run[..i];
    }
  }

  lemma SentWith(run: seq<Segment>, i: nat)
    requires i < |run|
    ensures Sent(run[..i], run[i].dir) + run[i].payload <= Sent(run, run[i].dir)
  {
    SentGrows(run, i + 1, run[i].dir);
    assert run[..i + 1][..i] == run[..i];
  }

  lemma DiffOfSums(base: int, from: nat, to: nat)
    requires from <= to && to - from < TWO32
    ensures Diff32(Sum32(base, to), Sum32(base, from)) == to - from
  {
  }

  // ---- What a number of zero does ----

  lemma FromNext(st: State, run: seq<Segment>, s: Segment)
    requires AllLegal(run) && Legal(s)
    ensures AllLegal(run + [s]) && From(st, run + [s]) == Step(From(st, run), s)
    ensures forall d :: Sent(run + [s], d) == Sent(run, d) + (if s.dir == d then s.payload else 0)
  {
    assert (run + [s])[..|run|] == run;
  }

  lemma GapFreeMore(st: State, run: seq<Segment>, s: Segment)
    requires Legal(s)
    ensures GapFree(st, run + [s]) <==>
            GapFree(st, run) && !s.rst && (s.payload > 0 ==> s.seqNr == Sum32(Expected(st, s.dir), Sent(run, s.dir)))
  {
    var more := run + [s];
    forall i | 0 <= i < |run|
      ensures InOrderAt(st, more, i) <==> InOrderAt(st, run, i)
    {
      assert more[i] == run[i] && more[..i] == run[..i];
    }
    assert GapFree(st, more) ==> InOrderAt(st, more, |run|);
    assert more[|run|] == s && more[..|run|] == run;
  }

  lemma ClearMore(st: State, run: seq<Segment>, s: Segment)
    requires Clear(st, run) && ClearAt(st, run, |run|)
    ensures Clear(st, run + [s])
  {
    var more := run + [s];
    forall i | 0 <= i < |more|
      ensures ClearAt(st, more, i)
    {
      assert more[..i] == run[..i] && ClearAt(st, run, i);
    }
  }

  /** Data from the other side that acknowledges 70000 bytes less than were sent. */
  function LateAck(dir: nat, expected: Seq32): Segment {
    Segment(dir, false, true, false, expected, TWO32 - 70000, if expected == TWO32 - 1 then 2 else 1, true)
  }

  /** A number of zero is set again from that acknowledgement, and the next byte in order is flagged. */
  lemma ZeroMisleads(st: State, t: Segment, u: Segment)
    requires Legal(u) && Expected(st, u.dir) == 0 && t == LateAck(1 - u.dir, Expected(st, 1 - u.dir))
    requires u.payload > 0 && u.seqNr == 0
    ensures Flagged(Step(st, t), u)
  {
  }

  lemma ZeroIsMisled(st: State, run: seq<Segment>, dir: nat) returns (t: Segment, u: Segment)
    requires dir < 2 && AllLegal(run) && GapFree(st, run) && Clear(st, run)
    requires Sum32(Expected(st, dir), Sent(run, dir)) == 0
    ensures Legal(t) && Legal(u) && GapFree(st, run + [t] + [u]) && AllLegal(run + [t])
    ensures Flagged(From(st, run + [t]), u)
  {
    var now := From(st, run);
    GapFreeNumbers(st, run, dir);
    GapFreeNumbers(st, run, 1 - dir);
    t := LateAck(1 - dir, Expected(now, 1 - dir));
    u := Segment(dir, false, true, false, 0, 0, 1, true);
    FromNext(st, run, t);
    GapFreeMore(st, run, t);
    GapFreeMore(st, run + [t], u);
    ZeroMisleads(now, t, u);
  }

  /** The packet after next can be flagged although everything is sent in order. */
  ghost predicate Misled(st: State, run: seq<Segment>)
    requires AllLegal(run)
  {
    exists t: Segment, u: Segment {:trigger run + [t], Legal(u)} ::
      Legal(t) && Legal(u) && GapFree(st, run + [t] + [u]) && Flagged(From(st, run + [t]), u)
  }

  lemma NotMisled(st: State, run: seq<Segment>, t: Segment, u: Segment)
    requires AllLegal(run) && Clear(st, run) && ClearAt(st, run, |run|)
    requires Legal(t) && Legal(u) && GapFree(st, run + [t] + [u])
    ensures AllLegal(run + [t]) && !Flagged(From(st, run + [t]), u)
  {
    var more := run + [t];
    FromNext(st, run, t);
    GapFreeMore(st, more, u);
    ClearMore(st, run, t);
    if ClearAt(st, more, |more|) {
      ClearMore(st, more, u);
      GapFreeNeverFlagged(st, more + [u], |more|);
      assert (more + [u])[..|more|] == more;
    } else {
      TrackingExactly(st, more);
    }
  }

  /** ... exactly when the bytes sent so far have taken a number to zero. */
  lemma MisledExactly(st: State, run: seq<Segment>)
    requires AllLegal(run) && GapFree(st, run) && Clear(st, run)
    ensures Misled(st, run) <==> !ClearAt(st, run, |run|)
  {
    assert run[..|run|] == run;
    if ClearAt(st, run, |run|) {
      forall t: Segment, u: Segment | Legal(t) && Legal(u) && GapFree(st, run + [t] + [u])
        ensures AllLegal(run + [t]) && !Flagged(From(st, run + [t]), u)
      {
        NotMisled(st, run, t, u);
      }
    } else {
      var dir := if Sum32(Expected(st, 0), Sent(run, 0)) == 0 then 0 else 1;
      var t, u := ZeroIsMisled(st, run, dir);
    }
  }

  const BEFORE_ZERO := State(true, true, true, (TWO32 - 100, 500))
  const TO_ZERO := Segment(0, false, true, false, TWO32 - 100, 500, 100, true)
  const BEHIND := Segment(1, false, true, false, 500, TWO32 - 70000, 1, true)
  const IN_ORDER := Segment(0, false, true, false, 0, 501, 10, true)

  lemma ThreeInOrder(st: State, a: Segment, b: Segment, c: Segment)
    requires Legal(a) && Legal(b) && Legal(c) && !a.rst && !b.rst && !c.rst && a.dir == c.dir == 0 && b.dir == 1
    requires a.seqNr == Sum32(Expected(st, 0), 0) && b.seqNr == Sum32(Expected(st, 1), 0)
    requires c.seqNr == Sum32(Expected(st, 0), a.payload)
    ensures GapFree(st, [a, b, c]) && From(st, [a, b]) == Step(Step(st, a), b)
  {
    assert [] + [a] == [a] && [a] + [b] == [a, b] && [a, b] + [c] == [a, b, c];
    FromNext(st, [], a);
    FromNext(st, [a], b);
    assert Sent([a], 1) == 0 && Sent([a, b], 0) == a.payload;
    GapFreeMore(st, [], a);
    GapFreeMore(st, [a], b);
    GapFreeMore(st, [a, b], c);
  }

  /** From 2^32 - 100 a segment of 100 bytes reaches zero; one packet from the other side, and the next in order is flagged. */
  lemma ZeroExample()
    ensures GapFree(BEFORE_ZERO, [TO_ZERO, BEHIND, IN_ORDER])
    ensures Flagged(From(BEFORE_ZERO, [TO_ZERO, BEHIND]), IN_ORDER)
  {
    ThreeInOrder(BEFORE_ZERO, TO_ZERO, BEHIND, IN_ORDER);
    ZeroMisleads(Step(BEFORE_ZERO, TO_ZERO), BEHIND, IN_ORDER);
  }

  lemma BackOfSums(base: int, from: nat, to: nat)
    requires from <= to
    ensures var gone := (to - from) % TWO32;
            Diff32(Sum32(base, from), Sum32(base, to)) == if gone == 0 then 0 else TWO32 - gone
  {
  }

  /**
   A packet `gone` bytes behind is flagged exactly if both numbers are known and those bytes are, modulo
   2^32, some and fewer than 2^32 - 65536. With that few bytes in all it changes no number.
   */
  predicate FlaggedWhen(now: State, again: Segment, known: bool, gone: int)
    requires Legal(again)
  {
    (Flagged(now, again) <==> known && 0 < gone % TWO32 < TWO32 - WINDOW)
    && (known && gone < TWO32 - WINDOW ==> Flagged(now, again) && Step(now, again).next == now.next)
  }

  predicate Behind(at: Seq32, expected: Seq32, gone: nat) {
    Diff32(at, expected) == (if gone % TWO32 == 0 then 0 else TWO32 - gone % TWO32)
    && (gone < TWO32 ==> Diff32(expected, at) == gone)
  }

  lemma BehindSums(base: int, from: nat, to: nat)
    requires from <= to
    ensures Behind(Sum32(base, from), Sum32(base, to), to - from)
  {
    BackOfSums(base, from, to);
    if to - from < TWO32 {
      DiffOfSums(base, from, to);
    }
  }

  lemma FlaggedBehind(now: State, again: Segment, gone: nat)
    requires Legal(again) && !again.rst && 0 < again.payload <= gone
    requires Behind(again.seqNr, Expected(now, again.dir), gone)
    ensures FlaggedWhen(now, again, Tracking(now), gone)
  {
    if Tracking(now) && gone < TWO32 - WINDOW {
      CoveredFlagged(now, again);
    }
  }

  lemma SentAgain(st: State, run: seq<Segment>, i: nat, dir: nat) returns (gone: nat)
    requires AllLegal(run) && GapFree(st, run) && Clear(st, run)
    requires i < |run| && run[i].payload > 0 && run[i].dir == dir
    ensures gone == Sent(run, dir) - Sent(run[..i], dir) && run[i].payload <= gone
    ensures dir < 2 && run[i].payload < TWO16 && Behind(run[i].seqNr, Expected(From(st, run), dir), gone)
    ensures Tracking(From(st, run)) <==> ClearAt(st, run, |run|)
  {
    assert InOrderAt(st, run, i);
    SentWith(run, i);
    gone := Sent(run, dir) - Sent(run[..i], dir);
    TrackingExactly(st, run);
    GapFreeNumbers(st, run, dir);
    BehindSums(Expected(st, dir), Sent(run[..i], dir), Sent(run, dir));
  }

  /** A segment of a gap-free run that is sent again, at any later time, is flagged exactly as `FlaggedWhen` says. */
  lemma ResentIsFlagged(st: State, run: seq<Segment>, i: nat, again: Segment)
    requires AllLegal(run) && GapFree(st, run) && Clear(st, run)
    requires i < |run| && run[i].payload > 0
    requires again.dir == run[i].dir && again.seqNr == run[i].seqNr && again.payload == run[i].payload && !again.rst
    ensures FlaggedWhen(From(st, run), again, ClearAt(st, run, |run|),
                        Sent(run, again.dir) - Sent(run[..i], again.dir))
  {
    var gone := SentAgain(st, run, i, again.dir);
    FlaggedBehind(From(st, run), again, gone);
  }

  // ---- Learning the numbers ----

  /** The number behind a segment: a SYN counts as one byte (section 3.4 of RFC 9293). */
  function NumberBehind(s: Segment): Seq32 {
    Sum32(s.seqNr, if s.syn then 1 else s.payload)
  }

  /**
   While a number is not known, an ACK sets the sender's number to what lies behind its segment, and, unless
   it is the first packet of the flow, the other one to the number it acknowledges. Other packets teach nothing.
   */
  lemma LearnedExactly(st: State, s: Segment)
    requires Legal(s) && !Tracking(st) && !s.rst
    ensures !Flagged(st, s)
    ensures Expected(Step(st, s), s.dir) == if s.ack then NumberBehind(s) else Expected(st, s.dir)
    ensures Expected(Step(st, s), 1 - s.dir) == if s.ack && s.late then s.ackNr else Expected(st, 1 - s.dir)
  {
  }

  ghost predicate WithoutAck(run: seq<Segment>) {
    forall i :: 0 <= i < |run| ==> !run[i].ack
  }

  /** Packets without ACK on a new flow leave both numbers unknown. */
  lemma {:induction false} UnknownBefore(st: State, run: seq<Segment>)
    requires AllLegal(run) && WithoutAck(run) && st.next == (0, 0)
    ensures From(st, run).next == (0, 0)
    decreases |run|
  {
    if run != [] {
      UnknownBefore(st, run[..|run| - 1]);
    }
  }

  lemma {:induction false} FromFresh(run: seq<Segment>)
    requires AllLegal(run)
    ensures From(FRESH, run) == After(run)
    decreases |run|
  {
    if run != [] {
      FromFresh(run[..|run| - 1]);
    }
  }

  /** The answer to a SYN: a SYN+ACK the other way that acknowledges the number behind the SYN. */
  predicate Answers(answer: Segment, syn: Segment) {
    Legal(answer) && IsSynAck(answer) && !answer.rst && answer.late && answer.dir == 1 - syn.dir && answer.ackNr == Sum32(syn.seqNr, 1)
  }

  /**
   After SYNs, however often sent, and the SYN+ACK that answers them, both expected numbers are the initial
   sequence numbers plus one.
   */
  lemma HandshakeNumbers(st: State, syns: seq<Segment>, syn: Segment, answer: Segment)
    requires st.next == (0, 0) && AllLegal(syns) && WithoutAck(syns) && Legal(syn) && IsSyn(syn) && Answers(answer, syn)
    ensures AllLegal(syns + [syn, answer])
    ensures var now := From(st, syns + [syn, answer]);
            Expected(now, syn.dir) == Sum32(syn.seqNr, 1) && Expected(now, answer.dir) == Sum32(answer.seqNr, 1)
  {
    var asked := syns + [syn];
    assert asked + [answer] == syns + [syn, answer];
    FromNext(st, asked, answer);
    UnknownBefore(st, asked);
    LearnedExactly(From(st, asked), answer);
  }

  /** A stream sent in order behind a handshake: each segment starts at its side's initial number, plus one for
      the SYN, plus the bytes sent before it. */
  ghost predicate InOrderBehind(syn: Segment, answer: Segment, run: seq<Segment>) {
    forall i :: 0 <= i < |run| ==> InOrderBehindAt(syn, answer, run, i)
  }

  predicate InOrderBehindAt(syn: Segment, answer: Segment, run: seq<Segment>, i: nat)
    requires i < |run|
  {
    var s := run[i];
    Legal(s) && !s.rst
    && (s.payload > 0 ==> s.seqNr == Sum32((if s.dir == syn.dir then syn else answer).seqNr, 1 + Sent(run[..i], s.dir)))
  }

  lemma StreamIsGapFree(st: State, syn: Segment, answer: Segment, run: seq<Segment>)
    requires Legal(syn) && answer.dir == 1 - syn.dir && InOrderBehind(syn, answer, run)
    requires Expected(st, syn.dir) == Sum32(syn.seqNr, 1) && Expected(st, answer.dir) == Sum32(answer.seqNr, 1)
    ensures AllLegal(run) && GapFree(st, run)
  {
    forall i | 0 <= i < |run|
      ensures Legal(run[i]) && InOrderAt(st, run, i)
    {
      assert InOrderBehindAt(syn, answer, run, i);
      var from := if run[i].dir == syn.dir then syn else answer;
      SumSum(from.seqNr, 1, Sent(run[..i], run[i].dir));
    }
  }

  lemma {:induction false} FromThen(st: State, a: seq<Segment>, b: seq<Segment>)
    requires AllLegal(a) && AllLegal(b)
    ensures AllLegal(a + b) && From(st, a + b) == From(From(st, a), b)
    decreases |b|
  {
    if b == [] {
      assert a + b == a;
    } else {
      var n := |b| - 1;
      FromThen(st, a, b[..n]);
      assert a + b == a + b[..n] + [b[n]];
      FromNext(st, a + b[..n], b[n]);
    }
  }

  /** Both numbers behind a handshake. */
  function Opened(syn: Segment, answer: Segment): State {
    var a, b := Sum32(syn.seqNr, 1), Sum32(answer.seqNr, 1);
    State(true, true, false, if syn.dir == 0 then (a, b) else (b, a))
  }

  lemma SameNumbersClear(st: State, other: State, run: seq<Segment>)
    requires st.next == other.next && Clear(st, run)
    ensures Clear(other, run)
  {
    forall i | 0 <= i < |run|
      ensures ClearAt(other, run, i)
    {
      assert ClearAt(st, run, i);
    }
  }

  /**
   A whole connection from its first packet on: SYNs, the answer, then a stream in order. None of its packets
   is flagged as long as the stream takes neither number to zero.
   */
  lemma ConnectionNeverFlagged(syns: seq<Segment>, syn: Segment, answer: Segment, run: seq<Segment>, i: nat)
    requires AllLegal(syns) && WithoutAck(syns) && Legal(syn) && IsSyn(syn) && Answers(answer, syn)
    requires InOrderBehind(syn, answer, run) && i < |run|
    requires Clear(Opened(syn, answer), run)
    ensures AllLegal(syns + [syn, answer] + run[..i]) && Legal(run[i])
    ensures !Flagged(After(syns + [syn, answer] + run[..i]), run[i])
  {
    var start := syns + [syn, answer];
    assert AllLegal(start);
    FromFresh(start);
    HandshakeNumbers(FRESH, syns, syn, answer);
    SameNumbersClear(Opened(syn, answer), After(start), run);
    StreamIsGapFree(After(start), syn, answer, run);
    GapFreeNeverFlagged(After(start), run, i);
    FromThen(FRESH, start, run[..i]);
    FromFresh(start + run[..i]);
  }

  /** After an RST both numbers are unknown, whatever was known, and a new handshake is learned as on a new flow. */
  lemma ResetForgets(st: State, rst: Segment, syns: seq<Segment>, syn: Segment, answer: Segment)
    requires Legal(rst) && rst.rst
    requires AllLegal(syns) && WithoutAck(syns) && Legal(syn) && IsSyn(syn) && Answers(answer, syn)
    ensures Step(st, rst).next == (0, 0) && AllLegal(syns + [syn, answer])
    ensures var now := From(Step(st, rst), syns + [syn, answer]);
            Expected(now, syn.dir) == Sum32(syn.seqNr, 1) && Expected(now, answer.dir) == Sum32(answer.seqNr, 1)
  {
    HandshakeNumbers(Step(st, rst), syns, syn, answer);
  }

  /** SYN at 500 and SYN+ACK at 1000: 501 and 1001 are expected, and a byte at 1000 is flagged. */
  lemma HandshakeExample()
    ensures var syn := Segment(0, true, false, false, 500, 0, 0, false);
            var answer := Segment(1, true, true, false, 1000, 501, 0, true);
            var late := Segment(1, false, true, false, 1000, 501, 1, true);
            AllLegal([syn, answer]) && After([syn, answer]).next == (501, 1001) && Flagged(After([syn, answer]), late)
  {
    var syn := Segment(0, true, false, false, 500, 0, 0, false);
    var answer := Segment(1, true, true, false, 1000, 501, 0, true);
    assert [syn, answer][..1] == [syn] && [syn][..0] == [];
    assert After([syn]).next == (0, 0);
  }
}
