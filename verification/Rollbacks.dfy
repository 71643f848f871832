/** When rolling back to a snapshot restores the document that was there. */
module Rollbacks {
  import opened Bytes
  import opened Calls
  import opened JsonText
  import opened Documents

  /** After a snapshot of `d0`, the calls `cs` and a rollback, `d0` is back. */
  ghost predicate Restores(fmt: Format, d0: Doc, cs: seq<Call>, sc: bool)
    requires !fmt.CSV? && AllAccepted(fmt, cs)
  {
    var d := Run(fmt, d0, cs, sc);
    0 < |d0.text| <= |d.text| && |d0.header| <= |d.header| && Rollback(fmt, d, Take(d0)) == d0
  }

  // ---- Append-only formats ----

  lemma {:induction false} TlvAppends(d0: Doc, cs: seq<Call>, sc: bool)
    requires AllAccepted(TLV, cs)
    ensures d0.text <= Run(TLV, d0, cs, sc).text && Run(TLV, d0, cs, sc).header == d0.header
  {
    if cs != [] {
      TlvAppends(d0, cs[..|cs| - 1], sc);
    }
  }

  /** In TLV every rollback is exact, whatever was written since. */
  lemma RollbackTlv(d0: Doc, cs: seq<Call>, sc: bool)
    requires AllAccepted(TLV, cs) && d0.text != []
    ensures Restores(TLV, d0, cs, sc)
  {
    TlvAppends(d0, cs, sc);
  }

  lemma {:induction false} CsvAppends(d0: Doc, cs: seq<CsvCall>, separator: byte)
    ensures d0.text <= RunCsv(d0, cs, separator).text
    ensures d0.header <= RunCsv(d0, cs, separator).header
  {
    if cs != [] {
      CsvAppends(d0, cs[..|cs| - 1], separator);
    }
  }

  /** In CSV too, header included. */
  lemma RollbackCsv(d0: Doc, cs: seq<CsvCall>, separator: byte)
    ensures var d := RunCsv(d0, cs, separator);
            |d0.text| <= |d.text| && |d0.header| <= |d.header| && Rollback(CSV, d, Take(d0)) == d0
  {
    CsvAppends(d0, cs, separator);
  }

  // ---- JSON ----

  ghost predicate EndsWith(s: bytes, tail: bytes) {
    |tail| <= |s| && s[|s| - |tail|..] == tail
  }

  /** What every JSON document looks like at its two ends, after any calls at all. */
  ghost predicate Sound(d: Doc) {
    var f := d.flags;
    && |d.text| >= TailLength(f) + 2
    && (f.eor ==> f.inArray)
    && d.text[0] == (if f.inArray then LBRACKET else SPACE)
    && d.text[|d.text| - 1] == (if f.inArray then RBRACKET else RBRACE)
    && (!f.eor ==> EndsWith(d.text, Closers(f)))
  }

  /** The position below which the next call changes nothing but the first byte. */
  function Floor(d: Doc): int {
    |d.text| - TailLength(d.flags)
  }

  ghost predicate Builds(d: Doc, e: Doc) {
    && |d.text| <= |e.text|
    && Floor(d) <= Floor(e)
    && e.header == d.header
    && (d.flags.inArray ==> e.flags.inArray)
    && forall i :: 1 <= i < Floor(d) ==> e.text[i] == d.text[i]
  }

  lemma PreKeeps(d: Doc)
    requires Sound(d)
    ensures d.text[..Floor(d)] <= Pre(d).text
    ensures Pre(d).flags.inArray == d.flags.inArray && !Pre(d).flags.eor && Pre(d).header == d.header
    ensures Pre(d).flags.list == d.flags.list
  {
  }

  /** A document closed again behind new text, with the given flags. */
  function Closed(p: Doc, s: bytes, f: Flags): Doc {
    Doc(p.text + s + Closers(f), p.header, f)
  }

  /** Writing at least one character between `Pre` and the closers keeps the ends and all below the floor. */
  lemma RewriteKeeps(d: Doc, s: bytes, f: Flags)
    requires Sound(d) && |s| > 0 && (d.flags.list ==> f.list)
    requires f.inArray == d.flags.inArray && !f.eor
    ensures Sound(Closed(Pre(d), s, f)) && Builds(d, Closed(Pre(d), s, f))
  {
    PreKeeps(d);
    var p := Pre(d).text;
    assert |p| >= Floor(d) >= 2 && p[..Floor(d)] == d.text[..Floor(d)];
    ClosedIsSound(Pre(d), s, f);
    RewriteBuilds(d, s, f);
  }

  lemma ClosedIsSound(p: Doc, s: bytes, f: Flags)
    requires |p.text| >= 2 && !f.eor && p.text[0] == if f.inArray then LBRACKET else SPACE
    ensures Sound(Closed(p, s, f))
  {
    var e, c := Closed(p, s, f), Closers(f);
    assert e.text[|e.text| - |c|..] == c;
    assert c[|c| - 1] == e.text[|e.text| - 1];
    assert |c| == TailLength(f);
  }

  lemma RewriteBuilds(d: Doc, s: bytes, f: Flags)
    requires Sound(d) && |s| > 0 && (d.flags.list ==> f.list) && f.inArray == d.flags.inArray && !f.eor
    ensures Builds(d, Closed(Pre(d), s, f))
  {
    PreKeeps(d);
    var p, n := Pre(d).text, Floor(d);
    assert forall i :: 0 <= i < n ==> p[i] == d.text[i];
    assert |Closers(f)| == TailLength(f);
  }

  lemma CloseKeeps(d: Doc, sob: bool)
    requires Sound(d)
    ensures var e := Post(d.(flags := d.flags.(sob := sob)));
            Sound(e) && Builds(d, e)
  {
    var e := Post(d.(flags := d.flags.(sob := sob)));
    var c := Closers(e.flags);
    assert e.text[|e.text| - |c|..] == c;
    assert c[|c| - 1] == e.text[|e.text| - 1];
  }

  lemma EndListKeeps(d: Doc)
    requires Sound(d)
    ensures var e := d.(flags := d.flags.(sol := false, list := false));
            Sound(e) && Builds(d, e)
  {
    var e := d.(flags := d.flags.(sol := false, list := false));
    if !d.flags.eor && d.flags.list {
      var c, c' := Closers(d.flags), Closers(e.flags);
      assert c == [RBRACKET] + c';
      assert d.text[|d.text| - |c'|..] == d.text[|d.text| - |c|..][1..];
    }
  }

  /** The calls that write are rewrites. */
  lemma StepIsRewrite(d: Doc, c: Call, sc: bool) returns (s: bytes, f: Flags)
    requires Sound(d) && Spellable(c) && (c.Put? || c.StartList? || c.StartBlock?)
    ensures StepJson(d, c, sc) == Closed(Pre(d), s, f)
    ensures |s| > 0 && (d.flags.list ==> f.list) && f.inArray == d.flags.inArray && !f.eor
  {
    var g := Pre(d).flags;
    match c {
      case Put(k, v) => s, f := PutText(k, v, g.list, sc), g.(comma := true, notEmpty := true);
      case StartList(name) => s, f := OpenText(name, LBRACKET, sc), g.(comma := true, list := true, sol := true);
      case StartBlock(name) => s, f := OpenText(name, LBRACE, sc), g.(comma := true, sob := true);
    }
  }

  lemma EndRecordKeeps(d: Doc, sc: bool)
    requires Sound(d)
    ensures Sound(StepJson(d, EndRecord, sc)) && Builds(d, StepJson(d, EndRecord, sc))
  {
  }

  /** Every call keeps the ends in order and nothing below the floor but the first byte changes. */
  lemma StepKeeps(d: Doc, c: Call, sc: bool)
    requires Sound(d) && Spellable(c)
    ensures Sound(StepJson(d, c, sc)) && Builds(d, StepJson(d, c, sc))
  {
    match c {
      case EndBlock => CloseKeeps(d, false);
      case EndList => EndListKeeps(d);
      case EndRecord => EndRecordKeeps(d, sc);
      case _ =>
        var s, f := StepIsRewrite(d, c, sc);
        RewriteKeeps(d, s, f);
    }
  }

  lemma {:induction false} RunKeeps(d: Doc, cs: seq<Call>, sc: bool)
    requires Sound(d) && AllAccepted(JSON, cs)
    ensures Sound(Run(JSON, d, cs, sc)) && Builds(d, Run(JSON, d, cs, sc))
  {
    if cs != [] {
      var front := cs[..|cs| - 1];
      RunKeeps(d, front, sc);
      StepKeeps(Run(JSON, d, front, sc), cs[|cs| - 1], sc);
    }
  }

  /** Every document reached from an empty one is sound, even by calls JSON has no room for. */
  lemma Reachable(cs: seq<Call>, sc: bool)
    requires AllAccepted(JSON, cs)
    ensures Sound(Run(JSON, Empty(JSON), cs, sc))
  {
    RunKeeps(Empty(JSON), cs, sc);
  }

  lemma RollbackJson(d0: Doc, cs: seq<Call>, sc: bool)
    requires Sound(d0) && AllAccepted(JSON, cs) && TailLength(d0.flags) == 1
    ensures Restores(JSON, d0, cs, sc)
  {
    RunKeeps(d0, cs, sc);
    var d := Run(JSON, d0, cs, sc);
    assert Rollback(JSON, d, Take(d0)).text == d0.text;
  }

  /** A call after which a longer tail is not repaired: a single member, or list element, zero. */
  const SPOILER: Call := Put(NumKey(0), U32(0))

  lemma Spoiled(d0: Doc, sc: bool)
    requires Sound(d0) && TailLength(d0.flags) > 1
    ensures AllAccepted(JSON, [SPOILER]) && !Restores(JSON, d0, [SPOILER], sc)
  {
    RunOne(d0, SPOILER, sc);
    FirstWritten(d0, sc);
    FirstClosed(d0);
    Differs(d0, StepJson(d0, SPOILER, sc), Floor(d0));
  }

  /** A byte that is neither the first nor the last one is not repaired. */
  lemma Differs(d0: Doc, d: Doc, i: nat)
    requires 1 <= i < |d0.text| - 1 && i < |d.text| && d.text[i] != d0.text[i]
    ensures |d0.text| <= |d.text| && |d0.header| <= |d.header| ==> Rollback(JSON, d, Take(d0)) != d0
  {
    if |d0.text| <= |d.text| && |d0.header| <= |d.header| {
      assert Rollback(JSON, d, Take(d0)).text[i] == d.text[i];
    }
  }

  lemma RunOne(d0: Doc, c: Call, sc: bool)
    requires Spellable(c)
    ensures AllAccepted(JSON, [c]) && Run(JSON, d0, [c], sc) == StepJson(d0, c, sc)
  {
    assert [c][..0] == [];
    assert Run(JSON, d0, [], sc) == d0;
  }

  lemma FirstClosed(d0: Doc)
    requires Sound(d0) && TailLength(d0.flags) > 1
    ensures d0.text[Floor(d0)] in {RBRACKET, RBRACE}
  {
    var c := Closers(d0.flags);
    assert d0.text[|d0.text| - |c|..][0] == c[0];
  }

  lemma FirstWritten(d0: Doc, sc: bool)
    requires Sound(d0) && TailLength(d0.flags) > 1
    ensures var d := StepJson(d0, SPOILER, sc);
            Floor(d0) < |d.text| && d.text[Floor(d0)] in {COMMA, QUOTE, ZERO}
  {
    var p := Pre(d0);
    var s := PutText(NumKey(0), U32(0), p.flags.list, sc);
    assert StepJson(d0, SPOILER, sc).text == p.text + s + Closers(p.flags);
    assert s[0] in {QUOTE, ZERO};
  }

  /**
   In JSON a rollback is exact whatever is written in between if and only if the snapshot was
   taken where the tail is one character long: at a record boundary, or before the first
   end-of-record with no list open. The flags tell the caller.
   */
  lemma RollbackJsonExactly(d0: Doc, sc: bool)
    requires Sound(d0)
    ensures (forall cs :: AllAccepted(JSON, cs) ==> Restores(JSON, d0, cs, sc)) <==> TailLength(d0.flags) == 1
    ensures TailLength(d0.flags) == 1 <==> d0.flags.eor || (!d0.flags.inArray && !d0.flags.list)
  {
    if TailLength(d0.flags) == 1 {
      forall cs | AllAccepted(JSON, cs) ensures Restores(JSON, d0, cs, sc) {
        RollbackJson(d0, cs, sc);
      }
    } else {
      Spoiled(d0, sc);
    }
  }
}
