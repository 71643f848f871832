/** Reading a TLV buffer item by item and writing it again, and whole runs of calls on one buffer that grows. */
module Cloning {
  import opened Bytes
  import opened Calls
  import opened JsonText
  import opened Documents
  import opened SerializerBuffer
  import opened Reservations
  import Tlv
  import Rollbacks
  import JsonMeaning

  // ---- Runs ----

  lemma RunNext(fmt: Format, d: Doc, cs: seq<Call>, i: nat, sc: bool)
    requires !fmt.CSV? && AllAccepted(fmt, cs) && i < |cs|
    ensures Run(fmt, d, cs[..i + 1], sc) == Step(fmt, Run(fmt, d, cs[..i], sc), cs[i], sc)
  {
    assert cs[..i + 1][..i] == cs[..i];
  }

  /** The size of the buffer after a run. */
  function Capacity(fmt: Format, d: Doc, cs: seq<Call>, sc: bool, size: nat, initial: nat): nat
    requires !fmt.CSV? && AllAccepted(fmt, cs)
  {
    if cs == [] then size
    else
      var front := cs[..|cs| - 1];
      NextCapacity(fmt, |Run(fmt, d, front, sc).text|, Capacity(fmt, d, front, sc, size, initial), cs[|cs| - 1], initial)
  }

  lemma CapacityNext(fmt: Format, d: Doc, cs: seq<Call>, i: nat, sc: bool, size: nat, initial: nat)
    requires !fmt.CSV? && AllAccepted(fmt, cs) && i < |cs|
    ensures Capacity(fmt, d, cs[..i + 1], sc, size, initial)
         == NextCapacity(fmt, |Run(fmt, d, cs[..i], sc).text|, Capacity(fmt, d, cs[..i], sc, size, initial), cs[i], initial)
  {
    assert cs[..i + 1][..i] == cs[..i];
  }

  /** The `i`-th call reserves what it writes, or finds room for it in the buffer as it is by then. */
  ghost predicate FitsAt(fmt: Format, d: Doc, cs: seq<Call>, sc: bool, size: nat, initial: nat, i: nat)
    requires !fmt.CSV? && AllAccepted(fmt, cs) && i < |cs|
  {
    SelfReserving(fmt, cs[i], sc)
    || |Run(fmt, d, cs[..i + 1], sc).text| <= Capacity(fmt, d, cs[..i + 1], sc, size, initial)
  }

  ghost predicate Spacious(fmt: Format, d: Doc, cs: seq<Call>, sc: bool, size: nat, initial: nat)
    requires !fmt.CSV? && AllAccepted(fmt, cs)
  {
    forall i :: 0 <= i < |cs| ==> FitsAt(fmt, d, cs, sc, size, initial, i)
  }

  lemma NextFits(fmt: Format, d: Doc, cs: seq<Call>, i: nat, sc: bool, size: nat, initial: nat)
    requires !fmt.CSV? && AllAccepted(fmt, cs) && i < |cs| && Spacious(fmt, d, cs, sc, size, initial)
    requires var e := Run(fmt, d, cs[..i], sc);
             Roomy(fmt, |e.text|, e.flags) && |e.text| <= Capacity(fmt, d, cs[..i], sc, size, initial)
    ensures Fits(fmt, Run(fmt, d, cs[..i], sc), cs[i], sc, Capacity(fmt, d, cs[..i], sc, size, initial), initial)
  {
    var e, now := Run(fmt, d, cs[..i], sc), Capacity(fmt, d, cs[..i], sc, size, initial);
    RunNext(fmt, d, cs, i, sc);
    CapacityNext(fmt, d, cs, i, sc, size, initial);
    assert FitsAt(fmt, d, cs, sc, size, initial, i);
    if SelfReserving(fmt, cs[i], sc) {
      SelfReservingFits(fmt, e, cs[i], sc, now, initial);
    }
  }

  lemma {:induction false} RunTlvText(d: Doc, cs: seq<Call>, sc: bool)
    requires AllAccepted(TLV, cs) && Tlv.AllReadable(cs)
    ensures Run(TLV, d, cs, sc).text == d.text + Tlv.EncodeAll(cs)
  {
    if cs == [] {
      assert Tlv.EncodeEach(cs) == [];
      GlueEmpty(d.text);
    } else {
      var front, c := cs[..|cs| - 1], cs[|cs| - 1];
      RunTlvText(d, front, sc);
      Tlv.EncodeAllLast(cs);
      Glue3(d.text, Tlv.EncodeAll(front), Tlv.Encode(c));
    }
  }

  /** A serializer that has made the calls `cs` since it held `d` in a buffer of `size` bytes. */
  ghost predicate Made(s: Serializer, d: Doc, cs: seq<Call>, size: nat)
    reads s, s.data
  {
    && s.Valid() && AllAccepted(s.fmt, cs)
    && s.Image() == Run(s.fmt, d, cs, s.sc)
    && s.data.Length == Capacity(s.fmt, d, cs, s.sc, size, s.initialSize)
  }

  /** One more call of a run. */
  method PerformNext(s: Serializer, c: Call, ghost d: Doc, ghost cs: seq<Call>, ghost i: nat, ghost size: nat)
    requires AllAccepted(s.fmt, cs) && i < |cs| && c == cs[i] && Made(s, d, cs[..i], size)
    requires !s.fmt.CSV? && Spacious(s.fmt, d, cs, s.sc, size, s.initialSize)
    modifies s`data, s`used, s`flags, s.data
    ensures Made(s, d, cs[..i + 1], size) && (s.data == old(s.data) || fresh(s.data))
  {
    NextFits(s.fmt, d, cs, i, s.sc, size, s.initialSize);
    RunNext(s.fmt, d, cs, i, s.sc);
    CapacityNext(s.fmt, d, cs, i, s.sc, size, s.initialSize);
    s.Perform(c);
  }

  /** All calls in turn on one buffer. */
  method PerformAll(s: Serializer, cs: seq<Call>)
    requires s.Valid() && AllAccepted(s.fmt, cs)
    requires Spacious(s.fmt, s.Image(), cs, s.sc, s.data.Length, s.initialSize)
    modifies s`data, s`used, s`flags, s.data
    ensures s.Valid() && (s.data == old(s.data) || fresh(s.data))
    ensures s.Image() == Run(s.fmt, old(s.Image()), cs, s.sc)
    ensures s.data.Length == Capacity(s.fmt, old(s.Image()), cs, s.sc, old(s.data.Length), s.initialSize)
  {
    ghost var d, size := s.Image(), s.data.Length;
    for i := 0 to |cs|
      invariant Made(s, d, cs[..i], size) && (s.data == old(s.data) || fresh(s.data))
    {
      PerformNext(s, cs[i], d, cs, i, size);
    }
    assert cs[..|cs|] == cs;
  }

  /** Snapshot, any further calls, rollback: the document is the one that was there. */
  method TryAndUndo(s: Serializer, cs: seq<Call>)
    requires s.Valid() && AllAccepted(s.fmt, cs)
    requires Spacious(s.fmt, s.Image(), cs, s.sc, s.data.Length, s.initialSize)
    requires s.fmt.TLV? ==> s.used > 0
    requires s.fmt.JSON? ==> Rollbacks.Sound(s.Image()) && TailLength(s.flags) == 1
    modifies s, s.data
    ensures s.Valid() && s.Image() == old(s.Image())
  {
    ghost var d := s.Image();
    s.CreateSnapshot();
    PerformAll(s, cs);
    if s.fmt.JSON? {
      Rollbacks.RollbackJson(d, cs, s.sc);
    } else {
      Rollbacks.RollbackTlv(d, cs, s.sc);
    }
    s.RollbackSnapshot();
  }

  // ---- Cloning ----

  /** A cursor over serialized bytes, put behind the two header bytes. */
  class Deserializer {
    const buf: bytes
    var pos: nat

    constructor (buf: bytes)
      ensures this.buf == buf && pos == 2
    {
      this.buf := buf;
      pos := 2;
    }

    method Next()
      modifies this`pos
      ensures pos == Tlv.NextPos(buf, old(pos))
    {
      pos := Tlv.NextPos(buf, pos);
    }
  }

  /** A TLV buffer made by the writers from readable calls. */
  ghost predicate MadeFrom(buf: bytes, cs: seq<Call>) {
    Tlv.AllReadable(cs) && |buf| < TWO32 && buf == Tlv.HEADER + Tlv.EncodeAll(cs)
  }

  /** The cursor stands on the `i`-th of the stored items. */
  ghost predicate Reads(src: Deserializer, item: Tlv.Reading, places: seq<nat>, stored: seq<Call>, i: nat)
    reads src
  {
    && i <= |stored| && |places| == |stored| + 1 && src.pos == places[i]
    && item == if i < |stored| then Tlv.Got(stored[i]) else Tlv.Stop
  }

  method ReadFirst(src: Deserializer, ghost places: seq<nat>, ghost stored: seq<Call>) returns (item: Tlv.Reading)
    requires Tlv.OnTrack(src.buf, places, stored) && src.pos == 2
    ensures Reads(src, item, places, stored, 0) && places[|stored|] == |src.buf|
  {
    Tlv.StopsAtEnd(src.buf);
    assert stored == [] || Tlv.LandsAt(src.buf, places, stored, 0);
    item := Tlv.ReadItem(src.buf, src.pos);
  }

  method ReadNext(src: Deserializer, ghost places: seq<nat>, ghost stored: seq<Call>, ghost i: nat) returns (item: Tlv.Reading)
    requires Tlv.OnTrack(src.buf, places, stored) && i < |stored| && src.pos == places[i]
    modifies src`pos
    ensures Reads(src, item, places, stored, i + 1)
  {
    Tlv.StopsAtEnd(src.buf);
    assert Tlv.LandsAt(src.buf, places, stored, i);
    assert i + 1 < |stored| ==> Tlv.LandsAt(src.buf, places, stored, i + 1);
    src.Next();
    item := Tlv.ReadItem(src.buf, src.pos);
  }

  // ---- One item, byte by byte ----

  /** The bytes the cursor would step over. */
  function Copied(buf: bytes, pos: nat): (s: bytes)
    ensures |s| < TWO16
  {
    var n := Tlv.NextPos(buf, pos) - pos;
    seq<byte>(n, i requires 0 <= i < n => At(buf, pos + i))
  }

  /**
   `ndpi_deserialize_clone_item`, which copies the item under the cursor without looking at it. The sizes
   are kept in 16 unsigned bits, so their error value is never seen as negative.
   */
  method CloneItem(src: Deserializer, dst: Serializer) returns (rc: int)
    requires dst.Valid()
    modifies dst`data, dst`used, dst.data
    ensures rc == if !dst.fmt.TLV? then -3 else if (|src.buf| - src.pos) % TWO32 < 1 then -2 else 0
    ensures dst.Valid() && (dst.data == old(dst.data) || fresh(dst.data))
    ensures dst.Image() == if rc == 0 then Append(old(dst.Image()), Copied(src.buf, src.pos)) else old(dst.Image())
  {
    if !dst.fmt.TLV? {
      return -3;
    }
    if (|src.buf| - src.pos) % TWO32 < 1 {
      return -2;
    }
    var item := Copied(src.buf, src.pos);
    dst.Reserve(|item|);
    dst.PutAll(item);
    rc := 0;
  }

  lemma CopiedItem(buf: bytes, pos: nat, item: bytes)
    requires Holds(buf, pos, item) && Tlv.NextPos(buf, pos) == pos + |item|
    ensures Copied(buf, pos) == item
  {
    forall i | 0 <= i < |item|
      ensures At(buf, pos + i) == item[i]
    {
      HoldsAt(buf, pos, item, i);
    }
  }

  /** Copying a stored item leaves the text that writing it again leaves, exactly if it is under 65536 bytes. */
  lemma CopyIsRewriting(buf: bytes, pos: nat, c: Call, d: Doc, sc: bool)
    requires Tlv.Stored(c) && |buf| < TWO32 && Holds(buf, pos, Tlv.Item(c))
    ensures Append(d, Copied(buf, pos)).text == Step(TLV, d, c, sc).text <==> |Tlv.Item(c)| < TWO16
  {
    if |Tlv.Item(c)| < TWO16 {
      Tlv.NextLands(buf, pos, c);
      CopiedItem(buf, pos, Tlv.Item(c));
    } else {
      assert |Step(TLV, d, c, sc).text| == |d.text| + |Tlv.Item(c)|;
    }
  }

  // ---- All items, through the writers ----

  /** One round of the clone loop: the writer call for the item, and the step to the next one. */
  method CloneOne(src: Deserializer, dst: Serializer, c: Call,
                  ghost d: Doc, ghost places: seq<nat>, ghost stored: seq<Call>, ghost i: nat, ghost size: nat)
    returns (item: Tlv.Reading)
    requires Tlv.OnTrack(src.buf, places, stored) && i < |stored| && src.pos == places[i] && c == stored[i]
    requires AllAccepted(dst.fmt, stored) && Made(dst, d, stored[..i], size)
    requires !dst.fmt.CSV? && Spacious(dst.fmt, d, stored, dst.sc, size, dst.initialSize)
    modifies src`pos, dst`data, dst`used, dst`flags, dst.data
    ensures Reads(src, item, places, stored, i + 1)
    ensures Made(dst, d, stored[..i + 1], size) && (dst.data == old(dst.data) || fresh(dst.data))
  {
    item := ReadNext(src, places, stored, i);
    PerformNext(dst, c, d, stored, i, size);
  }

  /** The clone loop, over a buffer whose items are `stored`. */
  method CloneItems(src: Deserializer, dst: Serializer, ghost places: seq<nat>, ghost stored: seq<Call>) returns (rc: int)
    requires Tlv.OnTrack(src.buf, places, stored) && src.pos == 2
    requires dst.Valid() && AllAccepted(dst.fmt, stored)
    requires Spacious(dst.fmt, dst.Image(), stored, dst.sc, dst.data.Length, dst.initialSize)
    modifies src`pos, dst`data, dst`used, dst`flags, dst.data
    ensures rc == 0 && src.pos == |src.buf|
    ensures dst.Valid() && dst.Image() == Run(dst.fmt, old(dst.Image()), stored, dst.sc)
  {
    ghost var d, size := dst.Image(), dst.data.Length;
    ghost var i := 0;
    var item := ReadFirst(src, places, stored);
    assert stored[..0] == [];
    while item != Tlv.Stop
      invariant Reads(src, item, places, stored, i)
      invariant Made(dst, d, stored[..i], size) && (dst.data == old(dst.data) || fresh(dst.data))
      decreases |stored| - i
    {
      if item.Unreadable? {
        return -1;
      }
      item := CloneOne(src, dst, item.call, d, places, stored, i, size);
      i := i + 1;
    }
    assert stored[..i] == stored;
    rc := 0;
  }

  /**
   `ndpi_deserialize_clone_all`. On every buffer made by the writers the loop ends at the end of
   the buffer, having made on the target exactly the calls that were stored.
   */
  method CloneAll(src: Deserializer, dst: Serializer, ghost cs: seq<Call>) returns (rc: int)
    requires MadeFrom(src.buf, cs) && src.pos == 2
    requires dst.Valid() && AllAccepted(dst.fmt, Tlv.NormAll(cs))
    requires Spacious(dst.fmt, dst.Image(), Tlv.NormAll(cs), dst.sc, dst.data.Length, dst.initialSize)
    modifies src`pos, dst`data, dst`used, dst`flags, dst.data
    ensures rc == 0 && src.pos == |src.buf|
    ensures dst.Valid() && dst.Image() == Run(dst.fmt, old(dst.Image()), Tlv.NormAll(cs), dst.sc)
    ensures dst.fmt.TLV? && old(dst.Image()) == Empty(TLV) ==> dst.Image().text == src.buf
  {
    ghost var places := Tlv.Track(src.buf, cs);
    CloneIsIdentical(src.buf, cs, dst.sc);
    rc := CloneItems(src, dst, places, Tlv.NormAll(cs));
  }

  lemma NormReadable(cs: seq<Call>)
    requires Tlv.AllReadable(cs)
    ensures Tlv.AllReadable(Tlv.NormAll(cs)) && AllAccepted(TLV, Tlv.NormAll(cs))
  {
    forall i | 0 <= i < |cs| ensures Tlv.Encode(Norm(cs[i])) == Tlv.Encode(cs[i]) {
      Tlv.EncodeOfStored(cs[i]);
    }
  }

  /** Canonical encoding: cloned into an empty TLV serializer, a buffer is reproduced byte for byte. */
  lemma CloneIsIdentical(buf: bytes, cs: seq<Call>, sc: bool)
    requires MadeFrom(buf, cs)
    ensures AllAccepted(TLV, Tlv.NormAll(cs))
    ensures Run(TLV, Empty(TLV), Tlv.NormAll(cs), sc).text == buf
  {
    NormReadable(cs);
    RunTlvText(Empty(TLV), Tlv.NormAll(cs), sc);
    Tlv.CanonicalEncoding(cs);
  }

  /** Cloned into an empty JSON serializer, it becomes a text that parses to the tree of the stored calls. */
  lemma CloneToJson(cs: seq<Call>, sc: bool)
    requires Tlv.AllReadable(cs) && JsonMeaning.AllowedRun(JsonMeaning.START, Tlv.NormAll(cs))
    ensures AllAccepted(JSON, Tlv.NormAll(cs))
    ensures var end := JsonMeaning.ApplyAll(JsonMeaning.START, Tlv.NormAll(cs));
            var text := Run(JSON, Empty(JSON), Tlv.NormAll(cs), sc).text;
            Parse(text + JsonMeaning.Braces(JsonMeaning.OpenBlocks(end))) == Ok(Strip(JsonMeaning.Tree(end), sc), [])
  {
    JsonMeaning.JsonMeaning(Tlv.NormAll(cs), sc);
  }
}
