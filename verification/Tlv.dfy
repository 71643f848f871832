/**
 The TLV format: what one call appends, what the cursor-based reader makes of a buffer,
 and why the second undoes the first.
 */
module Tlv {
  import opened Bytes
  import opened Calls

  // ndpi_serialization_type
  const T_UNKNOWN := 0
  const T_END_OF_RECORD := 1
  const T_UINT8 := 2
  const T_UINT16 := 3
  const T_UINT32 := 4
  const T_UINT64 := 5
  const T_INT8 := 6
  const T_INT16 := 7
  const T_INT32 := 8
  const T_INT64 := 9
  const T_FLOAT := 10
  const T_STRING := 11
  const T_START_OF_BLOCK := 12
  const T_END_OF_BLOCK := 13
  const T_START_OF_LIST := 14
  const T_END_OF_LIST := 15

  // ---- Writing ----

  function UIntTag(n: nat): (t: nat)
    ensures t < 16
  {
    if n <= 0xff then T_UINT8 else if n <= 0xffff then T_UINT16 else T_UINT32
  }

  function UIntBody(n: nat): bytes
    requires n < TWO32
  {
    if n <= 0xff then Word8(n) else if n <= 0xffff then Word16(n) else Word32(n)
  }

  function StrBody(s: bytes): bytes
    requires |s| < TWO16
  {
    Word16(|s|) + s
  }

  function KeyTag(k: Key): (t: nat)
    ensures t < 16
  {
    match k
    case NumKey(n) => UIntTag(n)
    case StrKey(_) => T_STRING
  }

  function KeyBody(k: Key): bytes
    requires ValidKey(k)
  {
    match k
    case NumKey(n) => UIntBody(n)
    case StrKey(s) => StrBody(s)
  }

  function ValTag(v: Val): (t: nat)
    requires !v.Bool?
    ensures t < 16
  {
    match v
    case U32(n) => UIntTag(n)
    case U64(_) => T_UINT64
    case I32(i) => if -128 <= i <= 127 then T_INT8 else if -32768 <= i <= 32767 then T_INT16 else T_INT32
    case I64(_) => T_INT64
    case Flt(_) => T_FLOAT
    case Bin(_) => T_STRING
  }

  function ValBody(v: Val): bytes
    requires ValidVal(v) && !v.Bool?
  {
    match v
    case U32(n) => UIntBody(n)
    case U64(n) => Word64(n)
    case I32(i) =>
      if -128 <= i <= 127 then Word8(Unsigned(i, TWO8))
      else if -32768 <= i <= 32767 then Word16(Unsigned(i, TWO16))
      else Word32(Unsigned(i, TWO32))
    case I64(i) => Word64(Unsigned(i, TWO64))
    case Flt(raw) => raw
    case Bin(s) => StrBody(s)
  }

  /** The bytes of one item whose key and value are already in their stored form. */
  function Item(c: Call): (s: bytes)
    requires ValidCall(c)
  {
    match c
    case Put(k, v) =>
      if v.Bool? then [] else [KeyTag(k) * 16 + ValTag(v)] + KeyBody(k) + ValBody(v)
    case StartList(s) => [T_START_OF_LIST] + StrBody(s)
    case EndList => [T_END_OF_LIST]
    case StartBlock(s) => [T_START_OF_BLOCK] + StrBody(s)
    case EndBlock => [T_END_OF_BLOCK]
    case EndRecord => [T_END_OF_RECORD]
  }

  /** What one call appends to a TLV buffer. Booleans are refused in this format. */
  function Encode(c: Call): bytes
    requires ValidCall(c)
  {
    Item(Norm(c))
  }

  ghost predicate AllValid(cs: seq<Call>) {
    forall i :: 0 <= i < |cs| ==> ValidCall(cs[i])
  }

  function EncodeEach(cs: seq<Call>): (parts: seq<bytes>)
    requires AllValid(cs)
    ensures |parts| == |cs|
    ensures forall i :: 0 <= i < |cs| ==> parts[i] == Encode(cs[i])
  {
    seq(|cs|, i requires 0 <= i < |cs| => Encode(cs[i]))
  }

  function EncodeAll(cs: seq<Call>): bytes
    requires AllValid(cs)
  {
    Concat(EncodeEach(cs))
  }

  lemma EncodeAllLast(cs: seq<Call>)
    requires AllValid(cs) && cs != []
    ensures EncodeAll(cs) == EncodeAll(cs[..|cs| - 1]) + Encode(cs[|cs| - 1])
  {
    var last := |cs| - 1;
    assert EncodeEach(cs)[..last] == EncodeEach(cs[..last]);
  }

  /** Version byte, then the format. */
  const HEADER: bytes := [1, 1]

  // ---- Reading ----

  /** The 4-bit key and value types of the item under the cursor. */
  function KeySubtype(buf: bytes, pos: nat): (t: nat)
    ensures t < 16
  {
    if pos >= |buf| then T_UNKNOWN else buf[pos] / 16
  }

  function ValSubtype(buf: bytes, pos: nat): (t: nat)
    ensures t < 16
  {
    if pos >= |buf| then T_UNKNOWN else buf[pos] % 16
  }

  function Widen(t: nat): (r: nat)
    requires t < 16
    ensures r < 16
  {
    if t == T_UINT8 || t == T_UINT16 then T_UINT32
    else if t == T_INT8 || t == T_INT16 then T_INT32
    else t
  }

  /** `get_item_type`: key types widen only among the unsigned ones. */
  function ItemType(buf: bytes, pos: nat): (t: nat)
    ensures t < 16
  {
    Widen(ValSubtype(buf, pos))
  }

  function ItemKeyType(buf: bytes, pos: nat): (t: nat)
    ensures t < 16
  {
    var kt := KeySubtype(buf, pos);
    if kt == T_UINT8 || kt == T_UINT16 then T_UINT32 else kt
  }

  /**
   `get_single_string_size`, as its caller keeps it: the sum is 16 bits wide, and the error
   value -2 becomes 65534 when stored in an unsigned 16-bit variable.
   */
  function StringSize(buf: bytes, off: nat): (n: nat)
    ensures n < TWO16
  {
    var room := (|buf| - off) % TWO32;
    if room < 2 then 65534
    else
      var expected := (2 + Read16(buf, off)) % TWO16;
      if room < expected then 65534 else expected
  }

  function SingleSize(buf: bytes, t: nat, off: nat): (n: nat)
    requires t < 16
    ensures n < TWO16
  {
    if t == T_UINT8 || t == T_INT8 then 1
    else if t == T_UINT16 || t == T_INT16 then 2
    else if t == T_UINT32 || t == T_INT32 || t == T_FLOAT then 4
    else if t == T_UINT64 || t == T_INT64 then 8
    else if t == T_STRING || t == T_START_OF_BLOCK || t == T_START_OF_LIST then StringSize(buf, off)
    else 0
  }

  /** Offset of the value of the item under the cursor. */
  function ValueOffset(buf: bytes, pos: nat): nat {
    pos + (1 + SingleSize(buf, KeySubtype(buf, pos), pos + 1)) % TWO16
  }

  /** `deserialize_next`: the step is accumulated in 16 bits. */
  function NextPos(buf: bytes, pos: nat): nat {
    if (|buf| - pos) % TWO32 < 1 then pos
    else
      var value := ValueOffset(buf, pos);
      pos + (value - pos + SingleSize(buf, ValSubtype(buf, pos), value)) % TWO16
  }

  function StringAt(buf: bytes, off: nat): bytes {
    var n := Read16(buf, off);
    seq<byte>(n, i requires 0 <= i < n => At(buf, off + 2 + i))
  }

  function UIntAt(buf: bytes, t: nat, off: nat): nat {
    if t == T_UINT32 then Read32(buf, off) else if t == T_UINT16 then Read16(buf, off) else At(buf, off)
  }

  function IntAt(buf: bytes, t: nat, off: nat): int {
    if t == T_INT32 then Signed(Read32(buf, off), TWO32)
    else if t == T_INT16 then Signed(Read16(buf, off), TWO16)
    else Signed(At(buf, off), TWO8)
  }

  function KeyUInt32(buf: bytes, pos: nat): nat {
    UIntAt(buf, KeySubtype(buf, pos), pos + 1)
  }

  function KeyString(buf: bytes, pos: nat): bytes {
    StringAt(buf, pos + 1)
  }

  function ValueUInt32(buf: bytes, pos: nat): nat {
    UIntAt(buf, ValSubtype(buf, pos), ValueOffset(buf, pos))
  }

  /** The 64-bit readers fall back to the smaller widths. */
  function ValueUInt64(buf: bytes, pos: nat): nat {
    if ValSubtype(buf, pos) == T_UINT64 then Read64(buf, ValueOffset(buf, pos)) else ValueUInt32(buf, pos)
  }

  function ValueInt32(buf: bytes, pos: nat): int {
    IntAt(buf, ValSubtype(buf, pos), ValueOffset(buf, pos))
  }

  function ValueInt64(buf: bytes, pos: nat): int {
    if ValSubtype(buf, pos) == T_INT64 then Signed(Read64(buf, ValueOffset(buf, pos)), TWO64)
    else ValueInt32(buf, pos)
  }

  function ValueFloat(buf: bytes, pos: nat): bytes {
    seq<byte>(4, i requires 0 <= i < 4 => At(buf, ValueOffset(buf, pos) + i))
  }

  function ValueString(buf: bytes, pos: nat): bytes {
    StringAt(buf, ValueOffset(buf, pos))
  }

  datatype Reading = Stop | Unreadable | Got(call: Call)

  /** What a reader that looks at the item type first, as the clone loop does, takes from the cursor. */
  function ReadItem(buf: bytes, pos: nat): Reading {
    var et := ItemType(buf, pos);
    if et == T_UNKNOWN then Stop
    else if et == T_END_OF_RECORD then Got(EndRecord)
    else if et == T_START_OF_BLOCK then Got(StartBlock(KeyString(buf, pos)))
    else if et == T_END_OF_BLOCK then Got(EndBlock)
    else if et == T_START_OF_LIST then Got(StartList(KeyString(buf, pos)))
    else if et == T_END_OF_LIST then Got(EndList)
    else
      var kt := ItemKeyType(buf, pos);
      if kt != T_UINT32 && kt != T_STRING then Unreadable
      else
        var key := if kt == T_UINT32 then NumKey(KeyUInt32(buf, pos)) else StrKey(KeyString(buf, pos));
        if et == T_UINT32 then Got(Put(key, U32(ValueUInt32(buf, pos))))
        else if et == T_UINT64 then Got(Put(key, U64(ValueUInt64(buf, pos))))
        else if et == T_INT32 then Got(Put(key, I32(ValueInt32(buf, pos))))
        else if et == T_INT64 then Got(Put(key, I64(ValueInt64(buf, pos))))
        else if et == T_FLOAT then Got(Put(key, Flt(ValueFloat(buf, pos))))
        else Got(Put(key, Bin(ValueString(buf, pos))))
  }

  // ---- One item ----

  /** A stored item: not a boolean, and in stored form. */
  predicate Stored(c: Call) {
    IsNorm(c) && !(c.Put? && c.val.Bool?)
  }

  lemma StringBack(buf: bytes, off: nat, s: bytes)
    requires |s| < TWO16 && |buf| < TWO32 && Holds(buf, off, StrBody(s))
    ensures StringAt(buf, off) == s
    ensures StringSize(buf, off) == (2 + |s|) % TWO16
  {
    HoldsSplit(buf, off, Word16(|s|), s);
    Read16Back(buf, off, |s|);
    forall i | 0 <= i < |s| ensures At(buf, off + 2 + i) == s[i] {
      HoldsAt(buf, off + 2, s, i);
    }
  }

  lemma UIntBack(buf: bytes, off: nat, n: nat)
    requires n < TWO32 && Holds(buf, off, UIntBody(n))
    ensures UIntAt(buf, UIntTag(n), off) == n
  {
    if n <= 0xff {
      HoldsAt(buf, off, Word8(n), 0);
    } else if n <= 0xffff {
      Read16Back(buf, off, n);
    } else {
      Read32Back(buf, off, n);
    }
  }

  lemma IntBack(buf: bytes, off: nat, i: int)
    requires -TWO31 <= i < TWO31 && Holds(buf, off, ValBody(I32(i)))
    ensures IntAt(buf, ValTag(I32(i)), off) == i
  {
    if -128 <= i <= 127 {
      HoldsAt(buf, off, Word8(Unsigned(i, TWO8)), 0);
      SignedBack8(i);
    } else if -32768 <= i <= 32767 {
      Read16Back(buf, off, Unsigned(i, TWO16));
      SignedBack16(i);
    } else {
      Read32Back(buf, off, Unsigned(i, TWO32));
      SignedBack32(i);
    }
  }

  lemma KeyBack(buf: bytes, pos: nat, k: Key)
    requires ValidKey(k) && |buf| < TWO32 && Holds(buf, pos + 1, KeyBody(k))
    requires KeySubtype(buf, pos) == KeyTag(k)
    ensures k.NumKey? ==> ItemKeyType(buf, pos) == T_UINT32 && KeyUInt32(buf, pos) == k.n
    ensures k.StrKey? ==> ItemKeyType(buf, pos) == T_STRING && KeyString(buf, pos) == k.s
    ensures SingleSize(buf, KeyTag(k), pos + 1) == |KeyBody(k)| % TWO16
  {
    match k {
      case NumKey(n) => UIntBack(buf, pos + 1, n);
      case StrKey(s) => StringBack(buf, pos + 1, s);
    }
  }

  lemma ValSizeBack(buf: bytes, off: nat, v: Val)
    requires ValidVal(v) && !v.Bool? && |buf| < TWO32 && Holds(buf, off, ValBody(v))
    ensures SingleSize(buf, ValTag(v), off) == |ValBody(v)| % TWO16
  {
    if v.Bin? {
      StringBack(buf, off, v.s);
    }
  }

  lemma ValBack(buf: bytes, pos: nat, v: Val)
    requires ValidVal(v) && !v.Bool? && |buf| < TWO32
    requires ValSubtype(buf, pos) == ValTag(v) && Holds(buf, ValueOffset(buf, pos), ValBody(v))
    ensures v.U32? ==> ValueUInt32(buf, pos) == ValueUInt64(buf, pos) == v.n
    ensures v.U64? ==> ValueUInt64(buf, pos) == v.n
    ensures v.I32? ==> ValueInt32(buf, pos) == ValueInt64(buf, pos) == v.i
    ensures v.I64? ==> ValueInt64(buf, pos) == v.i
    ensures v.Flt? ==> ValueFloat(buf, pos) == v.raw
    ensures v.Bin? ==> ValueString(buf, pos) == v.s
  {
    var off := ValueOffset(buf, pos);
    match v {
      case U32(n) => UIntBack(buf, off, n);
      case U64(n) => Read64Back(buf, off, n);
      case I32(i) => IntBack(buf, off, i);
      case I64(i) => Read64Back(buf, off, Unsigned(i, TWO64)); SignedBack64(i);
      case Flt(raw) =>
        forall k | 0 <= k < 4 ensures At(buf, off + k) == raw[k] {
          HoldsAt(buf, off, raw, k);
        }
      case Bin(s) => StringBack(buf, off, s);
    }
  }

  /** Where the parts of a key/value item lie. */
  lemma PutLayout(buf: bytes, pos: nat, k: Key, v: Val)
    requires ValidKey(k) && ValidVal(v) && !v.Bool? && Holds(buf, pos, Item(Put(k, v)))
    ensures KeySubtype(buf, pos) == KeyTag(k) && ValSubtype(buf, pos) == ValTag(v)
    ensures Holds(buf, pos + 1, KeyBody(k)) && Holds(buf, pos + 1 + |KeyBody(k)|, ValBody(v))
  {
    var head: bytes := [KeyTag(k) * 16 + ValTag(v)];
    HoldsSplit(buf, pos, head + KeyBody(k), ValBody(v));
    HoldsSplit(buf, pos, head, KeyBody(k));
    HoldsAt(buf, pos, head, 0);
  }

  lemma NamedLayout(buf: bytes, pos: nat, tag: byte, s: bytes)
    requires tag == T_START_OF_BLOCK || tag == T_START_OF_LIST
    requires |s| < TWO16 && |buf| < TWO32 && Holds(buf, pos, [tag] + StrBody(s))
    ensures KeySubtype(buf, pos) == T_UNKNOWN && ValSubtype(buf, pos) == tag
    ensures KeyString(buf, pos) == s
    ensures SingleSize(buf, tag, pos + 1) == (2 + |s|) % TWO16
  {
    HoldsSplit(buf, pos, [tag], StrBody(s));
    HoldsAt(buf, pos, [tag], 0);
    StringBack(buf, pos + 1, s);
  }

  lemma AddModulo(a: nat, b: nat)
    ensures (a + b % TWO16) % TWO16 == (a + b) % TWO16
  {
  }

  lemma OffsetOfValue(buf: bytes, pos: nat, k: Key)
    requires ValidKey(k) && |buf| < TWO32 && Holds(buf, pos + 1, KeyBody(k))
    requires KeySubtype(buf, pos) == KeyTag(k)
    ensures ValueOffset(buf, pos) == pos + (1 + |KeyBody(k)|) % TWO16
  {
    KeyBack(buf, pos, k);
    AddModulo(1, |KeyBody(k)|);
  }

  /** The cursor arithmetic once the two sizes are known. */
  lemma NextStep(buf: bytes, pos: nat, value: nat, size: nat)
    requires pos < |buf| < TWO32 && value == ValueOffset(buf, pos)
    requires SingleSize(buf, ValSubtype(buf, pos), value) == size % TWO16
    ensures NextPos(buf, pos) == pos + (value - pos + size) % TWO16
  {
    AddModulo(value - pos, size);
  }

  /** A key so long that the value is looked for in the wrong place. */
  predicate LongKey(k: Key)
    requires ValidKey(k)
  {
    |KeyBody(k)| >= TWO16 - 1
  }

  lemma NextOfShortKey(buf: bytes, pos: nat, k: Key, v: Val)
    requires ValidKey(k) && ValidVal(v) && !v.Bool? && |buf| < TWO32 && Holds(buf, pos, Item(Put(k, v)))
    requires !LongKey(k)
    ensures NextPos(buf, pos) == pos + (1 + |KeyBody(k)| + |ValBody(v)|) % TWO16
  {
    PutLayout(buf, pos, k, v);
    ValueBehindKey(buf, pos, k);
    var value := pos + 1 + |KeyBody(k)|;
    ValSizeBack(buf, value, v);
    NextStep(buf, pos, value, |ValBody(v)|);
  }

  lemma NextOfPut(buf: bytes, pos: nat, k: Key, v: Val)
    requires ValidKey(k) && ValidVal(v) && !v.Bool? && |buf| < TWO32 && Holds(buf, pos, Item(Put(k, v)))
    requires !LongKey(k) || !v.Bin?
    ensures NextPos(buf, pos) == pos + (1 + |KeyBody(k)| + |ValBody(v)|) % TWO16
  {
    if LongKey(k) {
      PutLayout(buf, pos, k, v);
      OffsetOfValue(buf, pos, k);
      NextOfFixed(buf, pos, k, v);
    } else {
      NextOfShortKey(buf, pos, k, v);
    }
  }

  /** The size of a number does not depend on where it is looked for. */
  lemma NextOfFixed(buf: bytes, pos: nat, k: Key, v: Val)
    requires ValidKey(k) && ValidVal(v) && !v.Bool? && !v.Bin? && pos < |buf| < TWO32
    requires ValSubtype(buf, pos) == ValTag(v) && ValueOffset(buf, pos) == pos + (1 + |KeyBody(k)|) % TWO16
    ensures NextPos(buf, pos) == pos + (1 + |KeyBody(k)| + |ValBody(v)|) % TWO16
  {
    AddModulo(|ValBody(v)|, 1 + |KeyBody(k)|);
  }

  /** How far the cursor moves when both key and value are strings and the key has 65533 bytes or more. */
  function LostStride(s: bytes): (r: nat)
    requires TWO16 - 3 <= |s| < TWO16
  {
    if |s| == TWO16 - 3 then 48129 else if |s| == TWO16 - 2 then 1 else (65284 + s[0]) % TWO16
  }

  lemma NextOfLongKey(buf: bytes, pos: nat, s: bytes, v: bytes)
    requires ValidCall(Put(StrKey(s), Bin(v))) && TWO16 - 3 <= |s| && |buf| < TWO32
    requires Holds(buf, pos, Item(Put(StrKey(s), Bin(v))))
    ensures NextPos(buf, pos) == pos + LostStride(s)
  {
    var k := StrKey(s);
    PutLayout(buf, pos, k, Bin(v));
    OffsetOfValue(buf, pos, k);
    HoldsSplit(buf, pos + 1, Word16(|s|), s);
    Read16Back(buf, pos + 1, |s|);
    HoldsAt(buf, pos + 1, Word16(|s|), 0);
    HoldsAt(buf, pos + 1, Word16(|s|), 1);
    HoldsAt(buf, pos + 3, s, 0);
    assert buf[pos] == KeySubtype(buf, pos) * 16 + ValSubtype(buf, pos) == 187;
    LongKeyStep(buf, pos, s);
  }

  lemma LongKeyStep(buf: bytes, pos: nat, s: bytes)
    requires TWO16 - 3 <= |s| < TWO16 && |buf| < TWO32 && pos + 4 + |s| <= |buf|
    requires buf[pos] == 187 && buf[pos + 1] == 255 && buf[pos + 2] == |s| - 65280 && buf[pos + 3] == s[0]
    requires ValSubtype(buf, pos) == T_STRING && ValueOffset(buf, pos) == pos + (3 + |s|) % TWO16
    ensures NextPos(buf, pos) == pos + LostStride(s)
  {
  }

  lemma NextOfNamed(buf: bytes, pos: nat, tag: byte, s: bytes)
    requires tag == T_START_OF_BLOCK || tag == T_START_OF_LIST
    requires |s| < TWO16 && |buf| < TWO32 && Holds(buf, pos, [tag] + StrBody(s))
    ensures NextPos(buf, pos) == pos + (1 + 2 + |s|) % TWO16
  {
    NamedLayout(buf, pos, tag, s);
    NextStep(buf, pos, pos + 1, 2 + |s|);
  }

  lemma ValueBehindKey(buf: bytes, pos: nat, k: Key)
    requires ValidKey(k) && |buf| < TWO32 && Holds(buf, pos + 1, KeyBody(k))
    requires KeySubtype(buf, pos) == KeyTag(k) && !LongKey(k)
    ensures ValueOffset(buf, pos) == pos + 1 + |KeyBody(k)|
  {
    OffsetOfValue(buf, pos, k);
  }

  lemma ReadPut(buf: bytes, pos: nat, k: Key, v: Val)
    requires ValidKey(k) && ValidVal(v) && !v.Bool? && |buf| < TWO32 && Holds(buf, pos, Item(Put(k, v)))
    requires !LongKey(k)
    ensures ReadItem(buf, pos) == Got(Put(k, v))
  {
    PutLayout(buf, pos, k, v);
    KeyBack(buf, pos, k);
    ValueBehindKey(buf, pos, k);
    ValBack(buf, pos, v);
  }

  /** A reader placed on a stored item of at most 65535 bytes sees that item. */
  lemma ReadBack(buf: bytes, pos: nat, c: Call)
    requires Stored(c) && |Item(c)| < TWO16 && |buf| < TWO32 && Holds(buf, pos, Item(c))
    ensures ReadItem(buf, pos) == Got(c)
  {
    match c {
      case Put(k, v) => ReadPut(buf, pos, k, v);
      case StartList(s) => NamedLayout(buf, pos, T_START_OF_LIST, s);
      case StartBlock(s) => NamedLayout(buf, pos, T_START_OF_BLOCK, s);
      case _ => HoldsAt(buf, pos, Item(c), 0);
    }
  }

  /** How far the cursor moves from a stored item: its size modulo 2^16, but for long string keys of strings. */
  function Stride(c: Call): nat
    requires Stored(c)
  {
    if c.Put? && LongKey(c.key) && c.val.Bin? then LostStride(c.key.s) else |Item(c)| % TWO16
  }

  lemma NextModulo(buf: bytes, pos: nat, c: Call)
    requires Stored(c) && |buf| < TWO32 && Holds(buf, pos, Item(c))
    ensures NextPos(buf, pos) == pos + Stride(c)
  {
    match c {
      case Put(k, v) =>
        if LongKey(k) && v.Bin? {
          NextOfLongKey(buf, pos, k.s, v.s);
        } else {
          NextOfPut(buf, pos, k, v);
        }
      case StartList(s) => NextOfNamed(buf, pos, T_START_OF_LIST, s);
      case StartBlock(s) => NextOfNamed(buf, pos, T_START_OF_BLOCK, s);
      case _ => HoldsAt(buf, pos, Item(c), 0);
    }
  }

  /** The items from which the cursor does not move. */
  predicate Still(c: Call)
    requires Stored(c)
  {
    if c.Put? && LongKey(c.key) && c.val.Bin? then |c.key.s| == TWO16 - 1 && c.key.s[0] == 252
    else |Item(c)| % TWO16 == 0
  }

  lemma StillExactly(c: Call)
    requires Stored(c)
    ensures Stride(c) == 0 <==> Still(c)
  {
  }

  /** The cursor stays where it is, and a reader loop never ends, exactly at such items. */
  lemma CursorStays(buf: bytes, pos: nat, c: Call)
    requires Stored(c) && |buf| < TWO32 && Holds(buf, pos, Item(c))
    ensures NextPos(buf, pos) == pos <==> Still(c)
  {
    NextModulo(buf, pos, c);
    StillExactly(c);
  }

  const ENDLESS: Call := Put(NumKey(0), Bin(seq<byte>(65532, _ => 0)))

  /** One such item: a reader sees it again and again. */
  lemma EndlessExample(buf: bytes, pos: nat)
    requires |buf| < TWO32 && Holds(buf, pos, Item(ENDLESS))
    ensures Stored(ENDLESS) && |Item(ENDLESS)| == TWO16
    ensures ReadItem(buf, pos) == Got(ENDLESS) && NextPos(buf, pos) == pos
  {
    ReadPut(buf, pos, ENDLESS.key, ENDLESS.val);
    CursorStays(buf, pos, ENDLESS);
  }

  lemma KeyFits(k: Key, v: Val)
    requires ValidKey(k) && ValidVal(v) && !v.Bool? && |Item(Put(k, v))| < TWO16
    ensures !LongKey(k)
  {
    assert |ValBody(v)| >= 1;
  }

  lemma StepIsShort(buf: bytes, pos: nat)
    ensures NextPos(buf, pos) < pos + TWO16
  {
  }

  lemma StrideOfShort(c: Call)
    requires Stored(c) && |Item(c)| < TWO16
    ensures Stride(c) == |Item(c)|
  {
    if c.Put? {
      KeyFits(c.key, c.val);
    }
  }

  lemma NextOfShort(buf: bytes, pos: nat, c: Call)
    requires Stored(c) && |buf| < TWO32 && Holds(buf, pos, Item(c)) && |Item(c)| < TWO16
    ensures NextPos(buf, pos) == pos + |Item(c)|
  {
    StrideOfShort(c);
    NextModulo(buf, pos, c);
  }

  /** ... so the cursor lands on the next item exactly when the item fits 65535 bytes. */
  lemma NextLands(buf: bytes, pos: nat, c: Call)
    requires Stored(c) && |buf| < TWO32 && Holds(buf, pos, Item(c))
    ensures NextPos(buf, pos) == pos + |Item(c)| <==> |Item(c)| < TWO16
  {
    if |Item(c)| < TWO16 {
      NextOfShort(buf, pos, c);
    } else {
      StepIsShort(buf, pos);
    }
  }

  /** Both facts for an item the reader can size. */
  lemma ReadAndStep(buf: bytes, pos: nat, c: Call)
    requires Stored(c) && |Item(c)| < TWO16 && |buf| < TWO32 && Holds(buf, pos, Item(c))
    ensures ReadItem(buf, pos) == Got(c) && NextPos(buf, pos) == pos + |Item(c)|
  {
    ReadBack(buf, pos, c);
    NextLands(buf, pos, c);
  }

  // ---- Whole buffers ----

  /** Every item fits the 16-bit size arithmetic of the reader, and none is a boolean. */
  ghost predicate AllReadable(cs: seq<Call>) {
    AllValid(cs) &&
    forall i :: 0 <= i < |cs| ==> |Encode(cs[i])| < TWO16 && !(cs[i].Put? && cs[i].val.Bool?)
  }

  function NormAll(cs: seq<Call>): (r: seq<Call>)
    requires AllValid(cs)
    ensures |r| == |cs|
    ensures forall i :: 0 <= i < |cs| ==> r[i] == Norm(cs[i])
  {
    seq(|cs|, i requires 0 <= i < |cs| => Norm(cs[i]))
  }

  /** Offset of the i-th item in a buffer. */
  function Offset(cs: seq<Call>, i: nat): nat
    requires AllValid(cs) && i <= |cs|
  {
    |HEADER| + |EncodeAll(cs[..i])|
  }

  lemma OffsetOfFirst(cs: seq<Call>)
    requires AllValid(cs)
    ensures Offset(cs, 0) == |HEADER|
  {
    assert EncodeEach(cs[..0]) == [];
  }

  lemma NextOffset(cs: seq<Call>, i: nat)
    requires AllValid(cs) && i < |cs|
    ensures Offset(cs, i + 1) == Offset(cs, i) + |Encode(cs[i])|
  {
    EncodeAllLast(cs[..i + 1]);
    assert cs[..i + 1][..i] == cs[..i];
  }

  lemma ItemInPlace(cs: seq<Call>, i: nat)
    requires AllValid(cs) && i < |cs|
    ensures Holds(HEADER + EncodeAll(cs), Offset(cs, i), Item(Norm(cs[i])))
    ensures Offset(cs, i + 1) == Offset(cs, i) + |Item(Norm(cs[i]))|
  {
    NextOffset(cs, i);
    var parts := EncodeEach(cs);
    PartInPlace(parts, i);
    assert parts[..i] == EncodeEach(cs[..i]);
    HoldsSuffix(HEADER, EncodeAll(cs), |EncodeAll(cs[..i])|, Encode(cs[i]));
  }

  /**
   Round trip. For any run of calls whose items fit 65535 bytes: the cursor on the i-th item sees
   the stored form of the i-th call and steps onto the item after it, and behind the last item it
   is exactly at the end of the buffer, where the reader stops.
   */
  lemma RoundTrip(cs: seq<Call>, i: nat)
    requires AllReadable(cs) && i <= |cs| && |HEADER + EncodeAll(cs)| < TWO32
    ensures var buf := HEADER + EncodeAll(cs);
            if i < |cs| then
              ReadItem(buf, Offset(cs, i)) == Got(Norm(cs[i])) && NextPos(buf, Offset(cs, i)) == Offset(cs, i + 1)
            else
              ReadItem(buf, Offset(cs, i)) == Stop && Offset(cs, i) == |buf|
  {
    var buf := HEADER + EncodeAll(cs);
    if i < |cs| {
      ItemInPlace(cs, i);
      NormIdempotent(cs[i]);
      ReadAndStep(buf, Offset(cs, i), Norm(cs[i]));
    } else {
      assert cs[..i] == cs;
    }
  }

  /** At the `i`-th place the cursor sees the `i`-th call and steps to the next place. */
  ghost predicate LandsAt(buf: bytes, places: seq<nat>, calls: seq<Call>, i: nat)
    requires |places| == |calls| + 1 && i < |calls|
  {
    ReadItem(buf, places[i]) == Got(calls[i]) && NextPos(buf, places[i]) == places[i + 1]
  }

  /** The places the cursor visits: it sees `calls` in turn, then stops at the end of the buffer. */
  ghost predicate OnTrack(buf: bytes, places: seq<nat>, calls: seq<Call>) {
    |places| == |calls| + 1 && places[0] == |HEADER| && places[|calls|] == |buf|
    && forall i :: 0 <= i < |calls| ==> LandsAt(buf, places, calls, i)
  }

  lemma StopsAtEnd(buf: bytes)
    ensures ReadItem(buf, |buf|) == Stop
  {
  }

  lemma Track(buf: bytes, cs: seq<Call>) returns (places: seq<nat>)
    requires AllReadable(cs) && buf == HEADER + EncodeAll(cs) && |buf| < TWO32
    ensures OnTrack(buf, places, NormAll(cs))
  {
    places := seq(|cs| + 1, i requires 0 <= i <= |cs| => Offset(cs, i));
    OffsetOfFirst(cs);
    RoundTrip(cs, |cs|);
    forall i | 0 <= i < |cs|
      ensures LandsAt(buf, places, NormAll(cs), i)
    {
      RoundTrip(cs, i);
    }
  }

  /** The reader loop: look at the item under the cursor, then step, until the end. */
  method ReadTrack(buf: bytes, ghost places: seq<nat>, ghost calls: seq<Call>) returns (out: seq<Call>)
    requires OnTrack(buf, places, calls)
    ensures out == calls
  {
    out := [];
    var pos := |HEADER|;
    ghost var i := 0;
    StopsAtEnd(buf);
    assert calls == [] || LandsAt(buf, places, calls, 0);
    var item := ReadItem(buf, pos);
    while item.Got?
      invariant i <= |calls| && pos == places[i]
      invariant item == if i < |calls| then Got(calls[i]) else Stop
      invariant out == calls[..i]
      decreases |calls| - i
    {
      assert LandsAt(buf, places, calls, i);
      assert i + 1 < |calls| ==> LandsAt(buf, places, calls, i + 1);
      out := out + [item.call];
      pos := NextPos(buf, pos);
      item := ReadItem(buf, pos);
      i := i + 1;
    }
  }

  /** Read from a buffer made by the writers, the calls come back in stored form. */
  method ReadAll(buf: bytes, ghost cs: seq<Call>) returns (out: seq<Call>)
    requires AllReadable(cs) && buf == HEADER + EncodeAll(cs) && |buf| < TWO32
    ensures out == NormAll(cs)
  {
    ghost var places := Track(buf, cs);
    out := ReadTrack(buf, places, NormAll(cs));
  }

  // ---- Which calls come back as written ----

  /** A value as the caller means it: numbers keep their signedness and may change their width. */
  predicate SameValue(w: Val, v: Val) {
    w == v
    || ((w.U32? || w.U64?) && (v.U32? || v.U64?) && Meaning(w) == Meaning(v))
    || ((w.I32? || w.I64?) && (v.I32? || v.I64?) && Meaning(w) == Meaning(v))
  }

  /** The reader has seen the call, with its key and a value that means the same. */
  predicate SeesCall(r: Reading, c: Call) {
    r.Got? &&
    if c.Put? then r.call.Put? && r.call.key == c.key && SameValue(r.call.val, c.val) else r.call == c
  }

  /** Wherever the bytes of the call stand, a reader placed on them sees the call. */
  ghost predicate Faithful(c: Call)
    requires ValidCall(c)
  {
    forall buf: bytes, pos: nat :: |buf| < TWO32 && Holds(buf, pos, Encode(c)) ==> SeesCall(ReadItem(buf, pos), c)
  }

  /** The offset, from its first byte, at which the value of an item is looked for. */
  function LookedFor(k: Key): nat
    requires ValidKey(k)
  {
    (1 + |KeyBody(k)|) % TWO16
  }

  predicate Survives(c: Call)
    requires ValidCall(c)
  {
    c.Put? ==>
      !c.val.Bool? && !(c.key.StrKey? && IsNumber(c.key.s)) && !(c.val.I64? && TWO31 <= c.val.i < TWO32)
      && (LongKey(c.key) ==> BytesAt(Encode(c), LookedFor(c.key), ValBody(NormVal(c.val))))
  }

  /** `Holds`, for a caller to test. */
  predicate BytesAt(s: bytes, i: nat, part: bytes)
    ensures BytesAt(s, i, part) <==> Holds(s, i, part)
  {
    i + |part| <= |s| && s[i..i + |part|] == part
  }

  /** What a reader takes for the value of an item of this type. */
  function ValueAs(buf: bytes, off: nat, v: Val): (w: Val)
    requires !v.Bool?
    ensures v.I32? ==> w.I32? && -TWO31 <= w.i < TWO31
  {
    match v
    case U32(_) => U32(UIntAt(buf, ValTag(v), off))
    case U64(_) => U64(Read64(buf, off))
    case I32(_) => I32(IntAt(buf, ValTag(v), off))
    case I64(_) => I64(Signed(Read64(buf, off), TWO64))
    case Flt(_) => Flt(seq<byte>(4, i requires 0 <= i < 4 => At(buf, off + i)))
    case Bin(_) => Bin(StringAt(buf, off))
  }

  lemma ReadTyped(buf: bytes, pos: nat, k: Key, v: Val, off: nat)
    requires !v.Bool? && ValSubtype(buf, pos) == ValTag(v) && ValueOffset(buf, pos) == off
    requires k.NumKey? ==> ItemKeyType(buf, pos) == T_UINT32 && KeyUInt32(buf, pos) == k.n
    requires k.StrKey? ==> ItemKeyType(buf, pos) == T_STRING && KeyString(buf, pos) == k.s
    ensures ReadItem(buf, pos) == Got(Put(k, ValueAs(buf, off, v)))
  {
  }

  lemma ReadAs(buf: bytes, pos: nat, k: Key, v: Val)
    requires ValidKey(k) && ValidVal(v) && !v.Bool? && |buf| < TWO32 && Holds(buf, pos, Item(Put(k, v)))
    ensures ReadItem(buf, pos) == Got(Put(k, ValueAs(buf, pos + LookedFor(k), v)))
  {
    PutLayout(buf, pos, k, v);
    KeyBack(buf, pos, k);
    OffsetOfValue(buf, pos, k);
    ReadTyped(buf, pos, k, v, pos + LookedFor(k));
  }

  lemma UIntLaid(buf: bytes, off: nat, n: nat)
    requires n < TWO32 && off + |UIntBody(n)| <= |buf|
    ensures UIntAt(buf, UIntTag(n), off) == n <==> Holds(buf, off, UIntBody(n))
  {
    if Holds(buf, off, UIntBody(n)) {
      UIntBack(buf, off, n);
    } else if n <= 0xff {
      assert buf[off..off + 1] == [buf[off]];
    } else if n <= 0xffff {
      Laid16(buf, off);
    } else {
      Laid32(buf, off);
    }
  }

  lemma IntLaid(buf: bytes, off: nat, i: int)
    requires -TWO31 <= i < TWO31 && off + |ValBody(I32(i))| <= |buf|
    ensures IntAt(buf, ValTag(I32(i)), off) == i <==> Holds(buf, off, ValBody(I32(i)))
  {
    if Holds(buf, off, ValBody(I32(i))) {
      IntBack(buf, off, i);
    } else if IntAt(buf, ValTag(I32(i)), off) == i {
      PatternLaid(buf, off, i);
    }
  }

  lemma PatternLaid(buf: bytes, off: nat, i: int)
    requires -TWO31 <= i < TWO31 && off + |ValBody(I32(i))| <= |buf|
    requires IntAt(buf, ValTag(I32(i)), off) == i
    ensures Holds(buf, off, ValBody(I32(i)))
  {
    if -128 <= i <= 127 {
      PatternOf(buf[off], TWO8);
      assert buf[off..off + 1] == [buf[off]];
    } else if -32768 <= i <= 32767 {
      PatternOf(Read16(buf, off), TWO16);
      Laid16(buf, off);
    } else {
      PatternOf(Read32(buf, off), TWO32);
      Laid32(buf, off);
    }
  }

  lemma Stretch(buf: bytes, off: nat, s: bytes)
    requires off + |s| <= |buf| && forall i :: 0 <= i < |s| ==> At(buf, off + i) == s[i]
    ensures Holds(buf, off, s)
  {
    forall i | 0 <= i < |s|
      ensures buf[off..off + |s|][i] == s[i]
    {
      assert At(buf, off + i) == s[i];
    }
  }

  lemma StringLaid(buf: bytes, off: nat, s: bytes)
    requires |s| < TWO16 && |buf| < TWO32 && off + 2 + |s| <= |buf|
    ensures StringAt(buf, off) == s <==> Holds(buf, off, StrBody(s))
  {
    if Holds(buf, off, StrBody(s)) {
      StringBack(buf, off, s);
    } else if StringAt(buf, off) == s {
      Laid16(buf, off);
      Stretch(buf, off + 2, s);
      HoldsJoin(buf, off, Word16(|s|), s);
    }
  }

  lemma FloatLaid(buf: bytes, off: nat, raw: bytes)
    requires |raw| == 4 && off + 4 <= |buf|
    ensures seq<byte>(4, i requires 0 <= i < 4 => At(buf, off + i)) == raw <==> Holds(buf, off, raw)
  {
    if Holds(buf, off, raw) {
      forall i | 0 <= i < 4
        ensures At(buf, off + i) == raw[i]
      {
        HoldsAt(buf, off, raw, i);
      }
    } else if seq<byte>(4, i requires 0 <= i < 4 => At(buf, off + i)) == raw {
      Stretch(buf, off, raw);
    }
  }

  /** A value is read exactly where its bytes stand. */
  lemma ValueLaid(buf: bytes, off: nat, v: Val)
    requires ValidVal(v) && !v.Bool? && |buf| < TWO32 && off + |ValBody(v)| <= |buf|
    ensures ValueAs(buf, off, v) == v <==> Holds(buf, off, ValBody(v))
  {
    match v {
      case U32(n) => UIntLaid(buf, off, n);
      case I32(i) => IntLaid(buf, off, i);
      case U64(n) =>
        Laid64(buf, off);
        if Holds(buf, off, ValBody(v)) {
          Read64Back(buf, off, n);
        }
      case I64(i) =>
        Laid64(buf, off);
        SignedBack64(i);
        PatternOf(Read64(buf, off), TWO64);
        if Holds(buf, off, ValBody(v)) {
          Read64Back(buf, off, Unsigned(i, TWO64));
        }
      case Flt(raw) => FloatLaid(buf, off, raw);
      case Bin(s) => StringLaid(buf, off, s);
    }
  }

  lemma SameAsRead(buf: bytes, off: nat, v: Val)
    requires ValidVal(v) && !v.Bool?
    ensures var r := ValueAs(buf, off, NormVal(v));
            SameValue(r, v) <==> r == NormVal(v) && !(v.I64? && TWO31 <= v.i < TWO32)
  {
  }

  lemma LookedForAt(k: Key)
    requires ValidKey(k)
    ensures LookedFor(k) == 1 + |KeyBody(k)| - (if LongKey(k) then TWO16 else 0)
  {
  }

  lemma FoundAt(buf: bytes, pos: nat, item: bytes, off: nat, v: Val)
    requires ValidVal(v) && !v.Bool? && |buf| < TWO32 && Holds(buf, pos, item) && off + |ValBody(v)| <= |item|
    ensures ValueAs(buf, pos + off, v) == v <==> Holds(item, off, ValBody(v))
  {
    ValueLaid(buf, pos + off, v);
    HoldsWithin(buf, pos, item, off, ValBody(v));
  }

  lemma FoundBehind(buf: bytes, pos: nat, k: Key, v: Val)
    requires ValidKey(k) && ValidVal(v) && !v.Bool? && |buf| < TWO32 && Holds(buf, pos, Item(Put(k, v))) && !LongKey(k)
    ensures ValueAs(buf, pos + LookedFor(k), v) == v
  {
    PutLayout(buf, pos, k, v);
    LookedForAt(k);
    ValueLaid(buf, pos + 1 + |KeyBody(k)|, v);
  }

  lemma FoundInside(buf: bytes, pos: nat, k: Key, v: Val)
    requires ValidKey(k) && ValidVal(v) && !v.Bool? && |buf| < TWO32 && Holds(buf, pos, Item(Put(k, v))) && LongKey(k)
    ensures ValueAs(buf, pos + LookedFor(k), v) == v <==> Holds(Item(Put(k, v)), LookedFor(k), ValBody(v))
  {
    LookedForAt(k);
    ItemSize(k, v);
    FoundAt(buf, pos, Item(Put(k, v)), LookedFor(k), v);
  }

  /** A value is found exactly if its bytes stand where they are looked for; behind a shorter key they do. */
  lemma ValueFound(buf: bytes, pos: nat, k: Key, v: Val)
    requires ValidKey(k) && ValidVal(v) && !v.Bool? && |buf| < TWO32 && Holds(buf, pos, Item(Put(k, v)))
    ensures ValueAs(buf, pos + LookedFor(k), v) == v <==>
            (LongKey(k) ==> Holds(Item(Put(k, v)), LookedFor(k), ValBody(v)))
  {
    if LongKey(k) {
      FoundInside(buf, pos, k, v);
    } else {
      FoundBehind(buf, pos, k, v);
    }
  }

  lemma ItemSize(k: Key, v: Val)
    requires ValidKey(k) && ValidVal(v) && !v.Bool?
    ensures |Item(Put(k, v))| == 1 + |KeyBody(k)| + |ValBody(v)| < TWO32
  {
  }

  lemma SurvivesAs(k: Key, v: Val)
    requires ValidKey(k) && ValidVal(v) && !v.Bool?
    ensures Survives(Put(k, v)) <==>
            NormKey(k) == k && !(v.I64? && TWO31 <= v.i < TWO32)
            && (LongKey(k) ==> Holds(Item(Put(k, NormVal(v))), LookedFor(k), ValBody(NormVal(v))))
  {
  }

  lemma SeenExactly(buf: bytes, pos: nat, k: Key, v: Val)
    requires ValidKey(k) && ValidVal(v) && !v.Bool? && |buf| < TWO32 && Holds(buf, pos, Encode(Put(k, v)))
    ensures SeesCall(ReadItem(buf, pos), Put(k, v)) <==> Survives(Put(k, v))
  {
    SurvivesAs(k, v);
    ReadAs(buf, pos, NormKey(k), NormVal(v));
    if NormKey(k) == k {
      SeenSameKey(buf, pos, k, v);
    }
  }

  lemma SeenSameKey(buf: bytes, pos: nat, k: Key, v: Val)
    requires ValidKey(k) && ValidVal(v) && !v.Bool? && |buf| < TWO32 && Holds(buf, pos, Item(Put(k, NormVal(v))))
    ensures SameValue(ValueAs(buf, pos + LookedFor(k), NormVal(v)), v) <==>
            !(v.I64? && TWO31 <= v.i < TWO32)
            && (LongKey(k) ==> Holds(Item(Put(k, NormVal(v))), LookedFor(k), ValBody(NormVal(v))))
  {
    ValueFound(buf, pos, k, NormVal(v));
    SameAsRead(buf, pos + LookedFor(k), v);
  }

  lemma PutFaithful(k: Key, v: Val)
    requires ValidKey(k) && ValidVal(v) && !v.Bool?
    ensures Faithful(Put(k, v)) <==> Survives(Put(k, v))
  {
    var c := Put(k, v);
    forall buf: bytes, pos: nat | |buf| < TWO32 && Holds(buf, pos, Encode(c))
      ensures SeesCall(ReadItem(buf, pos), c) <==> Survives(c)
    {
      SeenExactly(buf, pos, k, v);
    }
    ItemSize(NormKey(k), NormVal(v));
    assert Holds(Encode(c), 0, Encode(c));
  }

  /**
   Exactly which calls come back as written, wherever they stand: the value is no boolean, the string
   key has a non-digit, the value is no signed one in [2^31, 2^32), and behind a key of 65533 bytes or
   more the value happens to stand also at the start of the item, where it is looked for.
   */
  lemma FaithfulExactly(c: Call)
    requires ValidCall(c)
    ensures Faithful(c) <==> Survives(c)
  {
    match c {
      case Put(k, v) =>
        if v.Bool? {
          assert Holds([], 0, Encode(c)) && ReadItem([], 0) == Stop;
        } else {
          PutFaithful(k, v);
        }
      case _ =>
        forall buf: bytes, pos: nat | |buf| < TWO32 && Holds(buf, pos, Encode(c))
          ensures SeesCall(ReadItem(buf, pos), c)
        {
          ReadOther(buf, pos, c);
        }
    }
  }

  lemma ReadOther(buf: bytes, pos: nat, c: Call)
    requires ValidCall(c) && !c.Put? && |buf| < TWO32 && Holds(buf, pos, Encode(c))
    ensures ReadItem(buf, pos) == Got(c)
  {
    match c {
      case StartList(s) => NamedLayout(buf, pos, T_START_OF_LIST, s);
      case StartBlock(s) => NamedLayout(buf, pos, T_START_OF_BLOCK, s);
      case EndList => HoldsAt(buf, pos, Item(c), 0);
      case EndBlock => HoldsAt(buf, pos, Item(c), 0);
      case EndRecord => HoldsAt(buf, pos, Item(c), 0);
    }
  }

  /** The key "7" comes back as the number 7. */
  lemma DigitKeyExample(buf: bytes, pos: nat, v: Val)
    requires ValidVal(v) && !v.Bool? && |buf| < TWO32 && Holds(buf, pos, Encode(Put(StrKey([55]), v)))
    ensures ReadItem(buf, pos) == Got(Put(NumKey(7), NormVal(v))) && !Faithful(Put(StrKey([55]), v))
  {
    assert [55][..0] == [] && Atoi([55]) == 7;
    ReadPut(buf, pos, NumKey(7), NormVal(v));
    FaithfulExactly(Put(StrKey([55]), v));
  }

  /** A boolean leaves nothing to read. */
  lemma BooleanExample(k: Key, b: bool)
    requires ValidKey(k)
    ensures Encode(Put(k, Bool(b))) == [] && ReadItem(HEADER + Encode(Put(k, Bool(b))), |HEADER|) == Stop
  {
  }

  lemma TypeByte(buf: bytes, pos: nat, k: Key, v: Val)
    requires ValidKey(k) && ValidVal(v) && !v.Bool? && Holds(buf, pos, Item(Put(k, v)))
    ensures At(buf, pos) == KeyTag(k) * 16 + ValTag(v)
  {
    HoldsAt(buf, pos, Item(Put(k, v)), 0);
  }

  /** Behind a key of 65533 bytes the one-byte value 5 comes back as the type byte of the item, 178. */
  lemma LongKeyExample(buf: bytes, pos: nat, s: bytes)
    requires |s| == TWO16 - 3 && !IsNumber(s) && |buf| < TWO32
    requires Holds(buf, pos, Encode(Put(StrKey(s), U32(5))))
    ensures ReadItem(buf, pos) == Got(Put(StrKey(s), U32(178)))
  {
    var k, v := StrKey(s), U32(5);
    assert Encode(Put(k, v)) == Item(Put(k, v));
    LookedForAt(k);
    ReadAs(buf, pos, k, v);
    TypeByte(buf, pos, k, v);
    assert ValueAs(buf, pos, v) == U32(178);
  }

  // ---- Canonical form ----

  /** Writing back what was read writes the same bytes: no narrowing branch is taken a second time. */
  lemma EncodeOfStored(c: Call)
    requires ValidCall(c)
    ensures Encode(Norm(c)) == Encode(c)
  {
    NormIdempotent(c);
  }

  lemma CanonicalEncoding(cs: seq<Call>)
    requires AllValid(cs)
    ensures AllValid(NormAll(cs)) && EncodeAll(NormAll(cs)) == EncodeAll(cs)
  {
    forall i | 0 <= i < |cs| ensures Encode(Norm(cs[i])) == Encode(cs[i]) {
      EncodeOfStored(cs[i]);
    }
    assert EncodeEach(NormAll(cs)) == EncodeEach(cs);
  }
}
