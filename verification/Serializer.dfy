/**
 The serializer itself: one growable byte array edited in place. Every public method performs
 one step of Documents.Step on the used bytes and the flags, and never writes outside the array.
 */
module SerializerBuffer {
  import opened Bytes
  import opened Calls
  import opened JsonText
  import opened Documents
  import opened Reservations
  import Tlv

  class Serializer {
    const fmt: Format
    const sc: bool
    const initialSize: nat
    var data: array<byte>
    var used: nat
    var flags: Flags
    var hasSnapshot: bool
    var snapshot: Snapshot

    ghost predicate Valid()
      reads this
    {
      && !fmt.CSV?
      && used <= data.Length
      && Roomy(fmt, used, flags)
      && (hasSnapshot ==> snapshot.used <= data.Length && Roomy(fmt, snapshot.used, snapshot.flags))
    }

    ghost function Image(): Doc
      reads this, data
      requires used <= data.Length
    {
      Doc(data[..used], [], flags)
    }

    constructor (fmt: Format, sc: bool, size: nat)
      requires !fmt.CSV? && size >= if fmt.JSON? then 4 else 2
      ensures Valid() && fresh(data)
      ensures this.fmt == fmt && this.sc == sc && data.Length == size == initialSize && !hasSnapshot
      ensures Image() == Empty(fmt)
    {
      this.fmt := fmt;
      this.sc := sc;
      initialSize := size;
      flags := NO_FLAGS;
      hasSnapshot := false;
      snapshot := Snapshot(0, 0, NO_FLAGS);
      data := new byte[size](_ => 0);
      used := if fmt.JSON? then 3 else 2;
      new;
      if fmt.JSON? {
        data[0], data[1], data[2], data[3] := SPACE, LBRACE, RBRACE, 0;
      } else {
        data[0], data[1] := 1, 1;
      }
    }

    /** `ndpi_extend_serializer_buffer`. */
    method Extend(minLen: nat)
      modifies this`data
      ensures fresh(data) && data.Length == Extended(old(data.Length), minLen, initialSize)
      ensures data[..old(data.Length)] == old(data[..])
    {
      var more := minLen;
      if more < BUFFER_INCR {
        if initialSize < BUFFER_INCR {
          if more < initialSize { more := initialSize; }
        } else {
          more := BUFFER_INCR;
        }
      }
      var size := ((data.Length + more) / 4 + 1) * 4;
      var grown := new byte[size](_ => 0);
      forall i | 0 <= i < data.Length {
        grown[i] := data[i];
      }
      data := grown;
    }

    method Reserve(needed: nat)
      requires Valid()
      modifies this`data
      ensures Valid() && (data == old(data) || fresh(data))
      ensures data.Length == Reserved(old(data.Length), used, needed, initialSize)
      ensures data[..used] == old(data[..used])
    {
      var room := data.Length - used;
      if room < needed {
        Extend(needed - room);
        assert data[..used] == data[..old(data.Length)][..used];
      }
    }

    method PutByte(b: byte)
      requires used < data.Length
      modifies this`used, data
      ensures used == old(used) + 1
      ensures data[..used] == old(data[..used]) + [b]
    {
      data[used] := b;
      used := used + 1;
    }

    /** `memcpy` to the end of the used bytes. */
    method PutAll(s: bytes)
      requires used + |s| <= data.Length
      modifies this`used, data
      ensures used == old(used) + |s|
      ensures data[..used] == old(data[..used]) + s
    {
      for i := 0 to |s|
        invariant used == old(used) + i
        invariant data[..used] == old(data[..used]) + s[..i]
      {
        PutByte(s[i]);
      }
      assert s[..|s|] == s;
    }

    /** `snprintf` into `room` bytes: the text, and a terminator behind it that is not counted. */
    method Format(s: bytes, room: nat)
      requires |s| < room && used + |s| < data.Length
      modifies this`used, data
      ensures used == old(used) + |s|
      ensures data[..used] == old(data[..used]) + s
    {
      PutAll(s);
      Terminate(used);
    }

    method Terminate(at: nat)
      requires used <= at < data.Length
      modifies data
      ensures data[..used] == old(data[..used])
    {
      data[at] := 0;
    }

    /**
     `ndpi_json_string_escape` at the end of the used bytes; with enough room its bound never cuts the
     string. The terminator goes one byte behind the place for it.
     */
    method Escape(src: bytes, room: nat)
      requires |Quoted(src, sc)| <= room && used + |Quoted(src, sc)| + 1 < data.Length
      modifies this`used, data
      ensures used == old(used) + |Quoted(src, sc)|
      ensures data[..used] == old(data[..used]) + Quoted(src, sc)
    {
      ghost var before := data[..used];
      ghost var body := [];
      PutByte(QUOTE);
      var i, j := 0, 1;
      while i < |src| && j < room
        invariant i <= |src| && body == EscapeBody(src[..i], sc) && |body| <= |EscapeBody(src, sc)|
        invariant j == 1 + |body| && used == old(used) + j < data.Length
        invariant data[..used] == before + [QUOTE] + body
      {
        EscapePrefix(src, i, sc);
        var e := EscapeByte(src[i], sc);
        EscapeNext(src, i, sc);
        PutAll(e);
        Glue3(before + [QUOTE], body, e);
        body := body + e;
        j := j + |e|;
        i := i + 1;
      }
      assert src[..|src|] == src;
      PutByte(QUOTE);
      Glue4(before, [QUOTE], body, [QUOTE]);
      Terminate(used + 1);
    }

    // ---- JSON ----

    method JsonPre()
      requires Valid() && fmt.JSON? && |Pre(Image()).text| <= data.Length
      modifies this`used, this`flags, data
      ensures used <= data.Length && Image() == Pre(old(Image()))
    {
      if flags.eor {
        Reopen();
      } else {
        Uncover();
      }
    }

    /** Behind an end of record: a new record is opened. */
    method Reopen()
      requires Valid() && fmt.JSON? && flags.eor && used + 1 <= data.Length
      modifies this`used, this`flags, data
      ensures used <= data.Length && Image() == Pre(old(Image()))
    {
      ghost var cut := Chop(data[..used], 1);
      used := used - 1;
      flags := flags.(eor := false);
      PutByte(COMMA);
      PutByte(LBRACE);
      Glue3(cut, [COMMA], [LBRACE]);
    }

    /** Inside a record: the closers are taken off, and a comma is put where one is due. */
    method Uncover()
      requires Valid() && fmt.JSON? && !flags.eor
      modifies this`used, this`flags, data
      ensures used <= data.Length && Image() == Pre(old(Image()))
    {
      ghost var cut := Chop(data[..used], TailLength(flags));
      if flags.inArray {
        used := used - 1;
      }
      used := used - 1;
      if flags.list {
        used := used - 1;
        assert data[..used] == cut;
        if flags.sol {
          flags := flags.(sol := false);
        } else {
          PutByte(COMMA);
        }
      } else {
        assert data[..used] == cut;
        if flags.sob {
          flags := flags.(sob := false);
        } else if flags.comma {
          PutByte(COMMA);
        }
      }
    }

    method JsonPost()
      requires used + |Closers(flags)| <= data.Length
      modifies this`used, this`flags, data
      ensures used <= data.Length && Image() == Post(old(Image()))
    {
      ghost var t := data[..used];
      if flags.list {
        PutByte(RBRACKET);
      }
      PutByte(RBRACE);
      if flags.inArray {
        PutByte(RBRACKET);
      }
      flags := flags.(comma := true);
      GlueEmpty(t);
      assert data[..used] == t + Closers(flags);
    }

    /** Key, unless in a list, and value, between `JsonPre` and `JsonPost`. */
    method JsonPut(key: Key, v: Val)
      requires Valid() && fmt.JSON? && Spellable(Put(key, v)) && NormKey(key) == key
      requires data.Length - used >= Reservation(fmt, Put(key, v))
      requires |StepJson(Image(), Put(key, v), sc).text| <= data.Length
      modifies this`used, this`flags, data
      ensures Valid() && Image() == StepJson(old(Image()), Put(key, v), sc)
    {
      ghost var d := Image();
      StepJsonGrows(d, Put(key, v), sc);
      PutRoom(d, key, v, sc, data.Length);
      var room := data.Length - used;
      JsonPre();
      JsonBody(key, v, room);
      flags := flags.(notEmpty := true);
    }

    method JsonBody(key: Key, v: Val, firstRoom: nat)
      requires ValidKey(key) && ValidVal(v) && !v.Flt? && NormKey(key) == key
      requires used + |PutText(key, v, flags.list, sc)| + |Closers(flags)| + Spare(v) <= data.Length
      requires |PutText(key, v, flags.list, sc)| <= firstRoom
      requires (key.NumKey? ==> firstRoom > 13) && (!v.Bin? ==> |ValText(v, sc)| < firstRoom)
      modifies this`used, this`flags, data
      ensures used <= data.Length && Image() == Post(Append(old(Image()), PutText(key, v, old(flags).list, sc)))
    {
      assert |Closers(flags)| >= 1;
      JsonMember(key, v, firstRoom);
      JsonPost();
    }

    method JsonMember(key: Key, v: Val, firstRoom: nat)
      requires ValidKey(key) && ValidVal(v) && !v.Flt? && NormKey(key) == key
      requires used + |PutText(key, v, flags.list, sc)| + Spare(v) < data.Length
      requires |PutText(key, v, flags.list, sc)| <= firstRoom
      requires (key.NumKey? ==> firstRoom > 13) && (!v.Bin? ==> |ValText(v, sc)| < firstRoom)
      modifies this`used, data
      ensures used == old(used) + |PutText(key, v, flags.list, sc)|
      ensures data[..used] == old(data[..used]) + PutText(key, v, flags.list, sc)
    {
      var room := firstRoom;
      ghost var p := data[..used];
      ghost var name := if flags.list then [] else KeyText(key, sc);
      if !flags.list {
        PutName(key, room);
        room := data.Length - used;
      }
      GlueEmpty(p);
      assert data[..used] == p + name;
      PutScalar(v, room);
      Glue3(p, name, ValText(v, sc));
    }

    method PutName(key: Key, room: nat)
      requires ValidKey(key) && used + |KeyText(key, sc)| < data.Length
      requires |KeyText(key, sc)| <= room && (key.NumKey? ==> room > 13)
      modifies this`used, data
      ensures used == old(used) + |KeyText(key, sc)|
      ensures data[..used] == old(data[..used]) + KeyText(key, sc)
    {
      match key
      case NumKey(n) =>
        NameLength(n, sc);
        Format([QUOTE] + Decimal(n) + [QUOTE, COLON], room);
      case StrKey(s) =>
        ghost var t := data[..used];
        Escape(s, room);
        PutByte(COLON);
        Glue3(t, Quoted(s, sc), [COLON]);
    }

    method PutScalar(v: Val, room: nat)
      requires ValidVal(v) && !v.Flt? && used + |ValText(v, sc)| + Spare(v) < data.Length
      requires if v.Bin? then |ValText(v, sc)| <= room else |ValText(v, sc)| < room
      modifies this`used, data
      ensures used == old(used) + |ValText(v, sc)|
      ensures data[..used] == old(data[..used]) + ValText(v, sc)
    {
      match v
      case U32(n) => Format(Decimal(n), room);
      case U64(n) => Format(Decimal(n), room);
      case I32(i) => Format(IntText(i), room);
      case I64(i) => Format(IntText(i), room);
      case Bin(s) => Escape(s, room);
      case Bool(b) => Format(if b then TRUE else FALSE, room);
    }

    // ---- TLV ----

    /** `ndpi_serialize_key_uint32` and the value branches of the unsigned writers. */
    method PutUInt(n: nat) returns (tag: nat)
      requires n < TWO32 && used + |Tlv.UIntBody(n)| <= data.Length
      modifies this`used, data
      ensures tag == Tlv.UIntTag(n) && used == old(used) + |Tlv.UIntBody(n)|
      ensures data[..used] == old(data[..used]) + Tlv.UIntBody(n)
    {
      if n <= 0xff {
        PutAll(Word8(n));
        tag := Tlv.T_UINT8;
      } else if n <= 0xffff {
        PutAll(Word16(n));
        tag := Tlv.T_UINT16;
      } else {
        PutAll(Word32(n));
        tag := Tlv.T_UINT32;
      }
    }

    method PutInt(i: int) returns (tag: nat)
      requires ValidVal(I32(i)) && used + |Tlv.ValBody(I32(i))| <= data.Length
      modifies this`used, data
      ensures tag == Tlv.ValTag(I32(i)) && used == old(used) + |Tlv.ValBody(I32(i))|
      ensures data[..used] == old(data[..used]) + Tlv.ValBody(I32(i))
    {
      if i <= 127 && i >= -128 {
        PutAll(Word8(Unsigned(i, TWO8)));
        tag := Tlv.T_INT8;
      } else if i <= 32767 && i >= -32768 {
        PutAll(Word16(Unsigned(i, TWO16)));
        tag := Tlv.T_INT16;
      } else {
        PutAll(Word32(Unsigned(i, TWO32)));
        tag := Tlv.T_INT32;
      }
    }

    /** `ndpi_serialize_single_string`: length, then bytes. */
    method PutString(str: bytes)
      requires |str| < TWO16 && used + 2 + |str| <= data.Length
      modifies this`used, data
      ensures used == old(used) + |Tlv.StrBody(str)|
      ensures data[..used] == old(data[..used]) + Tlv.StrBody(str)
    {
      ghost var t := data[..used];
      PutAll(Word16(|str|));
      PutAll(str);
      Glue3(t, Word16(|str|), str);
    }

    method PutKey(key: Key) returns (tag: nat)
      requires ValidKey(key) && used + |Tlv.KeyBody(key)| <= data.Length
      modifies this`used, data
      ensures tag == Tlv.KeyTag(key) && used == old(used) + |Tlv.KeyBody(key)|
      ensures data[..used] == old(data[..used]) + Tlv.KeyBody(key)
    {
      match key
      case NumKey(n) => tag := PutUInt(n);
      case StrKey(str) => PutString(str); tag := Tlv.T_STRING;
    }

    method PutValue(v: Val) returns (tag: nat)
      requires ValidVal(v) && !v.Bool? && used + |Tlv.ValBody(v)| <= data.Length
      modifies this`used, data
      ensures tag == Tlv.ValTag(v) && used == old(used) + |Tlv.ValBody(v)|
      ensures data[..used] == old(data[..used]) + Tlv.ValBody(v)
    {
      match v
      case U32(n) => tag := PutUInt(n);
      case U64(n) => PutAll(Word64(n)); tag := Tlv.T_UINT64;
      case I32(i) => tag := PutInt(i);
      case I64(i) => PutAll(Word64(Unsigned(i, TWO64))); tag := Tlv.T_INT64;
      case Flt(raw) => PutAll(raw); tag := Tlv.T_FLOAT;
      case Bin(str) => PutString(str); tag := Tlv.T_STRING;
    }

    /** The type byte is skipped, then filled in once key and value have told their types. */
    method TlvPut(key: Key, v: Val)
      requires ValidKey(key) && ValidVal(v) && !v.Bool?
      requires used + 1 + |Tlv.KeyBody(key)| + |Tlv.ValBody(v)| <= data.Length
      modifies this`used, data
      ensures used <= data.Length
      ensures data[..used] == old(data[..used]) + ([Tlv.KeyTag(key) * 16 + Tlv.ValTag(v)] + Tlv.KeyBody(key) + Tlv.ValBody(v))
    {
      ghost var t := data[..used];
      var typeOffset := used;
      used := used + 1;
      ghost var gap := data[typeOffset];
      assert data[..used] == t + [gap];
      var kt := PutKey(key);
      var et := PutValue(v);
      BackPatch(t, gap, kt * 16 + et, Tlv.KeyBody(key), Tlv.ValBody(v));
      Patch(typeOffset, kt * 16 + et);
    }

    method Patch(at: nat, b: byte)
      requires at < used <= data.Length
      modifies data
      ensures data[..used] == old(data[..used])[at := b]
    {
      data[at] := b;
    }

    method TlvNamed(tag: byte, name: bytes)
      requires |name| < TWO16 && used + 3 + |name| <= data.Length
      modifies this`used, data
      ensures used <= data.Length && data[..used] == old(data[..used]) + ([tag] + Tlv.StrBody(name))
    {
      ghost var t := data[..used];
      PutByte(tag);
      PutString(name);
      Glue3(t, [tag], Tlv.StrBody(name));
    }

    // ---- The API ----

    /** The call can be made here: its arguments are legal and its text fits. */
    ghost predicate Ready(c: Call)
      reads this, data
    {
      Valid() && Accepts(fmt, c) && Fits(fmt, Image(), c, sc, data.Length, initialSize)
    }

    /** A value in stored form, written to TLV. */
    method TlvStored(key: Key, v: Val)
      requires Valid() && fmt.TLV? && ValidCall(Put(key, v)) && !v.Bool? && NormKey(key) == key && NormVal(v) == v
      requires |StepTlv(Image(), Put(key, v)).text| <= data.Length
      modifies this`used, this`flags, data
      ensures Valid() && Image() == StepTlv(old(Image()), Put(key, v))
    {
      StepOfStored(Image(), key, v);
      TlvPut(key, v);
      flags := flags.(notEmpty := true);
    }

    /** The writers without a compact path: 32-bit integers, floats, strings and booleans. */
    method Write(key: Key, v: Val)
      requires Ready(Put(key, v)) && !v.U64? && !v.I64?
      modifies this`data, this`used, this`flags, data
      ensures Valid() && (data == old(data) || fresh(data))
      ensures data.Length == NextCapacity(fmt, old(used), old(data.Length), Put(key, v), initialSize)
      ensures Image() == Step(fmt, old(Image()), Put(key, v), sc)
      decreases key.StrKey?
    {
      if !fmt.JSON? && v.Bool? {
        return;
      }
      if key.StrKey? && IsNumber(key.s) {
        StepOfNormKey(fmt, Image(), key, v, sc, data.Length, initialSize);
        Write(NumKey(Atoi(key.s)), v);
        return;
      }
      Reserve(Reservation(fmt, Put(key, v)));
      if fmt.JSON? {
        JsonPut(key, v);
      } else {
        TlvStored(key, v);
      }
    }

    /** `uint32_uint64` and `binary_uint64`: in TLV, what fits 32 bits goes to the 32-bit writer. */
    method WriteUInt64(key: Key, n: nat)
      requires Ready(Put(key, U64(n)))
      modifies this`data, this`used, this`flags, data
      ensures Valid() && (data == old(data) || fresh(data))
      ensures data.Length == NextCapacity(fmt, old(used), old(data.Length), Put(key, U64(n)), initialSize)
      ensures Image() == Step(fmt, old(Image()), Put(key, U64(n)), sc)
      decreases key.StrKey?
    {
      if key.StrKey? && IsNumber(key.s) {
        StepOfNormKey(fmt, Image(), key, U64(n), sc, data.Length, initialSize);
        WriteUInt64(NumKey(Atoi(key.s)), n);
        return;
      }
      Reserve(Reservation(fmt, Put(key, U64(n))));
      if fmt.JSON? {
        JsonPut(key, U64(n));
      } else if n <= 0xffffffff {
        StepOfNormVal(Image(), key, U64(n));
        Write(key, U32(n));
      } else {
        TlvStored(key, U64(n));
      }
    }

    /** `uint32_int64` and `binary_int64`: the test `(value & 0xFFFFFFFF) == value` also lets 2^31 .. 2^32-1 through. */
    method WriteInt64(key: Key, i: int)
      requires Ready(Put(key, I64(i)))
      modifies this`data, this`used, this`flags, data
      ensures Valid() && (data == old(data) || fresh(data))
      ensures data.Length == NextCapacity(fmt, old(used), old(data.Length), Put(key, I64(i)), initialSize)
      ensures Image() == Step(fmt, old(Image()), Put(key, I64(i)), sc)
      decreases key.StrKey?
    {
      if key.StrKey? && IsNumber(key.s) {
        StepOfNormKey(fmt, Image(), key, I64(i), sc, data.Length, initialSize);
        WriteInt64(NumKey(Atoi(key.s)), i);
        return;
      }
      Reserve(Reservation(fmt, Put(key, I64(i))));
      if fmt.JSON? {
        JsonPut(key, I64(i));
      } else {
        NarrowTest(i);
        if i % TWO32 == i {
          StepOfNormVal(Image(), key, I64(i));
          Write(key, I32(Signed(i, TWO32)));
        } else {
          TlvStored(key, I64(i));
        }
      }
    }

    method OpenNamed(name: bytes, bracket: byte)
      requires Valid() && fmt.JSON? && |name| < TWO16
      requires |Pre(Image()).text| + |OpenText(name, bracket, sc)| + |Closers(Pre(Image()).flags)| <= data.Length
      modifies this`used, this`flags, data
      ensures used <= data.Length && Image() == Append(Pre(old(Image())), OpenText(name, bracket, sc))
    {
      PreCloses(Image());
      var room := data.Length - used;
      JsonPre();
      ghost var p := data[..used];
      Escape(name, room);
      Format([COLON, SPACE, bracket], data.Length - used);
      Glue3(p, Quoted(name, sc), [COLON, SPACE, bracket]);
    }

    method JsonStartList(name: bytes)
      requires Valid() && fmt.JSON? && |name| < TWO16
      requires |StepJson(Image(), StartList(name), sc).text| <= data.Length
      modifies this`used, this`flags, data
      ensures Valid() && Image() == StepJson(old(Image()), StartList(name), sc)
    {
      StepJsonGrows(Image(), StartList(name), sc);
      ClosersLength(Pre(Image()).flags);
      OpenNamed(name, LBRACKET);
      flags := flags.(list := true, sol := true);
      JsonPost();
    }

    method JsonStartBlock(name: bytes)
      requires Valid() && fmt.JSON? && |name| < TWO16
      requires |StepJson(Image(), StartBlock(name), sc).text| <= data.Length
      modifies this`used, this`flags, data
      ensures Valid() && Image() == StepJson(old(Image()), StartBlock(name), sc)
    {
      StepJsonGrows(Image(), StartBlock(name), sc);
      OpenNamed(name, LBRACE);
      JsonPost();
      flags := flags.(sob := true);
    }

    method JsonEndBlock()
      requires Valid() && fmt.JSON? && |StepJson(Image(), EndBlock, sc).text| <= data.Length
      modifies this`used, this`flags, data
      ensures Valid() && Image() == StepJson(old(Image()), EndBlock, sc)
    {
      StepJsonGrows(Image(), EndBlock, sc);
      if flags.sob {
        flags := flags.(sob := false);
      }
      JsonPost();
    }

    method JsonEndRecord(room: nat)
      requires Valid() && fmt.JSON? && 1 < room && used + 1 < data.Length
      modifies this`used, this`flags, data
      ensures Valid() && Image() == StepJson(old(Image()), EndRecord, sc)
    {
      if !flags.inArray {
        Patch(0, LBRACKET);
        Format([RBRACKET], room);
      }
      flags := flags.(inArray := true, eor := true);
      flags := flags.(comma := false);
      flags := flags.(notEmpty := false);
    }

    method StartOfList(name: bytes)
      requires Ready(StartList(name))
      modifies this`data, this`used, this`flags, data
      ensures Valid() && (data == old(data) || fresh(data))
      ensures data.Length == NextCapacity(fmt, old(used), old(data.Length), StartList(name), initialSize)
      ensures Image() == Step(fmt, old(Image()), StartList(name), sc)
    {
      Reserve(Reservation(fmt, StartList(name)));
      if fmt.JSON? {
        JsonStartList(name);
      } else {
        TlvNamed(Tlv.T_START_OF_LIST, name);
      }
    }

    /** Nothing is reserved here, although TLV writes a byte. */
    method EndOfList()
      requires Ready(EndList)
      modifies this`data, this`used, this`flags, data
      ensures Valid() && data == old(data)
      ensures Image() == Step(fmt, old(Image()), EndList, sc)
    {
      if fmt.JSON? {
        if flags.sol {
          flags := flags.(sol := false);
        }
        flags := flags.(list := false);
      } else {
        PutByte(Tlv.T_END_OF_LIST);
      }
    }

    method StartOfBlock(name: bytes)
      requires Ready(StartBlock(name))
      modifies this`data, this`used, this`flags, data
      ensures Valid() && (data == old(data) || fresh(data))
      ensures data.Length == NextCapacity(fmt, old(used), old(data.Length), StartBlock(name), initialSize)
      ensures Image() == Step(fmt, old(Image()), StartBlock(name), sc)
    {
      Reserve(Reservation(fmt, StartBlock(name)));
      if fmt.JSON? {
        JsonStartBlock(name);
      } else {
        TlvNamed(Tlv.T_START_OF_BLOCK, name);
      }
    }

    method EndOfBlock()
      requires Ready(EndBlock)
      modifies this`data, this`used, this`flags, data
      ensures Valid() && (data == old(data) || fresh(data))
      ensures data.Length == NextCapacity(fmt, old(used), old(data.Length), EndBlock, initialSize)
      ensures Image() == Step(fmt, old(Image()), EndBlock, sc)
    {
      Reserve(Reservation(fmt, EndBlock));
      if fmt.JSON? {
        JsonEndBlock();
      } else {
        PutByte(Tlv.T_END_OF_BLOCK);
      }
    }

    method EndOfRecord()
      requires Ready(EndRecord)
      modifies this`data, this`used, this`flags, data
      ensures Valid() && (data == old(data) || fresh(data))
      ensures data.Length == NextCapacity(fmt, old(used), old(data.Length), EndRecord, initialSize)
      ensures Image() == Step(fmt, old(Image()), EndRecord, sc)
    {
      Reserve(Reservation(fmt, EndRecord));
      if fmt.JSON? {
        JsonEndRecord(data.Length - used);
      } else {
        PutByte(Tlv.T_END_OF_RECORD);
        flags := flags.(notEmpty := false);
      }
    }

    /** Any call, by its description. */
    method Perform(c: Call)
      requires Ready(c)
      modifies this`data, this`used, this`flags, data
      ensures Valid() && (data == old(data) || fresh(data))
      ensures data.Length == NextCapacity(fmt, old(used), old(data.Length), c, initialSize)
      ensures Image() == Step(fmt, old(Image()), c, sc)
    {
      match c
      case Put(key, v) =>
        if v.U64? {
          WriteUInt64(key, v.n);
        } else if v.I64? {
          WriteInt64(key, v.i);
        } else {
          Write(key, v);
        }
      case StartList(name) => StartOfList(name);
      case EndList => EndOfList();
      case StartBlock(name) => StartOfBlock(name);
      case EndBlock => EndOfBlock();
      case EndRecord => EndOfRecord();
    }

    // ---- Snapshots ----

    method CreateSnapshot()
      requires Valid()
      modifies this`hasSnapshot, this`snapshot
      ensures Valid() && hasSnapshot && snapshot == Take(Image()) && Image() == old(Image())
    {
      snapshot := Snapshot(used, 0, flags);
      hasSnapshot := true;
    }

    method RollbackSnapshot()
      requires Valid() && (hasSnapshot ==> snapshot.used <= used)
      modifies this`used, this`flags, this`hasSnapshot, data
      ensures Valid() && !hasSnapshot
      ensures Image() == if old(hasSnapshot) then Rollback(fmt, old(Image()), snapshot.(headerUsed := 0)) else old(Image())
    {
      if hasSnapshot {
        ghost var t: bytes := data[..snapshot.used];
        assert t == data[..used][..snapshot.used];
        used := snapshot.used;
        flags := snapshot.flags;
        hasSnapshot := false;
        if fmt.JSON? {
          if flags.inArray {
            data[used - 1] := RBRACKET;
            assert data[..used] == t[used - 1 := RBRACKET];
          } else {
            ghost var spaced: bytes := t[0 := SPACE];
            data[0] := SPACE;
            data[used - 1] := RBRACE;
            assert data[..used] == spaced[used - 1 := RBRACE];
          }
        }
      }
    }
  }

  lemma ClosersLength(f: Flags)
    ensures |Closers(f.(list := true, sol := true))| <= |Closers(f)| + 1
  {
  }

  /** A digit key and its number make the same step and reserve the same. */
  lemma StepOfNormKey(fmt: Format, d: Doc, key: Key, v: Val, sc: bool, size: nat, initial: nat)
    requires !fmt.CSV? && Accepts(fmt, Put(key, v))
    ensures Accepts(fmt, Put(NormKey(key), v))
    ensures Step(fmt, d, Put(NormKey(key), v), sc) == Step(fmt, d, Put(key, v), sc)
    ensures NextCapacity(fmt, |d.text|, size, Put(NormKey(key), v), initial)
         == NextCapacity(fmt, |d.text|, size, Put(key, v), initial)
  {
  }

  lemma NarrowTest(i: int)
    ensures i % TWO32 == i <==> 0 <= i < TWO32
  {
  }

  /** The compact path of the 64-bit writers makes the step of the 64-bit call. */
  lemma StepOfNormVal(d: Doc, key: Key, v: Val)
    requires ValidCall(Put(key, v))
    ensures ValidVal(NormVal(v)) && StepTlv(d, Put(key, NormVal(v))) == StepTlv(d, Put(key, v))
  {
  }

  /** The step of a call already in stored form. */
  lemma StepOfStored(d: Doc, key: Key, v: Val)
    requires ValidCall(Put(key, v)) && NormKey(key) == key && NormVal(v) == v && !v.Bool?
    ensures StepTlv(d, Put(key, v)) == d.(text := d.text + Tlv.Item(Put(key, v)), flags := d.flags.(notEmpty := true))
  {
  }

  lemma BackPatch(t: bytes, gap: byte, tag: byte, k: bytes, v: bytes)
    ensures (t + [gap] + k + v)[|t| := tag] == t + ([tag] + k + v)
  {
  }

  /** The terminator behind an escaped string goes one byte further than others do. */
  function Spare(v: Val): nat { if v.Bin? then 1 else 0 }

  /** The room a JSON member or element needs at each of its parts, from the reservation and the final length. */
  lemma PutRoom(d: Doc, key: Key, v: Val, sc: bool, size: nat)
    requires Spellable(Put(key, v)) && NormKey(key) == key && Roomy(JSON, |d.text|, d.flags)
    requires size - |d.text| >= Reservation(JSON, Put(key, v)) && |StepJson(d, Put(key, v), sc).text| <= size
    ensures var p := Pre(d);
            var s := PutText(key, v, p.flags.list, sc);
            && |p.text| + |s| + |Closers(p.flags)| + Spare(v) <= size
            && |s| <= size - |d.text|
            && (key.NumKey? ==> size - |d.text| > 13)
            && (!v.Bin? ==> |ValText(v, sc)| < size - |d.text|)
  {
    PreCloses(d);
    if v.Bin? {
      StringsLeaveRoom(key, v.s, sc);
      StepGrowth(JSON, d, Put(key, v), sc);
    } else {
      ValTextLength(v, sc);
    }
  }

  lemma EscapeNext(src: bytes, i: nat, sc: bool)
    requires i < |src|
    ensures EscapeBody(src[..i + 1], sc) == EscapeBody(src[..i], sc) + EscapeByte(src[i], sc)
  {
    assert src[..i + 1][..i] == src[..i];
  }

  lemma {:induction false} EscapePrefix(src: bytes, i: nat, sc: bool)
    requires i <= |src|
    ensures |EscapeBody(src[..i], sc)| <= |EscapeBody(src, sc)|
    ensures i < |src| ==>
              |EscapeBody(src[..i], sc)| + |EscapeByte(src[i], sc)| <= |EscapeBody(src, sc)|
    decreases |src|
  {
    if i == |src| {
      assert src[..i] == src;
    } else {
      var front := src[..|src| - 1];
      EscapePrefix(front, i, sc);
      assert front[..i] == src[..i];
    }
  }
}
