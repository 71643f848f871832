/**
 What each writer asks the buffer for before it writes, how the buffer grows, and exactly which
 calls write more than they asked for.
 */
module Reservations {
  import opened Bytes
  import opened Calls
  import opened JsonText
  import opened Documents
  import Tlv

  const BUFFER_INCR := 1024

  /** What a writer asks for (`needed`). */
  function Reservation(fmt: Format, c: Call): nat {
    var json := fmt.JSON?;
    match c
    case Put(key, v) =>
      (match NormKey(key)
       case NumKey(_) =>
         (match v
          case U32(_) => 9 + (if json then 24 else 0)
          case I32(_) => 9 + (if json then 24 else 0)
          case U64(_) => 13 + (if json then 32 else 0)
          case I64(_) => 13 + (if json then 32 else 0)
          case Flt(_) => 9
          case Bin(s) => 7 + |s| + (if json then 24 + |s| else 0)
          case Bool(_) => 24)
       case StrKey(k) =>
         (match v
          case U32(_) => |k| + 43
          case I32(_) => 7 + |k| + (if json then 16 + |k| else 0)
          case U64(_) => 11 + |k| + (if json then 32 + |k| else 0)
          case I64(_) => 7 + |k| + (if json then 16 + |k| else 0)
          case Flt(_) => 7 + |k|
          case Bin(s) => 5 + |k| + |s| + (if json then 16 + |k| + |s| else 0)
          case Bool(_) => |k| + 16))
    case StartList(name) => 16 + |name|
    case StartBlock(name) => 16 + |name|
    case EndList => 0
    case EndBlock => 4
    case EndRecord => if json then 2 else 1
  }

  // ---- The size of the buffer ----

  /** `ndpi_extend_serializer_buffer`: at least `minLen` more bytes, rounded up past a multiple of four. */
  function Extended(size: nat, minLen: nat, initial: nat): (r: nat)
    ensures r >= size + minLen
  {
    var more :=
      if minLen >= BUFFER_INCR then minLen
      else if initial >= BUFFER_INCR then BUFFER_INCR
      else if minLen < initial then initial
      else minLen;
    ((size + more) / 4 + 1) * 4
  }

  /** The buffer grows to the next multiple of four above what is asked for, or above the initial size or
      1024 more, whichever is less, where that is larger. */
  lemma ExtendedExactly(size: nat, minLen: nat, initial: nat)
    ensures var step := if initial < 1024 then initial else 1024;
            var least := size + (if minLen > step then minLen else step);
            Extended(size, minLen, initial) % 4 == 0 && least < Extended(size, minLen, initial) <= least + 4
  {
  }

  /** The size once `needed` bytes were asked for behind `used`. */
  function Reserved(size: nat, used: nat, needed: nat, initial: nat): (r: nat)
    ensures r >= size && r >= used + needed
  {
    if used + needed > size then Extended(size, used + needed - size, initial) else size
  }

  /** The size after a call; the compact path of the 64-bit writers asks twice, a refused boolean not at all. */
  function NextCapacity(fmt: Format, used: nat, size: nat, c: Call, initial: nat): (r: nat)
    requires ValidCall(c)
    ensures r >= size
  {
    if fmt.TLV? && c.Put? && c.val.Bool? then size
    else
      var first := Reserved(size, used, Reservation(fmt, c), initial);
      if fmt.TLV? && c.Put? && NormVal(c.val) != c.val
      then Reserved(first, used, Reservation(fmt, Put(c.key, NormVal(c.val))), initial)
      else first
  }

  /** In TLV a 64-bit value in [0, 2^32) asks for the room of its own writer and then for that of the 32-bit one, which
      under a string key is the larger for unsigned values; all other calls ask once. */
  lemma CapacityExactly(used: nat, size: nat, key: Key, v: Val, initial: nat)
    requires ValidCall(Put(key, v)) && !v.Bool?
    ensures var own := Reserved(size, used, Reservation(TLV, Put(key, v)), initial);
            NextCapacity(TLV, used, size, Put(key, v), initial) ==
            if v.U64? && v.n < TWO32 then Reserved(own, used, Reservation(TLV, Put(key, U32(v.n))), initial)
            else if v.I64? && 0 <= v.i < TWO32 then Reserved(own, used, Reservation(TLV, Put(key, I32(0))), initial)
            else own
  {
  }

  /** The text after the call fits the buffer as it is then. */
  predicate Fits(fmt: Format, d: Doc, c: Call, sc: bool, size: nat, initial: nat)
    requires !fmt.CSV? && Accepts(fmt, c)
  {
    |Step(fmt, d, c, sc).text| <= NextCapacity(fmt, |d.text|, size, c, initial)
  }

  // ---- Lengths ----

  function Pow10(k: nat): (r: nat)
    ensures r > 0
  {
    if k == 0 then 1 else 10 * Pow10(k - 1)
  }

  lemma Tens()
    ensures Pow10(10) == 10000000000
    ensures Pow10(18) == 1000000000000000000 && Pow10(19) == 10000000000000000000 && Pow10(20) == 100000000000000000000
  {
  }

  lemma {:induction false} DecimalLength(n: nat, k: nat)
    requires k > 0 && n < Pow10(k)
    ensures |Decimal(n)| <= k
  {
    if n >= 10 {
      DecimalLength(n / 10, k - 1);
    }
  }

  lemma {:induction false} DecimalAtLeast(n: nat, k: nat)
    requires n >= Pow10(k)
    ensures |Decimal(n)| >= k + 1
  {
    if k > 0 {
      DecimalAtLeast(n / 10, k - 1);
    }
  }

  lemma ValTextLength(v: Val, sc: bool)
    requires ValidVal(v) && !v.Flt? && !v.Bin?
    ensures |ValText(v, sc)| <= if v.U64? || v.I64? then 20 else 11
  {
    Tens();
    match v {
      case U32(n) => DecimalLength(n, 10);
      case U64(n) => DecimalLength(n, 20);
      case I32(i) => DecimalLength(if i < 0 then -i else i, 10);
      case I64(i) => DecimalLength(if i < 0 then -i else i, 19);
      case Bool(b) =>
    }
  }

  lemma NameLength(n: nat, sc: bool)
    requires n < TWO32
    ensures |KeyText(NumKey(n), sc)| <= 13
  {
    Tens();
    DecimalLength(n, 10);
  }

  lemma {:induction false} EscapeAtMostDoubles(s: bytes, sc: bool)
    ensures |EscapeBody(s, sc)| <= 2 * |s|
  {
    if s != [] {
      EscapeAtMostDoubles(s[..|s| - 1], sc);
    }
  }

  // ---- The most a call can add ----

  function TextOf(c: Call, sc: bool): bytes
    requires Spellable(c)
  {
    match c
    case Put(k, v) => KeyText(NormKey(k), sc) + ValText(v, sc)
    case StartList(name) => OpenText(name, LBRACKET, sc)
    case StartBlock(name) => OpenText(name, LBRACE, sc)
    case _ => []
  }

  /** The most one call can add to the buffer, whatever is in it. */
  function Growth(fmt: Format, c: Call, sc: bool): nat
    requires !fmt.CSV? && Accepts(fmt, c)
  {
    if fmt.TLV? then |Tlv.Encode(c)|
    else
      match c
      case Put(_, _) => |TextOf(c, sc)| + 3
      case EndList => 0
      case EndBlock => 3
      case EndRecord => 1
      case _ => |TextOf(c, sc)| + 4
  }

  lemma PutGrowth(d: Doc, k: Key, v: Val, sc: bool)
    requires Spellable(Put(k, v)) && Roomy(JSON, |d.text|, d.flags)
    ensures |StepJson(d, Put(k, v), sc).text| <= |d.text| + |KeyText(NormKey(k), sc)| + |ValText(v, sc)| + 3
  {
    assert |KeyText(NormKey(k), sc)| >= 3;
  }

  lemma OpenGrowth(d: Doc, c: Call, sc: bool)
    requires Spellable(c) && (c.StartList? || c.StartBlock?) && Roomy(JSON, |d.text|, d.flags)
    ensures |StepJson(d, c, sc).text| <= |d.text| + |TextOf(c, sc)| + 4
  {
  }

  lemma StepGrowth(fmt: Format, d: Doc, c: Call, sc: bool)
    requires !fmt.CSV? && Accepts(fmt, c) && Roomy(fmt, |d.text|, d.flags)
    ensures |Step(fmt, d, c, sc).text| <= |d.text| + Growth(fmt, c, sc)
  {
    if fmt.JSON? {
      match c {
        case Put(k, v) => PutGrowth(d, k, v, sc);
        case StartList(_) => OpenGrowth(d, c, sc);
        case StartBlock(_) => OpenGrowth(d, c, sc);
        case _ =>
      }
    }
  }

  /** The calls after which a given call adds the most: none, an end of record, or one over an open list. */
  function Before(fmt: Format, c: Call): seq<Call> {
    if fmt.TLV? || c.EndList? || c.EndRecord? then []
    else if c.StartBlock? || c.EndBlock? then [StartList([]), EndRecord]
    else [EndRecord]
  }

  lemma RunOneMore(fmt: Format, d: Doc, cs: seq<Call>, c: Call, sc: bool)
    requires !fmt.CSV? && AllAccepted(fmt, cs) && Accepts(fmt, c)
    ensures AllAccepted(fmt, cs + [c]) && Run(fmt, d, cs + [c], sc) == Step(fmt, Run(fmt, d, cs, sc), c, sc)
  {
    assert (cs + [c])[..|cs|] == cs;
  }

  /** At a record boundary; over an open list for the calls that add most there. */
  lemma BoundaryGrowth(d: Doc, c: Call, sc: bool)
    requires Spellable(c) && !c.EndList? && !c.EndRecord? && Roomy(JSON, |d.text|, d.flags)
    requires d.flags.eor && d.flags.inArray && (d.flags.list <==> c.StartBlock? || c.EndBlock?)
    ensures |StepJson(d, c, sc).text| == |d.text| + Growth(JSON, c, sc)
  {
  }

  lemma RecordEnds(d: Doc, sc: bool)
    requires Roomy(JSON, |d.text|, d.flags)
    ensures var e := StepJson(d, EndRecord, sc);
            Roomy(JSON, |e.text|, e.flags) && e.flags.eor && e.flags.inArray && e.flags.list == d.flags.list
  {
    StepJsonGrows(d, EndRecord, sc);
  }

  lemma PlainBoundary(sc: bool) returns (d: Doc)
    ensures AllAccepted(JSON, [EndRecord]) && d == Run(JSON, Empty(JSON), [EndRecord], sc)
    ensures Roomy(JSON, |d.text|, d.flags) && d.flags.eor && d.flags.inArray && !d.flags.list
  {
    var e := Empty(JSON);
    assert Run(JSON, e, [], sc) == e;
    RunOneMore(JSON, e, [], EndRecord, sc);
    assert [] + [EndRecord] == [EndRecord];
    RecordEnds(e, sc);
    d := StepJson(e, EndRecord, sc);
  }

  lemma ListBoundary(sc: bool) returns (d: Doc)
    ensures AllAccepted(JSON, [StartList([]), EndRecord]) && d == Run(JSON, Empty(JSON), [StartList([]), EndRecord], sc)
    ensures Roomy(JSON, |d.text|, d.flags) && d.flags.eor && d.flags.inArray && d.flags.list
  {
    var e := Empty(JSON);
    assert Run(JSON, e, [], sc) == e;
    RunOneMore(JSON, e, [], StartList([]), sc);
    assert [] + [StartList([])] == [StartList([])];
    StepJsonGrows(e, StartList([]), sc);
    var l := StepJson(e, StartList([]), sc);
    assert l.flags.list;
    RunOneMore(JSON, e, [StartList([])], EndRecord, sc);
    assert [StartList([])] + [EndRecord] == [StartList([]), EndRecord];
    RecordEnds(l, sc);
    d := StepJson(l, EndRecord, sc);
  }

  /** The bound is reached: by every call, in some document. */
  lemma GrowthReached(fmt: Format, c: Call, sc: bool) returns (d: Doc)
    requires !fmt.CSV? && Accepts(fmt, c)
    ensures AllAccepted(fmt, Before(fmt, c)) && d == Run(fmt, Empty(fmt), Before(fmt, c), sc)
    ensures Roomy(fmt, |d.text|, d.flags) && |Step(fmt, d, c, sc).text| == |d.text| + Growth(fmt, c, sc)
  {
    if fmt.TLV? || c.EndList? || c.EndRecord? {
      d := Empty(fmt);
      assert Run(fmt, d, [], sc) == d;
    } else {
      if c.StartBlock? || c.EndBlock? {
        d := ListBoundary(sc);
      } else {
        d := PlainBoundary(sc);
      }
      BoundaryGrowth(d, c, sc);
    }
  }

  // ---- Which calls reserve what they write ----

  predicate SelfReserving(fmt: Format, c: Call, sc: bool)
    requires !fmt.CSV? && Accepts(fmt, c)
  {
    Growth(fmt, c, sc) <= Reservation(fmt, c)
  }

  /** A call fits every buffer, at whatever size, exactly if it reserves the most it can add. */
  lemma SelfReservingExactly(fmt: Format, c: Call, sc: bool)
    requires !fmt.CSV? && Accepts(fmt, c)
    ensures SelfReserving(fmt, c, sc) <==>
            forall d: Doc, size: nat, initial: nat ::
              Roomy(fmt, |d.text|, d.flags) && |d.text| <= size && 0 < initial <= size ==> Fits(fmt, d, c, sc, size, initial)
  {
    if SelfReserving(fmt, c, sc) {
      forall d: Doc, size: nat, initial: nat | Roomy(fmt, |d.text|, d.flags) && |d.text| <= size && 0 < initial <= size
        ensures Fits(fmt, d, c, sc, size, initial)
      {
        SelfReservingFits(fmt, d, c, sc, size, initial);
      }
    } else {
      var d := GrowthReached(fmt, c, sc);
      var size := |d.text| + Reservation(fmt, c);
      Overrun(fmt, d, c, sc, size, size);
      assert !Fits(fmt, d, c, sc, size, size);
    }
  }

  lemma SelfReservingFits(fmt: Format, d: Doc, c: Call, sc: bool, size: nat, initial: nat)
    requires !fmt.CSV? && Accepts(fmt, c) && Roomy(fmt, |d.text|, d.flags) && |d.text| <= size
    requires SelfReserving(fmt, c, sc)
    ensures Fits(fmt, d, c, sc, size, initial)
  {
    StepGrowth(fmt, d, c, sc);
  }

  /** In a buffer with just the room asked for, a call that adds more overruns it. */
  lemma Overrun(fmt: Format, d: Doc, c: Call, sc: bool, size: nat, initial: nat)
    requires !fmt.CSV? && Accepts(fmt, c) && !SelfReserving(fmt, c, sc) && size == |d.text| + Reservation(fmt, c)
    requires |Step(fmt, d, c, sc).text| == |d.text| + Growth(fmt, c, sc)
    ensures !Fits(fmt, d, c, sc, size, initial)
  {
    if fmt.TLV? {
      TlvReservations(c, sc);
    }
  }

  /** In TLV exactly two calls write more than they reserve. */
  lemma TlvReservations(c: Call, sc: bool)
    requires ValidCall(c)
    ensures !SelfReserving(TLV, c, sc) <==>
            c.EndList? || (c.Put? && NormKey(c.key).StrKey? && c.val.I64? && !(0 <= c.val.i < TWO32))
  {
  }

  /** The longest item of the same writer with strings of the same lengths. */
  function Longest(c: Call): Call
    requires c.Put? && !c.val.Bool?
  {
    var k := if NormKey(c.key).NumKey? then NumKey(TWO32 - 1) else c.key;
    match c.val
    case U32(_) => Put(k, U32(TWO32 - 1))
    case U64(_) => Put(k, U64(TWO64 - 1))
    case I32(_) => Put(k, I32(-TWO31))
    case I64(_) => Put(k, I64(-TWO63))
    case v => Put(k, v)
  }

  /** In TLV the writers of numbers, floats and strings ask for the longest item they can write, but for three:
      under a string key, unsigned 32-bit numbers ask for 36 bytes more, and signed 64-bit ones for four less.
      The others ask for a fixed number of bytes, or for 16 more than a name. */
  lemma TlvReservationsAre(c: Call)
    requires ValidCall(c)
    ensures c.Put? && !c.val.Bool? ==>
              Reservation(TLV, c) == |Tlv.Encode(Longest(c))| + (if NormKey(c.key).NumKey? then 0 else if c.val.U32? then 36 else if c.val.I64? then -4 else 0)
    ensures c.StartList? || c.StartBlock? ==> Reservation(TLV, c) == 16 + |c.name|
    ensures Reservation(TLV, EndList) == 0 && Reservation(TLV, EndBlock) == 4 && Reservation(TLV, EndRecord) == 1
  {
  }

  /** What the writers ask for in JSON beyond that. */
  lemma JsonReservationsAre(key: Key, v: Val)
    requires ValidCall(Put(key, v)) && !v.Bool? && !v.Flt?
    ensures var more := Reservation(JSON, Put(key, v)) - Reservation(TLV, Put(key, v));
            match NormKey(key)
            case NumKey(_) => more == (if v.Bin? then 24 + |v.s| else if v.U64? || v.I64? then 32 else 24)
            case StrKey(k) => more == (if v.Bin? then 16 + |k| + |v.s| else if v.U32? then 0 else if v.U64? then 32 + |k| else 16 + |k|)
    ensures Reservation(JSON, Put(key, Bool(true))) == if NormKey(key).NumKey? then 24 else 16 + |key.s|
    ensures Reservation(JSON, EndRecord) == 2
  {
  }

  /** The condition in JSON, from the lengths of the escaped name and of the printed value. */
  predicate JsonReserves(c: Call, sc: bool) {
    match c
    case Put(key, v) =>
      (match NormKey(key)
       case NumKey(_) => true
       case StrKey(k) =>
         (match v
          case U32(n) => |EscapeBody(k, sc)| + |Decimal(n)| <= |k| + 37
          case I64(i) => |EscapeBody(k, sc)| + |IntText(i)| <= 2 * |k| + 17
          case Bool(b) => |EscapeBody(k, sc)| + (if b then 4 else 5) <= |k| + 10
          case _ => true))
    case StartList(name) => |EscapeBody(name, sc)| <= |name| + 7
    case StartBlock(name) => |EscapeBody(name, sc)| <= |name| + 7
    case _ => true
  }

  lemma NumberNamesReserve(n: nat, v: Val, sc: bool)
    requires Spellable(Put(NumKey(n), v))
    ensures SelfReserving(JSON, Put(NumKey(n), v), sc)
  {
    NameLength(n, sc);
    if v.Bin? {
      EscapeAtMostDoubles(v.s, sc);
    } else {
      ValTextLength(v, sc);
    }
  }

  lemma StringNamesReserve(k: bytes, v: Val, sc: bool)
    requires Spellable(Put(StrKey(k), v)) && !IsNumber(k)
    ensures SelfReserving(JSON, Put(StrKey(k), v), sc) <==> JsonReserves(Put(StrKey(k), v), sc)
  {
    EscapeAtMostDoubles(k, sc);
    if v.Bin? {
      EscapeAtMostDoubles(v.s, sc);
    } else {
      ValTextLength(v, sc);
    }
  }

  /** In JSON, writer by writer: the others always reserve enough. */
  lemma JsonReservations(c: Call, sc: bool)
    requires Spellable(c)
    ensures SelfReserving(JSON, c, sc) <==> JsonReserves(c, sc)
  {
    if c.Put? {
      match NormKey(c.key) {
        case NumKey(n) =>
          NumberNamesReserve(n, c.val, sc);
          assert Growth(JSON, Put(NumKey(n), c.val), sc) == Growth(JSON, c, sc);
        case StrKey(k) => StringNamesReserve(k, c.val, sc);
      }
    }
  }

  lemma LowestInt64()
    ensures |IntText(-TWO63)| == 20
  {
    Tens();
    DecimalAtLeast(TWO63, 18);
    DecimalLength(TWO63, 19);
  }

  lemma PlainLetter(sc: bool)
    ensures |EscapeBody(LETTER, sc)| == 1 && !IsNumber(LETTER)
  {
    assert LETTER[..0] == [];
    assert EscapeBody(LETTER, sc) == EscapeBody([], sc) + EscapeByte(97, sc);
    assert !IsDigit(LETTER[0]);
  }

  lemma Int64Sizes(k: bytes, i: int, sc: bool)
    requires |k| < TWO16 && !IsNumber(k) && ValidVal(I64(i))
    ensures var c := Put(StrKey(k), I64(i));
            Spellable(c) && Reservation(JSON, c) == 23 + 2 * |k|
            && Growth(JSON, c, sc) == |EscapeBody(k, sc)| + |IntText(i)| + 6
            && (JsonReserves(c, sc) <==> Growth(JSON, c, sc) <= Reservation(JSON, c))
  {
  }

  const LETTER: bytes := [97]

  /** The lowest 64-bit number under the name `a`, which needs no escaping: 27 bytes against 25 reserved. */
  lemma Int64Overruns(sc: bool)
    ensures var c := Put(StrKey(LETTER), I64(-TWO63));
            Spellable(c) && Reservation(JSON, c) == 25 && Growth(JSON, c, sc) == 27 && !JsonReserves(c, sc)
  {
    LowestInt64();
    PlainLetter(sc);
    Int64Sizes(LETTER, -TWO63, sc);
  }

  function Quotes(n: nat): (s: bytes)
    ensures |s| == n
  {
    if n == 0 then [] else Quotes(n - 1) + [QUOTE]
  }

  lemma {:induction false} QuotesDouble(n: nat, sc: bool)
    ensures |EscapeBody(Quotes(n), sc)| == 2 * n
  {
    if n > 0 {
      QuotesDouble(n - 1, sc);
      assert Quotes(n)[..n - 1] == Quotes(n - 1);
    }
  }

  /** A list named by eight quotes: 25 bytes against 24 reserved. */
  lemma EscapedNameOverruns(sc: bool)
    ensures var c := StartList(Quotes(8));
            Spellable(c) && Reservation(JSON, c) == 24 && Growth(JSON, c, sc) == 25 && !JsonReserves(c, sc)
  {
    QuotesDouble(8, sc);
  }

  /** A string value leaves a byte to spare behind the text, where its terminator goes. */
  lemma StringsLeaveRoom(k: Key, s: bytes, sc: bool)
    requires Spellable(Put(k, Bin(s)))
    ensures Growth(JSON, Put(k, Bin(s)), sc) + 1 <= Reservation(JSON, Put(k, Bin(s)))
  {
    EscapeAtMostDoubles(s, sc);
    match NormKey(k) {
      case NumKey(n) => NameLength(n, sc);
      case StrKey(name) => EscapeAtMostDoubles(name, sc);
    }
  }
}
