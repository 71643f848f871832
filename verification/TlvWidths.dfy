/** The bytes of TLV items, pinned down: numbers take the least width there is, and every type has its code. */
module TlvWidths {
  import opened Bytes
  import opened Calls
  import opened Tlv

  /** How many values `w` bytes have. */
  function Patterns(w: nat): nat { if w == 0 then 1 else 256 * Patterns(w - 1) }

  predicate FitsUnsigned(n: int, w: nat) { 0 <= n < Patterns(w) }

  predicate FitsSigned(i: int, w: nat) {
    var m: int := Patterns(w);
    -m <= 2 * i < m
  }

  const WIDTHS := {1, 2, 4, 8}

  ghost predicate LeastUnsigned(w: nat, n: int) {
    w in WIDTHS && FitsUnsigned(n, w) && forall x :: x in WIDTHS && FitsUnsigned(n, x) ==> w <= x
  }

  ghost predicate LeastSigned(w: nat, i: int) {
    w in WIDTHS && FitsSigned(i, w) && forall x :: x in WIDTHS && FitsSigned(i, x) ==> w <= x
  }

  lemma AllPatterns()
    ensures Patterns(1) == 0x100 && Patterns(2) == 0x1_0000 && Patterns(4) == 0x1_0000_0000
    ensures Patterns(8) == 0x1_0000_0000_0000_0000
  {
    assert Patterns(3) == 0x100_0000 && Patterns(4) == 0x1_0000_0000;
    assert Patterns(5) == 0x100_0000_0000 && Patterns(6) == 0x1_0000_0000_0000;
    assert Patterns(7) == 0x100_0000_0000_0000;
  }

  /** A key number, and an unsigned value of either writer, is stored in the least width that holds it. */
  lemma KeyWidth(n: nat)
    requires n < TWO32
    ensures LeastUnsigned(|KeyBody(NumKey(n))|, n)
  {
    AllPatterns();
  }

  lemma UnsignedWidth(v: Val)
    requires ValidVal(v) && (v.U32? || v.U64?)
    ensures LeastUnsigned(|ValBody(NormVal(v))|, Meaning(v))
  {
    AllPatterns();
  }

  lemma Int32Width(i: int)
    requires -TWO31 <= i < TWO31
    ensures LeastSigned(|ValBody(I32(i))|, i)
  {
    AllPatterns();
  }

  /**
   So is a signed one, but for two kinds of values of the 64-bit writer: the negative ones that would
   fit 32 bits take eight bytes, and those in [2^31, 2^32) take fewer than they need.
   */
  lemma SignedWidthExactly(v: Val)
    requires ValidVal(v) && (v.I32? || v.I64?)
    ensures LeastSigned(|ValBody(NormVal(v))|, Meaning(v)) <==> !(v.I64? && (-TWO31 <= v.i < 0 || TWO31 <= v.i < TWO32))
  {
    AllPatterns();
    match v {
      case I32(i) => Int32Width(i);
      case I64(i) =>
        if 0 <= i < TWO31 {
          Int32Width(i);
        } else if TWO31 <= i < TWO32 {
          assert !FitsSigned(i, 1) && !FitsSigned(i, 2) && !FitsSigned(i, 4);
          assert |ValBody(NormVal(v))| != 8;
        } else {
          assert |ValBody(NormVal(v))| == 8;
          assert FitsSigned(i, 4) <==> -TWO31 <= i < 0;
        }
    }
  }

  // ---- One item of each type, byte by byte ----

  lemma NumberItems()
    ensures Encode(Put(NumKey(200), U32(200))) == [0x22, 200, 200]
    ensures Encode(Put(NumKey(0x102), U32(0xfffe))) == [0x33, 1, 2, 0xff, 0xfe]
    ensures Encode(Put(NumKey(0x1020304), U32(0xfffefdfc))) == [0x44, 1, 2, 3, 4, 0xff, 0xfe, 0xfd, 0xfc]
    ensures Encode(Put(NumKey(1), U64(0x102030405060708))) == [0x25, 1, 1, 2, 3, 4, 5, 6, 7, 8]
    ensures Encode(Put(NumKey(1), U64(7))) == [0x22, 1, 7]
  {
  }

  lemma SignedItems()
    ensures Encode(Put(NumKey(1), I32(-128))) == [0x26, 1, 0x80]
    ensures Encode(Put(NumKey(1), I32(-200))) == [0x27, 1, 0xff, 0x38]
    ensures Encode(Put(NumKey(1), I32(-70000))) == [0x28, 1, 0xff, 0xfe, 0xee, 0x90]
  {
  }

  lemma Int64Items()
    ensures Encode(Put(NumKey(1), I64(-2))) == [0x29, 1, 0xff, 0xff, 0xff, 0xff, 0xff, 0xff, 0xff, 0xfe]
    ensures Encode(Put(NumKey(1), I64(300))) == [0x27, 1, 1, 44]
  {
  }

  lemma OtherItems()
    ensures Encode(Put(NumKey(1), Flt([0, 0, 128, 63]))) == [0x2a, 1, 0, 0, 128, 63]
    ensures Encode(Put(StrKey([97, 98]), Bin([99]))) == [0xbb, 0, 2, 97, 98, 0, 1, 99]
    ensures Encode(StartBlock([120])) == [12, 0, 1, 120] && Encode(EndBlock) == [13]
    ensures Encode(StartList([120])) == [14, 0, 1, 120] && Encode(EndList) == [15]
    ensures Encode(EndRecord) == [1] && HEADER == [1, 1]
  {
    assert !IsDigit([97, 98][0]);
  }
}
