/** Bytes and the fixed-width integer layouts the library uses on the wire. */
module Bytes {

  type byte = b: int | 0 <= b < 256
  type bytes = seq<byte>

  const TWO8 := 0x100
  const TWO16 := 0x1_0000
  const TWO31 := 0x8000_0000
  const TWO32 := 0x1_0000_0000
  const TWO63 := 0x8000_0000_0000_0000
  const TWO64 := 0x1_0000_0000_0000_0000

  /** The network-order layouts (htons, htonl and the two-word `ndpi_htonll`). */
  function Word8(n: nat): (s: bytes)
    requires n < TWO8
  {
    [n]
  }

  function Word16(n: nat): (s: bytes)
    requires n < TWO16
    ensures |s| == 2
  {
    [n / 256, n % 256]
  }

  function Word32(n: nat): (s: bytes)
    requires n < TWO32
    ensures |s| == 4
  {
    Word16(n / TWO16) + Word16(n % TWO16)
  }

  function Word64(n: nat): (s: bytes)
    requires n < TWO64
    ensures |s| == 8
  {
    Word32(n / TWO32) + Word32(n % TWO32)
  }

  // Regrouping, stated on plain sequences so that proofs about long texts stay cheap.

  lemma Glue3(a: bytes, b: bytes, c: bytes)
    ensures a + b + c == a + (b + c)
  {
  }

  lemma Glue4(a: bytes, b: bytes, c: bytes, d: bytes)
    ensures a + b + c + d == a + (b + (c + d)) == a + (b + c + d)
  {
  }

  lemma GlueEmpty(a: bytes)
    ensures [] + a == a == a + [] && [] + [] + a == a
  {
  }

  /** A byte of a buffer. What lies past the end belongs to nobody; it is taken as zero. */
  function At(buf: bytes, i: nat): byte {
    if i < |buf| then buf[i] else 0
  }

  function Read16(buf: bytes, i: nat): (n: nat)
    ensures n < TWO16
  {
    At(buf, i) * 256 + At(buf, i + 1)
  }

  function Read32(buf: bytes, i: nat): (n: nat)
    ensures n < TWO32
  {
    Read16(buf, i) * TWO16 + Read16(buf, i + 2)
  }

  function Read64(buf: bytes, i: nat): (n: nat)
    ensures n < TWO64
  {
    Read32(buf, i) * TWO32 + Read32(buf, i + 4)
  }

  /** `part` occurs in `buf` at offset `i`. */
  ghost predicate Holds(buf: bytes, i: nat, part: bytes) {
    i + |part| <= |buf| && buf[i..i + |part|] == part
  }

  lemma HoldsAt(buf: bytes, i: nat, part: bytes, k: nat)
    requires Holds(buf, i, part) && k < |part|
    ensures At(buf, i + k) == part[k]
  {
    assert buf[i..i + |part|][k] == buf[i + k];
  }

  lemma HoldsSplit(buf: bytes, i: nat, a: bytes, b: bytes)
    requires Holds(buf, i, a + b)
    ensures Holds(buf, i, a) && Holds(buf, i + |a|, b)
  {
    var w := buf[i..i + |a + b|];
    assert w[..|a|] == a && w[|a|..] == b;
    assert w[..|a|] == buf[i..i + |a|];
    assert w[|a|..] == buf[i + |a|..i + |a| + |b|];
  }

  lemma HoldsPrefix(a: bytes, b: bytes, i: nat, part: bytes)
    requires Holds(a, i, part)
    ensures Holds(a + b, i, part)
  {
    assert (a + b)[i..i + |part|] == a[i..i + |part|];
  }

  lemma HoldsSuffix(a: bytes, b: bytes, i: nat, part: bytes)
    requires Holds(b, i, part)
    ensures Holds(a + b, |a| + i, part)
  {
    assert (a + b)[|a| + i..|a| + i + |part|] == b[i..i + |part|];
  }

  /** The parts one behind the other. */
  function Concat(parts: seq<bytes>): bytes {
    if parts == [] then [] else Concat(parts[..|parts| - 1]) + parts[|parts| - 1]
  }

  lemma {:induction false} PartInPlace(parts: seq<bytes>, i: nat)
    requires i < |parts|
    ensures Holds(Concat(parts), |Concat(parts[..i])|, parts[i])
  {
    var last := |parts| - 1;
    var front := Concat(parts[..last]);
    if i < last {
      PartInPlace(parts[..last], i);
      assert parts[..last][..i] == parts[..i];
      HoldsPrefix(front, parts[last], |Concat(parts[..i])|, parts[i]);
    } else {
      HoldsSuffix(front, parts[last], 0, parts[last]);
    }
  }

  lemma Read16Back(buf: bytes, i: nat, n: nat)
    requires n < TWO16 && Holds(buf, i, Word16(n))
    ensures Read16(buf, i) == n
  {
    HoldsAt(buf, i, Word16(n), 0);
    HoldsAt(buf, i, Word16(n), 1);
  }

  lemma Read32Back(buf: bytes, i: nat, n: nat)
    requires n < TWO32 && Holds(buf, i, Word32(n))
    ensures Read32(buf, i) == n
  {
    HoldsSplit(buf, i, Word16(n / TWO16), Word16(n % TWO16));
    Read16Back(buf, i, n / TWO16);
    Read16Back(buf, i + 2, n % TWO16);
  }

  lemma Read64Back(buf: bytes, i: nat, n: nat)
    requires n < TWO64 && Holds(buf, i, Word64(n))
    ensures Read64(buf, i) == n
  {
    HoldsSplit(buf, i, Word32(n / TWO32), Word32(n % TWO32));
    Read32Back(buf, i, n / TWO32);
    Read32Back(buf, i + 4, n % TWO32);
  }

  /** A part of a part. */
  lemma HoldsWithin(buf: bytes, pos: nat, whole: bytes, off: nat, part: bytes)
    requires Holds(buf, pos, whole) && off + |part| <= |whole|
    ensures Holds(buf, pos + off, part) <==> Holds(whole, off, part)
  {
    var from, to := pos + off, pos + off + |part|;
    forall i | 0 <= i < |part|
      ensures buf[from..to][i] == whole[off..off + |part|][i]
    {
      HoldsAt(buf, pos, whole, off + i);
    }
    assert buf[from..to] == whole[off..off + |part|];
  }

  lemma HoldsJoin(buf: bytes, i: nat, a: bytes, b: bytes)
    requires Holds(buf, i, a) && Holds(buf, i + |a|, b)
    ensures Holds(buf, i, a + b)
  {
    var w := buf[i..i + |a + b|];
    assert w[..|a|] == buf[i..i + |a|] && w[|a|..] == buf[i + |a|..i + |a| + |b|];
    assert w == w[..|a|] + w[|a|..];
  }

  /** What is read inside a buffer is laid out there. */
  lemma Laid16(buf: bytes, i: nat)
    requires i + 2 <= |buf|
    ensures Holds(buf, i, Word16(Read16(buf, i)))
  {
    assert buf[i..i + 2] == [buf[i], buf[i + 1]];
  }

  lemma Halves(a: nat, b: nat)
    requires b < TWO32
    ensures (a * TWO32 + b) / TWO32 == a && (a * TWO32 + b) % TWO32 == b
  {
  }

  lemma Quarters(a: nat, b: nat)
    requires b < TWO16
    ensures (a * TWO16 + b) / TWO16 == a && (a * TWO16 + b) % TWO16 == b
  {
  }

  lemma Laid32(buf: bytes, i: nat)
    requires i + 4 <= |buf|
    ensures Holds(buf, i, Word32(Read32(buf, i)))
  {
    Laid16(buf, i);
    Laid16(buf, i + 2);
    var a, b := Read16(buf, i), Read16(buf, i + 2);
    Quarters(a, b);
    HoldsJoin(buf, i, Word16(a), Word16(b));
  }

  lemma Laid64(buf: bytes, i: nat)
    requires i + 8 <= |buf|
    ensures Holds(buf, i, Word64(Read64(buf, i)))
  {
    Laid32(buf, i);
    Laid32(buf, i + 4);
    var a, b := Read32(buf, i), Read32(buf, i + 4);
    Halves(a, b);
    HoldsJoin(buf, i, Word32(a), Word32(b));
  }

  /** Two's complement: the unsigned pattern of a signed value, and back. */
  function Unsigned(v: int, modulus: nat): (u: nat)
    requires modulus > 0
    ensures u < modulus
  {
    v % modulus
  }

  function Signed(u: nat, modulus: nat): (v: int)
    requires modulus > 0 && u < modulus
  {
    if u < modulus / 2 then u else u - modulus
  }

  lemma SignedBack8(v: int)
    requires -128 <= v < 128
    ensures Signed(Unsigned(v, TWO8), TWO8) == v
  {
  }

  lemma SignedBack16(v: int)
    requires -32768 <= v < 32768
    ensures Signed(Unsigned(v, TWO16), TWO16) == v
  {
  }

  lemma SignedBack32(v: int)
    requires -TWO31 <= v < TWO31
    ensures Signed(Unsigned(v, TWO32), TWO32) == v
  {
  }

  lemma SignedBack64(v: int)
    requires -TWO63 <= v < TWO63
    ensures Signed(Unsigned(v, TWO64), TWO64) == v
  {
  }

  /** A pattern is the one of the value it stands for. */
  lemma PatternOf(u: nat, modulus: nat)
    requires u < modulus && modulus % 2 == 0
    ensures Unsigned(Signed(u, modulus), modulus) == u
  {
    if u >= modulus / 2 {
      ModOfNegative(u, modulus);
    }
  }

  lemma ModOfNegative(u: nat, modulus: nat)
    requires u < modulus
    ensures (u - modulus) % modulus == u
  {
  }
}
