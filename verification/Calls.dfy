/** The writer calls of the serializer API, and the conversions applied before anything is written. */
module Calls {
  import opened Bytes

  /** The two key families of the API: `uint32_*` and `binary_*`/`string_*`. */
  datatype Key = NumKey(n: nat) | StrKey(s: bytes)

  /** A `float` is the four bytes of its representation. */
  datatype Val =
    | U32(n: nat)
    | U64(n: nat)
    | I32(i: int)
    | I64(i: int)
    | Flt(raw: bytes)
    | Bin(s: bytes)
    | Bool(b: bool)

  datatype Call =
    | Put(key: Key, val: Val)
    | StartList(name: bytes)
    | EndList
    | StartBlock(name: bytes)
    | EndBlock
    | EndRecord

  const ZERO: byte := 48
  const NINE: byte := 57

  predicate IsDigit(b: byte) {
    ZERO <= b <= NINE
  }

  /** `ndpi_is_number`: every character is a digit; the empty string qualifies. */
  predicate IsNumber(s: bytes) {
    forall i :: 0 <= i < |s| ==> IsDigit(s[i])
  }

  /** `atoi` on a string of digits. */
  function Atoi(s: bytes): nat
    requires IsNumber(s)
  {
    if s == [] then 0 else Atoi(s[..|s| - 1]) * 10 + (s[|s| - 1] - ZERO)
  }

  /** What the C types and `atoi` demand of a caller. */
  predicate ValidKey(k: Key) {
    match k
    case NumKey(n) => n < TWO32
    case StrKey(s) => |s| < TWO16 && (IsNumber(s) ==> Atoi(s) < TWO31)
  }

  predicate ValidVal(v: Val) {
    match v
    case U32(n) => n < TWO32
    case U64(n) => n < TWO64
    case I32(i) => -TWO31 <= i < TWO31
    case I64(i) => -TWO63 <= i < TWO63
    case Flt(raw) => |raw| == 4
    case Bin(s) => |s| < TWO16
    case Bool(_) => true
  }

  predicate ValidCall(c: Call) {
    match c
    case Put(k, v) => ValidKey(k) && ValidVal(v)
    case StartList(s) => |s| < TWO16
    case StartBlock(s) => |s| < TWO16
    case _ => true
  }

  /** OPTIMIZE_NUMERIC_KEYS: a string key made of digits is replaced by its number. */
  function NormKey(k: Key): Key {
    match k
    case NumKey(_) => k
    case StrKey(s) => if IsNumber(s) then NumKey(Atoi(s)) else k
  }

  /** The compact path of the 64-bit writers: values that fit 32 bits unsigned go to the 32-bit writer. */
  function NormVal(v: Val): Val
    requires ValidVal(v)
  {
    match v
    case U64(n) => if n < TWO32 then U32(n) else v
    case I64(i) => if 0 <= i < TWO32 then I32(Signed(i, TWO32)) else v
    case _ => v
  }

  function Norm(c: Call): (r: Call)
    requires ValidCall(c)
    ensures ValidCall(r)
  {
    match c
    case Put(k, v) => Put(NormKey(k), NormVal(v))
    case _ => c
  }

  predicate IsNorm(c: Call) {
    ValidCall(c) && Norm(c) == c
  }

  lemma NormIdempotent(c: Call)
    requires ValidCall(c)
    ensures IsNorm(Norm(c))
  {
  }

  /** The number a caller means. */
  function Meaning(v: Val): int
    requires v.U32? || v.U64? || v.I32? || v.I64?
  {
    match v
    case U32(n) => n
    case U64(n) => n
    case I32(i) => i
    case I64(i) => i
  }

  /** The narrowing keeps the number exactly when it is not a signed value in [2^31, 2^32). */
  lemma NarrowingKeepsMeaning(v: Val)
    requires ValidVal(v) && (v.U32? || v.U64? || v.I32? || v.I64?)
    ensures var w := NormVal(v);
            (w.U32? || w.U64? <==> v.U32? || v.U64?) && (w.I32? || w.I64? <==> v.I32? || v.I64?)
    ensures Meaning(NormVal(v)) == Meaning(v) <==> !(v.I64? && TWO31 <= v.i < TWO32)
  {
  }

  /** One value the compact path turns into another: 2^31 comes back as -2^31. */
  lemma NarrowingExample()
    ensures ValidVal(I64(TWO31)) && NormVal(I64(TWO31)) == I32(-TWO31)
  {
  }
}
