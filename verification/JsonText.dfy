/**
 JSON texts: trees, the way the writer spells them, and a reader for the grammar of RFC 8259
 (sections 2 to 7). The reader is independent of the writer and accepts the whole grammar.
 */
module JsonText {
  import opened Bytes
  import opened Calls

  const QUOTE: byte := 34
  const COMMA: byte := 44
  const MINUS: byte := 45
  const SLASH: byte := 47
  const COLON: byte := 58
  const LBRACKET: byte := 91
  const BACKSLASH: byte := 92
  const RBRACKET: byte := 93
  const LBRACE: byte := 123
  const RBRACE: byte := 125
  const SPACE: byte := 32
  const TRUE: bytes := [116, 114, 117, 101]
  const FALSE: bytes := [102, 97, 108, 115, 101]
  const NULL: bytes := [110, 117, 108, 108]
  const POINT: byte := 46
  const PLUS: byte := 43

  /** `Null` and `Fractional`, a number with a fraction or an exponent, are read but never written. */
  datatype Json =
    | Null
    | Fractional
    | Num(value: int)
    | Str(s: bytes)
    | Truth(b: bool)
    | Arr(elems: seq<Json>)
    | Obj(members: seq<Member>)
  datatype Member = Member(key: bytes, value: Json)

  // ---- Strings ----

  /** One source character of `ndpi_json_string_escape`; `sc` says whether `char` is signed. */
  function EscapeByte(b: byte, sc: bool): bytes {
    if b == BACKSLASH || b == QUOTE || b == SLASH then [BACKSLASH, b]
    else if b == 8 then [BACKSLASH, 98]
    else if b == 9 then [BACKSLASH, 116]
    else if b == 10 then [BACKSLASH, 110]
    else if b == 12 then [BACKSLASH, 102]
    else if b == 13 then [BACKSLASH, 114]
    else if b < SPACE || (sc && b >= 128) then []
    else [b]
  }

  function EscapeBody(s: bytes, sc: bool): bytes {
    if s == [] then [] else EscapeBody(s[..|s| - 1], sc) + EscapeByte(s[|s| - 1], sc)
  }

  function Quoted(s: bytes, sc: bool): bytes {
    [QUOTE] + EscapeBody(s, sc) + [QUOTE]
  }

  /** A character the writer leaves out: a control character without a short escape, or a negative `char`. */
  predicate Dropped(b: byte, sc: bool) {
    (b < SPACE && b !in {8, 9, 10, 12, 13}) || (sc && b >= 128)
  }

  function Kept(s: bytes, sc: bool): bytes {
    if s == [] then []
    else Kept(s[..|s| - 1], sc) + (if Dropped(s[|s| - 1], sc) then [] else [s[|s| - 1]])
  }

  datatype Parsed<T> = Fail | Ok(value: T, rest: bytes)

  function Unescape(b: byte): Parsed<byte> {
    if b == BACKSLASH || b == QUOTE || b == SLASH then Ok(b, [])
    else if b == 98 then Ok(8, [])
    else if b == 116 then Ok(9, [])
    else if b == 110 then Ok(10, [])
    else if b == 102 then Ok(12, [])
    else if b == 114 then Ok(13, [])
    else Fail
  }

  predicate IsHex(b: byte) {
    IsDigit(b) || 65 <= b <= 70 || 97 <= b <= 102
  }

  function HexDigit(b: byte): (n: nat)
    requires IsHex(b)
    ensures n < 16
  {
    if IsDigit(b) then b - ZERO else if b <= 70 then b - 55 else b - 87
  }

  /** Four hexadecimal digits, from `i` on. */
  predicate HexAt(s: bytes, i: nat) {
    i + 4 <= |s| && IsHex(s[i]) && IsHex(s[i + 1]) && IsHex(s[i + 2]) && IsHex(s[i + 3])
  }

  function HexUnit(s: bytes, i: nat): (n: nat)
    requires HexAt(s, i)
    ensures n < TWO16
  {
    HexDigit(s[i]) * 4096 + HexDigit(s[i + 1]) * 256 + HexDigit(s[i + 2]) * 16 + HexDigit(s[i + 3])
  }

  /** A 16-bit unit in UTF-8; the two halves of a surrogate pair stay apart. */
  function Utf8(n: nat): bytes
    requires n < TWO16
  {
    if n < 0x80 then [n]
    else if n < 0x800 then [0xC0 + n / 64, 0x80 + n % 64]
    else [0xE0 + n / 4096, 0x80 + n / 64 % 64, 0x80 + n % 64]
  }

  /** The characters of a string up to its closing quote (section 7 of RFC 8259). */
  function ParseChars(s: bytes, acc: bytes): (r: Parsed<bytes>)
    ensures r.Ok? ==> |r.rest| < |s|
    decreases |s|
  {
    if s == [] then Fail
    else if s[0] == QUOTE then Ok(acc, s[1..])
    else if s[0] == BACKSLASH then
      if |s| < 2 then Fail
      else if s[1] == 117 then
        if !HexAt(s, 2) then Fail else ParseChars(s[6..], acc + Utf8(HexUnit(s, 2)))
      else if Unescape(s[1]).Fail? then Fail
      else ParseChars(s[2..], acc + [Unescape(s[1]).value])
    else if s[0] < SPACE then Fail
    else ParseChars(s[1..], acc + [s[0]])
  }

  function ParseString(s: bytes): (r: Parsed<bytes>)
    ensures r.Ok? ==> |r.rest| < |s|
  {
    if s == [] || s[0] != QUOTE then Fail else ParseChars(s[1..], [])
  }

  lemma ParseEscapedByte(b: byte, sc: bool, rest: bytes, acc: bytes)
    ensures ParseChars(EscapeByte(b, sc) + rest, acc) == ParseChars(rest, acc + (if Dropped(b, sc) then [] else [b]))
  {
    var e := EscapeByte(b, sc);
    if |e| == 0 {
      assert e + rest == rest && acc + [] == acc;
    } else if |e| == 1 {
      assert (e + rest)[0] == b && (e + rest)[1..] == rest;
    } else {
      assert (e + rest)[0] == BACKSLASH && (e + rest)[1] == e[1] && (e + rest)[2..] == rest;
    }
  }

  lemma {:induction false} ParseEscapedBody(s: bytes, sc: bool, rest: bytes, acc: bytes)
    ensures ParseChars(EscapeBody(s, sc) + rest, acc) == ParseChars(rest, acc + Kept(s, sc))
  {
    if s == [] {
      assert EscapeBody(s, sc) + rest == rest && acc + Kept(s, sc) == acc;
    } else {
      var front, b := s[..|s| - 1], s[|s| - 1];
      assert EscapeBody(s, sc) + rest == EscapeBody(front, sc) + (EscapeByte(b, sc) + rest);
      ParseEscapedBody(front, sc, EscapeByte(b, sc) + rest, acc);
      ParseEscapedByte(b, sc, rest, acc + Kept(front, sc));
      assert acc + Kept(front, sc) + (if Dropped(b, sc) then [] else [b]) == acc + Kept(s, sc);
    }
  }

  /** A written string decodes to the original without the characters the writer drops. */
  lemma ParseQuoted(s: bytes, sc: bool, rest: bytes)
    ensures ParseString(Quoted(s, sc) + rest) == Ok(Kept(s, sc), rest)
  {
    var text := Quoted(s, sc) + rest;
    assert text[1..] == EscapeBody(s, sc) + ([QUOTE] + rest);
    ParseEscapedBody(s, sc, [QUOTE] + rest, []);
    assert ([QUOTE] + rest)[1..] == rest;
    assert [] + Kept(s, sc) == Kept(s, sc);
  }

  // ---- Numbers ----

  function Decimal(n: nat): (s: bytes)
    ensures |s| > 0 && IsNumber(s)
    ensures n > 0 ==> s[0] != ZERO
    ensures n == 0 <==> s == [ZERO]
  {
    if n < 10 then [ZERO + n] else Decimal(n / 10) + [ZERO + n % 10]
  }

  /** `%d` and `%lld`. */
  function IntText(i: int): (s: bytes)
    ensures |s| > 0
  {
    if i < 0 then [MINUS] + Decimal(-i) else Decimal(i)
  }

  function ParseDigits(s: bytes, acc: int): (r: Parsed<int>)
    ensures r.Ok? ==> |r.rest| <= |s|
    decreases |s|
  {
    if s != [] && IsDigit(s[0]) then ParseDigits(s[1..], acc * 10 + (s[0] - ZERO)) else Ok(acc, s)
  }

  function ParseNat(s: bytes): (r: Parsed<int>)
    ensures r.Ok? ==> |r.rest| < |s|
  {
    if s == [] || !IsDigit(s[0]) then Fail
    else if s[0] == ZERO && |s| > 1 && IsDigit(s[1]) then Fail
    else ParseDigits(s[1..], s[0] - ZERO)
  }

  function ParseInt(s: bytes): (r: Parsed<int>)
    ensures r.Ok? ==> |r.rest| < |s|
  {
    if s != [] && s[0] == MINUS then
      match ParseNat(s[1..])
      case Fail => Fail
      case Ok(n, rest) => Ok(-n, rest)
    else
      ParseNat(s)
  }

  /** One digit or more. */
  function SkipDigits(s: bytes): (r: Parsed<int>)
    ensures r.Ok? ==> |r.rest| < |s|
  {
    if s == [] || !IsDigit(s[0]) then Fail else ParseDigits(s[1..], 0)
  }

  /** The fraction and the exponent of a number, if there are any (section 6 of RFC 8259). */
  function ParseFraction(s: bytes): (r: Parsed<int>)
    ensures r.Ok? ==> |r.rest| <= |s|
  {
    if s == [] || s[0] != POINT then Ok(0, s) else SkipDigits(s[1..])
  }

  function ParseExponent(s: bytes): (r: Parsed<int>)
    ensures r.Ok? ==> |r.rest| <= |s|
  {
    if s == [] || s[0] !in {69, 101} then Ok(0, s)
    else if |s| > 1 && s[1] in {MINUS, PLUS} then SkipDigits(s[2..])
    else SkipDigits(s[1..])
  }

  function ParseNumber(s: bytes): (r: Parsed<Json>)
    ensures r.Ok? ==> |r.rest| < |s|
  {
    var whole := ParseInt(s);
    if whole.Fail? then Fail
    else
      var fraction := ParseFraction(whole.rest);
      if fraction.Fail? then Fail
      else
        var exponent := ParseExponent(fraction.rest);
        if exponent.Fail? then Fail
        else if |exponent.rest| == |whole.rest| then Ok(Num(whole.value), whole.rest)
        else Ok(Fractional, exponent.rest)
  }

  /** What may follow a value inside an object, inside an array, or at the end of the text. */
  predicate Delimited(rest: bytes) {
    rest == [] || rest[0] in {COMMA, RBRACE, RBRACKET}
  }

  lemma {:induction false} ParseDecimalDigits(n: nat, rest: bytes)
    ensures ParseDigits(Decimal(n) + rest, 0) == ParseDigits(rest, n)
    decreases n
  {
    if n < 10 {
      assert (Decimal(n) + rest)[1..] == rest;
    } else {
      var d: bytes := [ZERO + n % 10];
      assert Decimal(n) + rest == Decimal(n / 10) + (d + rest);
      ParseDecimalDigits(n / 10, d + rest);
      assert (d + rest)[1..] == rest;
    }
  }

  /** The first digit of a number that is not zero is not zero, so no further digit is refused. */
  lemma FirstDigit(n: nat, rest: bytes)
    requires n > 0
    ensures var text := Decimal(n) + rest;
            IsDigit(text[0]) && text[0] != ZERO && ParseNat(text) == ParseDigits(text, 0)
  {
    var text := Decimal(n) + rest;
    assert text[0] == Decimal(n)[0];
  }

  lemma NoDigits(rest: bytes, acc: int)
    requires Delimited(rest)
    ensures ParseDigits(rest, acc) == Ok(acc, rest)
  {
  }

  lemma ParseZero(rest: bytes)
    requires Delimited(rest)
    ensures ParseNat([ZERO] + rest) == Ok(0, rest)
  {
    assert ([ZERO] + rest)[1..] == rest;
    NoDigits(rest, 0);
  }

  lemma ParseDecimal(n: nat, rest: bytes)
    requires Delimited(rest)
    ensures ParseNat(Decimal(n) + rest) == Ok(n, rest)
  {
    if n == 0 {
      ParseZero(rest);
    } else {
      FirstDigit(n, rest);
      ParseDecimalDigits(n, rest);
      NoDigits(rest, n);
    }
  }

  lemma ParseNegative(i: int, rest: bytes)
    requires i < 0 && Delimited(rest)
    ensures ParseInt([MINUS] + Decimal(-i) + rest) == Ok(i, rest)
  {
    Glue3([MINUS], Decimal(-i), rest);
    assert ([MINUS] + (Decimal(-i) + rest))[1..] == Decimal(-i) + rest;
    ParseDecimal(-i, rest);
  }

  lemma ParseUnsigned(n: nat, rest: bytes)
    requires Delimited(rest)
    ensures ParseInt(Decimal(n) + rest) == Ok(n, rest)
  {
    assert (Decimal(n) + rest)[0] == Decimal(n)[0];
    assert IsDigit(Decimal(n)[0]);
    ParseDecimal(n, rest);
  }

  lemma ParseIntText(i: int, rest: bytes)
    requires Delimited(rest)
    ensures ParseInt(IntText(i) + rest) == Ok(i, rest)
  {
    if i < 0 {
      ParseNegative(i, rest);
    } else {
      ParseUnsigned(i, rest);
    }
  }

  /** A printed integer is read as a number without fraction or exponent. */
  lemma ParseWholeNumber(i: int, rest: bytes)
    requires Delimited(rest)
    ensures ParseNumber(IntText(i) + rest) == Ok(Num(i), rest)
  {
    ParseIntText(i, rest);
  }

  lemma ParseFractional(rest: bytes)
    requires Delimited(rest)
    ensures ParseNumber([ZERO, POINT, ZERO] + rest) == Ok(Fractional, rest)
  {
    var s: bytes := [ZERO, POINT, ZERO] + rest;
    assert s[1..] == [POINT, ZERO] + rest && ([POINT, ZERO] + rest)[1..] == [ZERO] + rest;
    assert ([ZERO] + rest)[1..] == rest;
    NoDigits(rest, 0);
    assert ParseDigits([POINT, ZERO] + rest, 0) == Ok(0, [POINT, ZERO] + rest);
  }

  // ---- Values ----

  predicate IsSpace(b: byte) {
    b == 32 || b == 9 || b == 10 || b == 13
  }

  function SkipSpace(s: bytes): (r: bytes)
    ensures |r| <= |s|
  {
    if s != [] && IsSpace(s[0]) then SkipSpace(s[1..]) else s
  }

  /** A value (section 3 of RFC 8259); leading white space is skipped. */
  function ParseValue(s: bytes): (r: Parsed<Json>)
    ensures r.Ok? ==> |r.rest| < |s|
    decreases |s|, 1
  {
    var t := SkipSpace(s);
    if t == [] then Fail
    else if t[0] == LBRACE then
      var u := SkipSpace(t[1..]);
      if u != [] && u[0] == RBRACE then Ok(Obj([]), u[1..]) else ParseMembers(u, [])
    else if t[0] == LBRACKET then
      var u := SkipSpace(t[1..]);
      if u != [] && u[0] == RBRACKET then Ok(Arr([]), u[1..]) else ParseElems(u, [])
    else if t[0] == QUOTE then
      match ParseString(t)
      case Fail => Fail
      case Ok(v, rest) => Ok(Str(v), rest)
    else if TRUE <= t then Ok(Truth(true), t[4..])
    else if FALSE <= t then Ok(Truth(false), t[5..])
    else if NULL <= t then Ok(Null, t[4..])
    else ParseNumber(t)
  }

  /** One or more members, then the closing brace (section 4). */
  function ParseMembers(s: bytes, acc: seq<Member>): (r: Parsed<Json>)
    ensures r.Ok? ==> |r.rest| < |s|
    decreases |s|, 0
  {
    match ParseString(SkipSpace(s))
    case Fail => Fail
    case Ok(key, afterKey) =>
      var t := SkipSpace(afterKey);
      if t == [] || t[0] != COLON then Fail
      else
        match ParseValue(t[1..])
        case Fail => Fail
        case Ok(v, rest) => AfterMember(rest, acc + [Member(key, v)])
  }

  function AfterMember(s: bytes, acc: seq<Member>): (r: Parsed<Json>)
    ensures r.Ok? ==> |r.rest| < |s|
    decreases |s|, 1
  {
    var t := SkipSpace(s);
    if t == [] then Fail
    else if t[0] == COMMA then ParseMembers(t[1..], acc)
    else if t[0] == RBRACE then Ok(Obj(acc), t[1..])
    else Fail
  }

  /** One or more elements, then the closing bracket (section 5). */
  function ParseElems(s: bytes, acc: seq<Json>): (r: Parsed<Json>)
    ensures r.Ok? ==> |r.rest| < |s|
    decreases |s|, 2
  {
    match ParseValue(s)
    case Fail => Fail
    case Ok(v, rest) => AfterElem(rest, acc + [v])
  }

  function AfterElem(s: bytes, acc: seq<Json>): (r: Parsed<Json>)
    ensures r.Ok? ==> |r.rest| < |s|
    decreases |s|, 1
  {
    var t := SkipSpace(s);
    if t == [] then Fail
    else if t[0] == COMMA then ParseElems(t[1..], acc)
    else if t[0] == RBRACKET then Ok(Arr(acc), t[1..])
    else Fail
  }

  /** A whole JSON text: one value and nothing but white space behind it. */
  function Parse(s: bytes): Parsed<Json> {
    match ParseValue(s)
    case Fail => Fail
    case Ok(v, rest) => if SkipSpace(rest) == [] then Ok(v, []) else Fail
  }

  // ---- Spelling ----

  /** Names of scalars are followed by a colon, names of lists and blocks by a colon and a space. */
  function Separator(v: Json): bytes {
    if v.Arr? || v.Obj? then [COLON, SPACE] else [COLON]
  }

  function Print(v: Json, sc: bool): (s: bytes)
    ensures |s| > 0
    decreases v, 1
  {
    match v
    case Null => NULL
    case Fractional => [ZERO, POINT, ZERO]
    case Num(i) => IntText(i)
    case Str(s) => Quoted(s, sc)
    case Truth(b) => if b then TRUE else FALSE
    case Arr(es) => [LBRACKET] + PrintElems(es, sc) + [RBRACKET]
    case Obj(ms) => [LBRACE] + PrintMembers(ms, sc) + [RBRACE]
  }

  function PrintMember(m: Member, sc: bool): (s: bytes)
    ensures |s| > 0
    decreases m, 0
  {
    Quoted(m.key, sc) + Separator(m.value) + Print(m.value, sc)
  }

  function Comma<T>(items: seq<T>): bytes {
    if items == [] then [] else [COMMA]
  }

  function PrintMembers(ms: seq<Member>, sc: bool): bytes
    decreases ms, 0
  {
    if ms == [] then []
    else
      var front := ms[..|ms| - 1];
      PrintMembers(front, sc) + Comma(front) + PrintMember(ms[|ms| - 1], sc)
  }

  function PrintElems(es: seq<Json>, sc: bool): bytes
    decreases es, 0
  {
    if es == [] then []
    else
      var front := es[..|es| - 1];
      PrintElems(front, sc) + Comma(front) + Print(es[|es| - 1], sc)
  }

  // ---- What a reader gets back: every string without its dropped characters ----

  function Strip(v: Json, sc: bool): Json
    decreases v, 1
  {
    match v
    case Str(s) => Str(Kept(s, sc))
    case Arr(es) => Arr(StripElems(es, sc))
    case Obj(ms) => Obj(StripMembers(ms, sc))
    case _ => v
  }

  function StripMembers(ms: seq<Member>, sc: bool): (r: seq<Member>)
    ensures |r| == |ms|
    decreases ms, 0
  {
    if ms == [] then []
    else
      var m := ms[|ms| - 1];
      StripMembers(ms[..|ms| - 1], sc) + [Member(Kept(m.key, sc), Strip(m.value, sc))]
  }

  function StripElems(es: seq<Json>, sc: bool): (r: seq<Json>)
    ensures |r| == |es|
    decreases es, 0
  {
    if es == [] then [] else StripElems(es[..|es| - 1], sc) + [Strip(es[|es| - 1], sc)]
  }

  // ---- Reading back what was spelled ----

  /** A byte that starts a value or a name, and is neither white space nor punctuation. */
  predicate Starts(b: byte) {
    !IsSpace(b) && b !in {COMMA, COLON, RBRACE, RBRACKET}
  }

  lemma PrintStarts(v: Json, sc: bool, rest: bytes)
    ensures var t := Print(v, sc) + rest; t != [] && Starts(t[0]) && SkipSpace(t) == t
  {
    if v.Num? {
      assert v.value < 0 || IsDigit(Decimal(v.value)[0]);
    }
  }

  lemma ElemsSplit(es: seq<Json>, sc: bool, tail: bytes)
    requires es != []
    ensures var front, e := es[..|es| - 1], es[|es| - 1];
            PrintElems(es, sc) + tail ==
            if front == [] then Print(e, sc) + tail
            else PrintElems(front, sc) + ([COMMA] + (Print(e, sc) + tail))
  {
    var front, e := es[..|es| - 1], es[|es| - 1];
    Glue4(PrintElems(front, sc), Comma(front), Print(e, sc), tail);
    GlueEmpty(Print(e, sc));
  }

  lemma MembersSplit(ms: seq<Member>, sc: bool, tail: bytes)
    requires ms != []
    ensures var front, m := ms[..|ms| - 1], ms[|ms| - 1];
            PrintMembers(ms, sc) + tail ==
            if front == [] then PrintMember(m, sc) + tail
            else PrintMembers(front, sc) + ([COMMA] + (PrintMember(m, sc) + tail))
  {
    var front, m := ms[..|ms| - 1], ms[|ms| - 1];
    Glue4(PrintMembers(front, sc), Comma(front), PrintMember(m, sc), tail);
    GlueEmpty(PrintMember(m, sc));
  }

  lemma {:induction false} ElemsStart(es: seq<Json>, sc: bool, rest: bytes)
    requires es != []
    ensures var t := PrintElems(es, sc) + rest; t != [] && Starts(t[0]) && SkipSpace(t) == t
  {
    var front, e := es[..|es| - 1], es[|es| - 1];
    ElemsSplit(es, sc, rest);
    if front == [] {
      PrintStarts(e, sc, rest);
    } else {
      ElemsStart(front, sc, [COMMA] + (Print(e, sc) + rest));
    }
  }

  lemma {:induction false} MembersStart(ms: seq<Member>, sc: bool, rest: bytes)
    requires ms != []
    ensures var t := PrintMembers(ms, sc) + rest; t != [] && Starts(t[0]) && SkipSpace(t) == t
  {
    var front, m := ms[..|ms| - 1], ms[|ms| - 1];
    MembersSplit(ms, sc, rest);
    if front == [] {
      assert (PrintMember(m, sc) + rest)[0] == QUOTE;
    } else {
      MembersStart(front, sc, [COMMA] + (PrintMember(m, sc) + rest));
    }
  }

  // The grammar one step at a time.

  lemma ParseSpaced(s: bytes)
    ensures ParseValue([SPACE] + s) == ParseValue(s)
  {
    assert ([SPACE] + s)[1..] == s;
  }

  lemma ParseOneElem(s: bytes, v: Json, tail: bytes, acc: seq<Json>)
    requires ParseValue(s) == Ok(v, tail)
    ensures ParseElems(s, acc) == AfterElem(tail, acc + [v])
  {
  }

  lemma ParseElemComma(s: bytes, acc: seq<Json>)
    ensures AfterElem([COMMA] + s, acc) == ParseElems(s, acc)
  {
    assert ([COMMA] + s)[1..] == s;
  }

  lemma ParseOneMember(name: bytes, colon: bytes, s: bytes, sc: bool, v: Json, tail: bytes, acc: seq<Member>)
    requires ParseValue(s) == Ok(v, tail)
    requires colon == [COLON] || colon == [COLON, SPACE]
    ensures ParseMembers(Quoted(name, sc) + (colon + s), acc) == AfterMember(tail, acc + [Member(Kept(name, sc), v)])
  {
    ParseQuoted(name, sc, colon + s);
    assert (Quoted(name, sc) + (colon + s))[0] == QUOTE;
    if colon == [COLON] {
      assert (colon + s)[1..] == s;
    } else {
      assert (colon + s)[1..] == [SPACE] + s;
      ParseSpaced(s);
    }
  }

  lemma ParseMemberComma(s: bytes, acc: seq<Member>)
    ensures AfterMember([COMMA] + s, acc) == ParseMembers(s, acc)
  {
    assert ([COMMA] + s)[1..] == s;
  }

  lemma ParseArray(inner: bytes, es: seq<Json>, rest: bytes)
    requires inner != [] && Starts(inner[0]) && SkipSpace(inner) == inner
    requires ParseElems(inner, []) == AfterElem([RBRACKET] + rest, es)
    ensures ParseValue([LBRACKET] + inner) == Ok(Arr(es), rest)
  {
    assert ([LBRACKET] + inner)[1..] == inner;
    assert ([RBRACKET] + rest)[1..] == rest;
  }

  lemma ParseObject(inner: bytes, ms: seq<Member>, rest: bytes)
    requires inner != [] && Starts(inner[0]) && SkipSpace(inner) == inner
    requires ParseMembers(inner, []) == AfterMember([RBRACE] + rest, ms)
    ensures ParseValue([LBRACE] + inner) == Ok(Obj(ms), rest)
  {
    assert ([LBRACE] + inner)[1..] == inner;
    assert ([RBRACE] + rest)[1..] == rest;
  }

  lemma ParseEmpty(rest: bytes)
    ensures ParseValue([LBRACKET, RBRACKET] + rest) == Ok(Arr([]), rest)
    ensures ParseValue([LBRACE, RBRACE] + rest) == Ok(Obj([]), rest)
  {
    assert ([LBRACKET, RBRACKET] + rest)[1..] == [RBRACKET] + rest;
    assert ([LBRACE, RBRACE] + rest)[1..] == [RBRACE] + rest;
    assert ([RBRACKET] + rest)[1..] == rest && ([RBRACE] + rest)[1..] == rest;
  }

  // The same for whole trees.

  lemma StripElemsLast(es: seq<Json>, acc: seq<Json>, sc: bool)
    requires es != []
    ensures var front, e := es[..|es| - 1], es[|es| - 1];
            acc + StripElems(front, sc) + [Strip(e, sc)] == acc + StripElems(es, sc)
    ensures |es| == 1 ==> acc + StripElems(es[..|es| - 1], sc) == acc
  {
  }

  lemma {:induction false} ParsePrintedElems(es: seq<Json>, sc: bool, tail: bytes, acc: seq<Json>)
    requires es != [] && tail != [] && Delimited(tail)
    ensures ParseElems(PrintElems(es, sc) + tail, acc) == AfterElem(tail, acc + StripElems(es, sc))
    decreases es, 0
  {
    var front, e := es[..|es| - 1], es[|es| - 1];
    var s := Print(e, sc) + tail;
    var before := acc + StripElems(front, sc);
    ParsePrinted(e, sc, tail);
    ElemsSplit(es, sc, tail);
    ParseOneElem(s, Strip(e, sc), tail, before);
    StripElemsLast(es, acc, sc);
    if front != [] {
      ParsePrintedElems(front, sc, [COMMA] + s, acc);
      ParseElemComma(s, before);
    }
  }

  lemma MemberSpelled(m: Member, sc: bool, rest: bytes)
    ensures PrintMember(m, sc) + rest == Quoted(m.key, sc) + (Separator(m.value) + (Print(m.value, sc) + rest))
  {
  }

  lemma ParsePrintedMember(m: Member, sc: bool, tail: bytes, acc: seq<Member>)
    requires Delimited(tail)
    ensures ParseMembers(PrintMember(m, sc) + tail, acc)
         == AfterMember(tail, acc + [Member(Kept(m.key, sc), Strip(m.value, sc))])
    decreases m, 2
  {
    ParsePrinted(m.value, sc, tail);
    ParseOneMember(m.key, Separator(m.value), Print(m.value, sc) + tail, sc, Strip(m.value, sc), tail, acc);
    MemberSpelled(m, sc, tail);
  }

  lemma StripMembersLast(ms: seq<Member>, acc: seq<Member>, sc: bool)
    requires ms != []
    ensures var front, m := ms[..|ms| - 1], ms[|ms| - 1];
            acc + StripMembers(front, sc) + [Member(Kept(m.key, sc), Strip(m.value, sc))] == acc + StripMembers(ms, sc)
    ensures |ms| == 1 ==> acc + StripMembers(ms[..|ms| - 1], sc) == acc
  {
  }

  lemma {:induction false} ParsePrintedMembers(ms: seq<Member>, sc: bool, tail: bytes, acc: seq<Member>)
    requires ms != [] && tail != [] && Delimited(tail)
    ensures ParseMembers(PrintMembers(ms, sc) + tail, acc) == AfterMember(tail, acc + StripMembers(ms, sc))
    decreases ms, 0
  {
    var front, m := ms[..|ms| - 1], ms[|ms| - 1];
    var s := PrintMember(m, sc) + tail;
    var before := acc + StripMembers(front, sc);
    MembersSplit(ms, sc, tail);
    ParsePrintedMember(m, sc, tail, before);
    StripMembersLast(ms, acc, sc);
    if front != [] {
      ParsePrintedMembers(front, sc, [COMMA] + s, acc);
      ParseMemberComma(s, before);
    }
  }

  lemma ParsePrintedScalar(v: Json, sc: bool, rest: bytes)
    requires Delimited(rest) && !v.Arr? && !v.Obj?
    ensures ParseValue(Print(v, sc) + rest) == Ok(Strip(v, sc), rest)
  {
    var t := Print(v, sc) + rest;
    PrintStarts(v, sc, rest);
    match v {
      case Null => assert t[..4] == NULL && t[4..] == rest && t[0] == 110;
      case Fractional => ParseFractional(rest); assert t[0] == ZERO;
      case Num(i) => ParseWholeNumber(i, rest); NumberStart(i, rest);
      case Str(s) => ParseQuoted(s, sc, rest);
      case Truth(b) =>
        assert b ==> t[..4] == TRUE && t[4..] == rest;
        assert !b ==> t[..5] == FALSE && t[5..] == rest;
    }
  }

  lemma ArrSpelled(es: seq<Json>, sc: bool, rest: bytes)
    ensures Print(Arr(es), sc) + rest == [LBRACKET] + (PrintElems(es, sc) + ([RBRACKET] + rest))
    ensures Print(Obj([]), sc) + rest == [LBRACE, RBRACE] + rest
    ensures Print(Arr([]), sc) + rest == [LBRACKET, RBRACKET] + rest
  {
  }

  lemma ObjSpelled(ms: seq<Member>, sc: bool, rest: bytes)
    ensures Print(Obj(ms), sc) + rest == [LBRACE] + (PrintMembers(ms, sc) + ([RBRACE] + rest))
  {
  }

  lemma ParsePrintedArr(es: seq<Json>, sc: bool, rest: bytes)
    requires Delimited(rest) && es != []
    ensures ParseValue(Print(Arr(es), sc) + rest) == Ok(Arr(StripElems(es, sc)), rest)
    decreases es, 1
  {
    ElemsStart(es, sc, [RBRACKET] + rest);
    ParsePrintedElems(es, sc, [RBRACKET] + rest, []);
    assert [] + StripElems(es, sc) == StripElems(es, sc);
    ParseArray(PrintElems(es, sc) + ([RBRACKET] + rest), StripElems(es, sc), rest);
    ArrSpelled(es, sc, rest);
  }

  lemma ParsePrintedObj(ms: seq<Member>, sc: bool, rest: bytes)
    requires Delimited(rest) && ms != []
    ensures ParseValue(Print(Obj(ms), sc) + rest) == Ok(Obj(StripMembers(ms, sc)), rest)
    decreases ms, 1
  {
    MembersStart(ms, sc, [RBRACE] + rest);
    ParsePrintedMembers(ms, sc, [RBRACE] + rest, []);
    assert [] + StripMembers(ms, sc) == StripMembers(ms, sc);
    ParseObject(PrintMembers(ms, sc) + ([RBRACE] + rest), StripMembers(ms, sc), rest);
    ObjSpelled(ms, sc, rest);
  }

  /** Every tree the writer spells is read back as that tree, without the dropped characters. */
  lemma {:induction false} ParsePrinted(v: Json, sc: bool, rest: bytes)
    requires Delimited(rest)
    ensures ParseValue(Print(v, sc) + rest) == Ok(Strip(v, sc), rest)
    decreases v, 1
  {
    if (v.Arr? && v.elems == []) || (v.Obj? && v.members == []) {
      ParseEmpty(rest);
      ArrSpelled([], sc, rest);
    } else if v.Arr? {
      ParsePrintedArr(v.elems, sc, rest);
    } else if v.Obj? {
      ParsePrintedObj(v.members, sc, rest);
    } else {
      ParsePrintedScalar(v, sc, rest);
    }
  }

  lemma NumberStart(i: int, rest: bytes)
    ensures var t := IntText(i) + rest;
            t[0] != LBRACE && t[0] != LBRACKET && t[0] != QUOTE && !(TRUE <= t) && !(FALSE <= t) && !(NULL <= t)
  {
    assert i < 0 || IsDigit(Decimal(i)[0]);
    assert (IntText(i) + rest)[0] == IntText(i)[0];
  }

  /** A whole text, possibly indented by one space. */
  lemma ParseWhole(v: Json, sc: bool)
    ensures Parse(Print(v, sc)) == Ok(Strip(v, sc), [])
    ensures Parse([SPACE] + Print(v, sc)) == Ok(Strip(v, sc), [])
  {
    ParsePrinted(v, sc, []);
    assert Print(v, sc) + [] == Print(v, sc);
    ParseSpaced(Print(v, sc));
  }
}
