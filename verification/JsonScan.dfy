/**
 A scanner that reads a text byte by byte and keeps only the brackets open and what may come
 next. It accepts every JSON text and some others, and once it is dead no continuation helps.
 */
module JsonScan {
  import opened Bytes
  import opened Calls
  import opened JsonText

  datatype Frame = InObj | InArr

  /** `After(true)`: inside or behind a number or a word, which more characters may prolong. */
  datatype Mode = Value | ValueOrEnd | Key | KeyOrEnd | Colon | After(word: bool) | Text(key: bool) | Escape(key: bool)

  datatype Scanner = Dead | At(stack: seq<Frame>, mode: Mode)

  const START := At([], Value)

  predicate Top(stack: seq<Frame>, f: Frame) { stack != [] && stack[|stack| - 1] == f }

  function Pop(stack: seq<Frame>): seq<Frame>
    requires stack != []
  {
    stack[..|stack| - 1]
  }

  predicate Wants(m: Mode) { m.Value? || m.ValueOrEnd? }

  /** The next byte outside strings. */
  function Token(stack: seq<Frame>, m: Mode, b: byte): Scanner
    requires !m.Text? && !m.Escape?
  {
    if IsSpace(b) then At(stack, if m.After? then After(false) else m)
    else if b == QUOTE then
      if Wants(m) then At(stack, Text(false)) else if m.Key? || m.KeyOrEnd? then At(stack, Text(true)) else Dead
    else if b == LBRACE then if Wants(m) then At(stack + [InObj], KeyOrEnd) else Dead
    else if b == LBRACKET then if Wants(m) then At(stack + [InArr], ValueOrEnd) else Dead
    else if b == RBRACE then
      if Top(stack, InObj) && (m.KeyOrEnd? || m.After?) then At(Pop(stack), After(false)) else Dead
    else if b == RBRACKET then
      if Top(stack, InArr) && (m.ValueOrEnd? || m.After?) then At(Pop(stack), After(false)) else Dead
    else if b == COLON then if m.Colon? then At(stack, Value) else Dead
    else if b == COMMA then
      if m.After? && stack != [] then At(stack, if Top(stack, InObj) then Key else Value) else Dead
    else if Wants(m) || (m.After? && m.word) then At(stack, After(true))
    else Dead
  }

  function Next(sg: Scanner, b: byte): Scanner {
    match sg
    case Dead => Dead
    case At(stack, Text(key)) =>
      if b == QUOTE then At(stack, if key then Colon else After(false))
      else if b == BACKSLASH then At(stack, Escape(key))
      else sg
    case At(stack, Escape(key)) => At(stack, Text(key))
    case At(stack, m) => Token(stack, m, b)
  }

  function Scan(sg: Scanner, s: bytes): Scanner
    decreases |s|
  {
    if s == [] then sg else Scan(Next(sg, s[0]), s[1..])
  }

  lemma {:induction false} ScanSplit(sg: Scanner, s: bytes, t: bytes)
    ensures Scan(sg, s + t) == Scan(Scan(sg, s), t)
    decreases |s|
  {
    if s == [] {
      assert s + t == t;
    } else {
      assert (s + t)[0] == s[0] && (s + t)[1..] == s[1..] + t;
      ScanSplit(Next(sg, s[0]), s[1..], t);
    }
  }

  lemma {:induction false} DeadStays(s: bytes)
    ensures Scan(Dead, s) == Dead
    decreases |s|
  {
    if s != [] {
      DeadStays(s[1..]);
    }
  }

  lemma ScanOne(sg: Scanner, b: byte)
    ensures Scan(sg, [b]) == Next(sg, b)
  {
    assert [b][1..] == [];
    assert Scan(Next(sg, b), []) == Next(sg, b);
  }

  // ---- Every JSON text is accepted ----

  /** White space never matters, but for ending a word. */
  lemma {:induction false} ScanSpace(stack: seq<Frame>, m: Mode, s: bytes) returns (m': Mode)
    requires !m.Text? && !m.Escape?
    ensures m' == m || (m.After? && m' == After(false))
    ensures Scan(At(stack, m), s) == Scan(At(stack, m'), SkipSpace(s))
    decreases |s|
  {
    m' := m;
    if s != [] && IsSpace(s[0]) {
      m' := ScanSpace(stack, if m.After? then After(false) else m, s[1..]);
    }
  }

  lemma {:induction false} ScanChars(stack: seq<Frame>, key: bool, s: bytes, acc: bytes)
    requires ParseChars(s, acc).Ok?
    ensures Scan(At(stack, Text(key)), s) == Scan(At(stack, if key then Colon else After(false)), ParseChars(s, acc).rest)
    decreases |s|
  {
    var sg := At(stack, Text(key));
    if s[0] == QUOTE {
    } else if s[0] == BACKSLASH {
      assert Scan(sg, s) == Scan(At(stack, Escape(key)), s[1..]);
      assert s[1..][1..] == s[2..];
      assert Scan(sg, s) == Scan(sg, s[2..]);
      if s[1] == 117 {
        var t := s[2..];
        assert t[0] == s[2] && t[1] == s[3] && t[2] == s[4] && t[3] == s[5];
        ScanPlain(stack, key, t, 4);
        assert s[2..][4..] == s[6..];
        ScanChars(stack, key, s[6..], acc + Utf8(HexUnit(s, 2)));
      } else {
        ScanChars(stack, key, s[2..], acc + [Unescape(s[1]).value]);
      }
    } else {
      ScanChars(stack, key, s[1..], acc + [s[0]]);
    }
  }

  /** Plain characters inside a string. */
  lemma {:induction false} ScanPlain(stack: seq<Frame>, key: bool, s: bytes, n: nat)
    requires n <= |s| && forall i :: 0 <= i < n ==> s[i] != QUOTE && s[i] != BACKSLASH
    ensures Scan(At(stack, Text(key)), s) == Scan(At(stack, Text(key)), s[n..])
    decreases n
  {
    if n > 0 {
      ScanPlain(stack, key, s[1..], n - 1);
      assert s[1..][n - 1..] == s[n..];
    } else {
      assert s[0..] == s;
    }
  }

  lemma ScanString(stack: seq<Frame>, m: Mode, s: bytes)
    requires ParseString(s).Ok? && (Wants(m) || m.Key? || m.KeyOrEnd?)
    ensures Scan(At(stack, m), s) == Scan(At(stack, if Wants(m) then After(false) else Colon), ParseString(s).rest)
  {
    ScanChars(stack, !Wants(m), s[1..], []);
  }

  predicate WordByte(b: byte) {
    !IsSpace(b) && b !in {QUOTE, LBRACE, RBRACE, LBRACKET, RBRACKET, COLON, COMMA}
  }

  lemma {:induction false} ScanWord(stack: seq<Frame>, m: Mode, s: bytes, n: nat)
    requires n <= |s| && (Wants(m) || m == After(true)) && (n == 0 ==> m == After(true))
    requires forall i :: 0 <= i < n ==> WordByte(s[i])
    ensures Scan(At(stack, m), s) == Scan(At(stack, After(true)), s[n..])
    decreases n
  {
    if n > 1 || (n == 1 && m == After(true)) {
      ScanWord(stack, After(true), s[1..], n - 1);
      assert s[1..][n - 1..] == s[n..];
    } else if n == 0 {
      assert s[0..] == s;
    }
  }

  /** `rest` is what is left of `s` behind some word characters. */
  ghost predicate Ate(s: bytes, rest: bytes) {
    |rest| <= |s| && rest == s[|s| - |rest|..] && forall i :: 0 <= i < |s| - |rest| ==> WordByte(s[i])
  }

  lemma AteMore(s: bytes, t: bytes, u: bytes)
    requires Ate(s, t) && Ate(t, u)
    ensures Ate(s, u)
  {
    var n := |s| - |t|;
    assert forall i :: n <= i < |s| - |u| ==> s[i] == t[i - n];
  }

  lemma AteOne(s: bytes)
    requires s != [] && WordByte(s[0])
    ensures Ate(s, s[1..])
  {
  }

  lemma {:induction false} DigitsAte(s: bytes, acc: int)
    ensures ParseDigits(s, acc).Ok? && Ate(s, ParseDigits(s, acc).rest)
    decreases |s|
  {
    if s != [] && IsDigit(s[0]) {
      DigitsAte(s[1..], acc * 10 + (s[0] - ZERO));
      AteOne(s);
      AteMore(s, s[1..], ParseDigits(s, acc).rest);
    }
  }

  lemma NatAte(s: bytes)
    requires ParseNat(s).Ok?
    ensures Ate(s, ParseNat(s).rest)
  {
    DigitsAte(s[1..], s[0] - ZERO);
    AteOne(s);
    AteMore(s, s[1..], ParseNat(s).rest);
  }

  lemma IntAte(s: bytes)
    requires ParseInt(s).Ok?
    ensures Ate(s, ParseInt(s).rest)
  {
    if s[0] == MINUS {
      NatAte(s[1..]);
      AteOne(s);
      AteMore(s, s[1..], ParseInt(s).rest);
    } else {
      NatAte(s);
    }
  }

  lemma SkippedAte(s: bytes)
    requires SkipDigits(s).Ok?
    ensures Ate(s, SkipDigits(s).rest)
  {
    DigitsAte(s[1..], 0);
    AteOne(s);
    AteMore(s, s[1..], SkipDigits(s).rest);
  }

  lemma FractionAte(s: bytes)
    requires ParseFraction(s).Ok?
    ensures Ate(s, ParseFraction(s).rest)
  {
    if s != [] && s[0] == POINT {
      SkippedAte(s[1..]);
      AteOne(s);
      AteMore(s, s[1..], ParseFraction(s).rest);
    }
  }

  lemma ExponentAte(s: bytes)
    requires ParseExponent(s).Ok?
    ensures Ate(s, ParseExponent(s).rest)
  {
    if s != [] && s[0] in {69, 101} {
      AteOne(s);
      if |s| > 1 && s[1] in {MINUS, PLUS} {
        AteOne(s[1..]);
        assert s[1..][1..] == s[2..];
        AteMore(s, s[1..], s[2..]);
        SkippedAte(s[2..]);
        AteMore(s, s[2..], ParseExponent(s).rest);
      } else {
        SkippedAte(s[1..]);
        AteMore(s, s[1..], ParseExponent(s).rest);
      }
    }
  }

  lemma NumberAte(s: bytes)
    requires ParseNumber(s).Ok?
    ensures Ate(s, ParseNumber(s).rest)
  {
    var whole := ParseInt(s);
    IntAte(s);
    FractionAte(whole.rest);
    var fraction := ParseFraction(whole.rest);
    AteMore(s, whole.rest, fraction.rest);
    ExponentAte(fraction.rest);
    AteMore(s, fraction.rest, ParseExponent(fraction.rest).rest);
  }

  lemma ScanAte(stack: seq<Frame>, m: Mode, s: bytes, rest: bytes)
    requires Wants(m) && Ate(s, rest) && |rest| < |s|
    ensures Scan(At(stack, m), s) == Scan(At(stack, After(true)), rest)
  {
    ScanWord(stack, m, s, |s| - |rest|);
  }

  lemma WordsAte(s: bytes)
    ensures TRUE <= s ==> Ate(s, s[4..])
    ensures FALSE <= s ==> Ate(s, s[5..])
    ensures NULL <= s ==> Ate(s, s[4..])
  {
    assert TRUE <= s ==> forall i :: 0 <= i < 4 ==> s[i] == TRUE[i];
    assert FALSE <= s ==> forall i :: 0 <= i < 5 ==> s[i] == FALSE[i];
    assert NULL <= s ==> forall i :: 0 <= i < 4 ==> s[i] == NULL[i];
  }

  /** A value without brackets. */
  lemma ScanScalar(stack: seq<Frame>, m: Mode, t: bytes) returns (w: bool)
    requires Wants(m) && SkipSpace(t) == t && t != [] && t[0] != LBRACE && t[0] != LBRACKET && ParseValue(t).Ok?
    ensures Scan(At(stack, m), t) == Scan(At(stack, After(w)), ParseValue(t).rest)
  {
    if t[0] == QUOTE {
      ScanString(stack, m, t);
      w := false;
    } else {
      WordsAte(t);
      if !(TRUE <= t) && !(FALSE <= t) && !(NULL <= t) {
        NumberAte(t);
      }
      ScanAte(stack, m, t, ParseValue(t).rest);
      w := true;
    }
  }

  lemma {:induction false} ScanValue(stack: seq<Frame>, m: Mode, s: bytes) returns (w: bool)
    requires Wants(m) && ParseValue(s).Ok?
    ensures Scan(At(stack, m), s) == Scan(At(stack, After(w)), ParseValue(s).rest)
    decreases |s|, 1
  {
    var _ := ScanSpace(stack, m, s);
    var t := SkipSpace(s);
    SkipTwice(s);
    if t[0] == LBRACE {
      var u := SkipSpace(t[1..]);
      var inner := stack + [InObj];
      var _ := ScanSpace(inner, KeyOrEnd, t[1..]);
      assert Pop(inner) == stack;
      if !(u != [] && u[0] == RBRACE) {
        ScanMembers(inner, KeyOrEnd, u, []);
      }
      w := false;
    } else if t[0] == LBRACKET {
      var u := SkipSpace(t[1..]);
      var inner := stack + [InArr];
      var _ := ScanSpace(inner, ValueOrEnd, t[1..]);
      assert Pop(inner) == stack;
      if !(u != [] && u[0] == RBRACKET) {
        ScanElems(inner, ValueOrEnd, u, []);
      }
      w := false;
    } else {
      w := ScanScalar(stack, m, t);
    }
  }

  lemma {:induction false} SkipTwice(s: bytes)
    ensures SkipSpace(SkipSpace(s)) == SkipSpace(s) && ParseValue(SkipSpace(s)) == ParseValue(s)
    decreases |s|
  {
    if s != [] && IsSpace(s[0]) {
      SkipTwice(s[1..]);
    }
  }

  lemma {:induction false} ScanMembers(stack: seq<Frame>, m: Mode, s: bytes, acc: seq<Member>)
    requires (m.Key? || m.KeyOrEnd?) && Top(stack, InObj) && ParseMembers(s, acc).Ok?
    ensures Scan(At(stack, m), s) == Scan(At(Pop(stack), After(false)), ParseMembers(s, acc).rest)
    decreases |s|, 0
  {
    var _ := ScanSpace(stack, m, s);
    ScanString(stack, m, SkipSpace(s));
    var name := ParseString(SkipSpace(s));
    var _ := ScanSpace(stack, Colon, name.rest);
    var t := SkipSpace(name.rest);
    var v := ParseValue(t[1..]);
    var w := ScanValue(stack, Value, t[1..]);
    ScanAfterMember(stack, w, v.rest, acc + [Member(name.value, v.value)]);
  }

  lemma {:induction false} ScanAfterMember(stack: seq<Frame>, w: bool, s: bytes, acc: seq<Member>)
    requires Top(stack, InObj) && AfterMember(s, acc).Ok?
    ensures Scan(At(stack, After(w)), s) == Scan(At(Pop(stack), After(false)), AfterMember(s, acc).rest)
    decreases |s|, 1
  {
    var _ := ScanSpace(stack, After(w), s);
    var t := SkipSpace(s);
    if t[0] == COMMA {
      ScanMembers(stack, Key, t[1..], acc);
    }
  }

  lemma {:induction false} ScanElems(stack: seq<Frame>, m: Mode, s: bytes, acc: seq<Json>)
    requires Wants(m) && Top(stack, InArr) && ParseElems(s, acc).Ok?
    ensures Scan(At(stack, m), s) == Scan(At(Pop(stack), After(false)), ParseElems(s, acc).rest)
    decreases |s|, 2
  {
    var v := ParseValue(s);
    var w := ScanValue(stack, m, s);
    ScanAfterElem(stack, w, v.rest, acc + [v.value]);
  }

  lemma {:induction false} ScanAfterElem(stack: seq<Frame>, w: bool, s: bytes, acc: seq<Json>)
    requires Top(stack, InArr) && AfterElem(s, acc).Ok?
    ensures Scan(At(stack, After(w)), s) == Scan(At(Pop(stack), After(false)), AfterElem(s, acc).rest)
    decreases |s|, 1
  {
    var _ := ScanSpace(stack, After(w), s);
    var t := SkipSpace(s);
    if t[0] == COMMA {
      ScanElems(stack, Value, t[1..], acc);
    }
  }

  /** A JSON text leaves the scanner behind a whole value with nothing open. */
  lemma TextIsScanned(s: bytes)
    requires Parse(s).Ok?
    ensures exists w :: Scan(START, s) == At([], After(w))
  {
    var w := ScanValue([], Value, s);
    var _ := ScanSpace([], After(w), ParseValue(s).rest);
  }

  /** No continuation makes it a JSON text. */
  ghost predicate Broken(text: bytes) {
    forall tail :: Parse(text + tail).Fail?
  }

  lemma DeadIsBroken(text: bytes)
    requires Scan(START, text) == Dead
    ensures Broken(text)
  {
    forall tail
      ensures Parse(text + tail).Fail?
    {
      ScanSplit(START, text, tail);
      DeadStays(tail);
      if Parse(text + tail).Ok? {
        TextIsScanned(text + tail);
      }
    }
  }
}
