/** The bitmap index of two- and three-letter sequences. */
module Xgrams {

  const LETTERS := 26

  predicate IsLower(c: char) { 'a' <= c <= 'z' }

  predicate Word(w: string, l: nat) { |w| == l && forall i :: 0 <= i < l ==> IsLower(w[i]) }

  predicate Words(ws: seq<string>, l: nat) { forall i :: 0 <= i < |ws| ==> Word(ws[i], l) }

  function Digit(c: char): (d: nat)
    requires IsLower(c)
    ensures d < LETTERS
  {
    c as int - 'a' as int
  }

  function Power(l: nat): (r: nat)
    ensures r > 0
  {
    if l == 0 then 1 else LETTERS * Power(l - 1)
  }

  /** The base-26 number a word spells. */
  function Code(w: string): (r: nat)
    requires Word(w, |w|)
    ensures r < Power(|w|)
  {
    if w == "" then 0 else Code(w[..|w| - 1]) * LETTERS + Digit(w[|w| - 1])
  }

  /** Words of one length spell different numbers. */
  lemma {:induction false} CodeInjective(v: string, w: string)
    requires Word(v, |w|) && Word(w, |w|) && Code(v) == Code(w)
    ensures v == w
    decreases |w|
  {
    if w != "" {
      var n := |w| - 1;
      assert Digit(v[n]) == Digit(w[n]) && Code(v[..n]) == Code(w[..n]);
      CodeInjective(v[..n], w[..n]);
      assert v == v[..n] + [v[n]] && w == w[..n] + [w[n]];
    }
  }

  /** The 26 letters, and their places. */
  lemma LettersExactly(c: char)
    ensures IsLower(c) <==> c in "abcdefghijklmnopqrstuvwxyz"
    ensures IsLower(c) ==> "abcdefghijklmnopqrstuvwxyz"[Digit(c)] == c
  {
    var letters := "abcdefghijklmnopqrstuvwxyz";
    assert |letters| == 26 && forall i :: 0 <= i < 26 ==> letters[i] as int == 97 + i;
  }

  /** A word of two letters is 26 times the first plus the second, counted from `a`; of three letters likewise. */
  lemma CodeOfTwo(a: char, b: char)
    requires IsLower(a) && IsLower(b)
    ensures Word([a, b], 2) && Code([a, b]) == 26 * (a as int - 97) + (b as int - 97)
  {
    assert [a, b][..1] == [a] && [a][..0] == [];
    assert Word([a, b], 2) && Word([a], 1) && Word("", 0);
    assert Code([a]) == a as int - 97;
  }

  lemma CodeOfThree(a: char, b: char, c: char)
    requires IsLower(a) && IsLower(b) && IsLower(c)
    ensures Word([a, b, c], 3) && Code([a, b, c]) == 676 * (a as int - 97) + 26 * (b as int - 97) + (c as int - 97)
  {
    CodeOfTwo(a, b);
    assert [a, b, c][..2] == [a, b];
  }

  // ---- Bits ----

  const WORD_BITS := 32

  function Two(n: nat): (r: nat)
    ensures r > 0
  {
    if n == 0 then 1 else 2 * Two(n - 1)
  }

  /** `w & (1 << b)`. */
  predicate Bit(w: nat, b: nat) {
    if b == 0 then w % 2 == 1 else Bit(w / 2, b - 1)
  }

  /** `w | (1 << b)`. */
  function SetBit(w: nat, b: nat): nat {
    if b == 0 then w / 2 * 2 + 1 else SetBit(w / 2, b - 1) * 2 + w % 2
  }

  lemma {:induction false} SetBitAdds(w: nat, b: nat)
    ensures SetBit(w, b) == if Bit(w, b) then w else w + Two(b)
  {
    if b > 0 {
      SetBitAdds(w / 2, b - 1);
    }
  }

  lemma {:induction false} SetBitSets(w: nat, b: nat, d: nat)
    ensures Bit(SetBit(w, b), d) <==> Bit(w, d) || b == d
  {
    if b > 0 && d > 0 {
      SetBitSets(w / 2, b - 1, d - 1);
    }
  }

  lemma {:induction false} SetBitFits(w: nat, b: nat, n: nat)
    requires w < Two(n) && b < n
    ensures SetBit(w, b) < Two(n)
  {
    if b > 0 {
      SetBitFits(w / 2, b - 1, n - 1);
    }
  }

  lemma {:induction false} ZeroIsClear(b: nat)
    ensures !Bit(0, b)
  {
    if b > 0 {
      ZeroIsClear(b - 1);
    }
  }

  // ---- The bitmap ----

  function Size(l: nat): nat { (Power(l) + WORD_BITS - 1) / WORD_BITS }

  /** 22 words hold the 676 bits for two letters, 550 the 17576 for three. */
  lemma SizesAre()
    ensures Size(2) == 22 && Size(3) == 550
  {
    assert Power(1) == 26 && Power(2) == 676 && Power(3) == 17576;
  }

  predicate Marked(map_: seq<nat>, c: nat)
    requires c / WORD_BITS < |map_|
  {
    Bit(map_[c / WORD_BITS], c % WORD_BITS)
  }

  predicate Lists(ws: seq<string>, l: nat, c: nat)
    requires Words(ws, l)
  {
    exists i :: 0 <= i < |ws| && Code(ws[i]) == c
  }

  lemma InRange(l: nat, c: nat)
    requires c < Power(l)
    ensures c / WORD_BITS < Size(l)
  {
  }

  /** The bitmap holds exactly the codes of the listed words, in 32-bit words. */
  ghost predicate Indexes(map_: seq<nat>, ws: seq<string>, l: nat) {
    |map_| == Size(l) && Words(ws, l)
    && (forall k :: 0 <= k < |map_| ==> map_[k] < Two(WORD_BITS))
    && forall c: nat :: c / WORD_BITS < |map_| ==> (Marked(map_, c) <==> Lists(ws, l, c))
  }

  lemma IndexOne(map_: seq<nat>, ws: seq<string>, l: nat, w: string)
    requires Indexes(map_, ws, l) && Word(w, l)
    ensures Code(w) / WORD_BITS < |map_|
    ensures var k := Code(w) / WORD_BITS;
            Indexes(map_[k := SetBit(map_[k], Code(w) % WORD_BITS)], ws + [w], l)
  {
    var code := Code(w);
    InRange(l, code);
    var k, b := code / WORD_BITS, code % WORD_BITS;
    var now := map_[k := SetBit(map_[k], b)];
    var all := ws + [w];
    SetBitFits(map_[k], b, WORD_BITS);
    forall c: nat | c / WORD_BITS < |map_|
      ensures Marked(now, c) <==> Lists(all, l, c)
    {
      SetBitSets(map_[k], b, c % WORD_BITS);
      assert Marked(now, c) <==> Marked(map_, c) || c == code;
      ListsOneMore(ws, l, w, c);
    }
  }

  lemma ListsOneMore(ws: seq<string>, l: nat, w: string, c: nat)
    requires Words(ws, l) && Word(w, l)
    ensures Words(ws + [w], l)
    ensures Lists(ws + [w], l, c) <==> Lists(ws, l, c) || c == Code(w)
  {
    var all := ws + [w];
    assert all[|ws|] == w;
    if Lists(ws, l, c) {
      var i :| 0 <= i < |ws| && Code(ws[i]) == c;
      assert Code(all[i]) == c;
    }
    if Lists(all, l, c) {
      var i :| 0 <= i < |all| && Code(all[i]) == c;
      assert i < |ws| ==> Code(ws[i]) == c;
    }
  }

  lemma ListsExactly(ws: seq<string>, l: nat, w: string)
    requires Words(ws, l) && Word(w, l)
    ensures Lists(ws, l, Code(w)) <==> w in ws
  {
    if Lists(ws, l, Code(w)) {
      var i :| 0 <= i < |ws| && Code(ws[i]) == Code(w);
      CodeInjective(ws[i], w);
    }
  }

  /** The code of the first letters; none if one of them is not a lower-case letter. */
  method Spell(w: string, l: nat) returns (ok: bool, c: nat)
    ensures ok <==> Word(w[..Taken(w, l)], Taken(w, l))
    ensures ok ==> c == Code(w[..Taken(w, l)])
  {
    ok, c := true, 0;
    var i := 0;
    while i < |w| && i < l
      invariant 0 <= i <= Taken(w, l) && ok && Word(w[..i], i) && c == Code(w[..i])
    {
      if !IsLower(w[i]) {
        assert w[..Taken(w, l)][i] == w[i];
        ok := false;
        return;
      }
      assert w[..i + 1][..i] == w[..i];
      c := c * LETTERS + Digit(w[i]);
      i := i + 1;
    }
  }

  function Taken(w: string, l: nat): nat { if |w| < l then |w| else l }

  /** `ndpi_xgrams_init`; a false result stands for `abort`. */
  method Init(dst: array<nat>, ws: seq<string>, l: nat) returns (ok: bool)
    requires Power(l) <= 0x1_0000_0000 && dst.Length == Size(l) && forall k :: 0 <= k < dst.Length ==> dst[k] == 0
    modifies dst
    ensures ok <==> Words(ws, l)
    ensures ok ==> Indexes(dst[..], ws, l)
  {
    ok := true;
    var i := 0;
    EmptyIndex(dst[..], l);
    assert ws[..0] == [];
    while i < |ws|
      invariant 0 <= i <= |ws| && ok && Indexes(dst[..], ws[..i], l)
    {
      var lower, c := Spell(ws[i], l);
      assert |ws[i]| == l ==> ws[i][..l] == ws[i];
      assert lower && |ws[i]| == l ==> c / WORD_BITS < Size(l);
      if !lower || |ws[i]| != l || c / 8 >= dst.Length * 4 {
        assert !Word(ws[i], l);
        ok := false;
        return;
      }
      IndexOne(dst[..], ws[..i], l, ws[i]);
      assert ws[..i + 1] == ws[..i] + [ws[i]];
      dst[c / WORD_BITS] := SetBit(dst[c / WORD_BITS], c % WORD_BITS);
      i := i + 1;
    }
    assert ws[..i] == ws;
  }

  lemma EmptyIndex(map_: seq<nat>, l: nat)
    requires |map_| == Size(l) && forall k :: 0 <= k < |map_| ==> map_[k] == 0
    ensures Indexes(map_, [], l)
  {
    forall c: nat | c / WORD_BITS < |map_|
      ensures !Marked(map_, c)
    {
      ZeroIsClear(c % WORD_BITS);
    }
  }

  /** What a text is looked up as: its first letters, a shorter text counting as padded with `a` in front. */
  function Lookup(s: string, l: nat): (r: string)
    ensures |r| == l
  {
    if |s| >= l then s[..l] else seq(l - |s|, _ => 'a') + s
  }

  /** The one letter `b` is looked up as `ab`. */
  lemma ShortExample()
    ensures Lookup("b", 2) == "ab"
  {
    assert seq(1, _ => 'a') == "a";
  }

  lemma {:induction false} PaddedCode(n: nat, s: string)
    requires Word(s, |s|)
    ensures var t := seq(n, _ => 'a') + s; Word(t, |t|) && Code(t) == Code(s)
    decreases n + |s|
  {
    var t := seq(n, _ => 'a') + s;
    if s != "" {
      var m := |s| - 1;
      PaddedCode(n, s[..m]);
      assert t[..|t| - 1] == seq(n, _ => 'a') + s[..m];
    } else if n > 0 {
      PaddedCode(n - 1, "");
      assert t[..n - 1] == seq(n - 1, _ => 'a') + "";
    }
  }

  lemma NotAWord(s: string, l: nat)
    requires !Word(s[..Taken(s, l)], Taken(s, l))
    ensures !Word(Lookup(s, l), l)
  {
    var n := Taken(s, l);
    var i :| 0 <= i < n && !IsLower(s[..n][i]);
    assert Lookup(s, l)[l - n + i] == s[i];
  }

  /** `ndpi_match_xgram`: a text matches exactly when what it is looked up as is a listed word. */
  method Match(map_: seq<nat>, l: nat, s: string, ghost ws: seq<string>) returns (r: bool)
    requires Power(l) <= 0x1_0000_0000 && Indexes(map_, ws, l)
    ensures r <==> Lookup(s, l) in ws
  {
    var ok, c := Spell(s, l);
    if !ok {
      NotAWord(s, l);
      return false;
    }
    LookedUp(map_, l, s, ws, c);
    r := Bit(map_[c / WORD_BITS], c % WORD_BITS);
  }

  lemma LookupCode(l: nat, s: string)
    requires Word(s[..Taken(s, l)], Taken(s, l))
    ensures Word(Lookup(s, l), l) && Code(Lookup(s, l)) == Code(s[..Taken(s, l)])
  {
    var n := Taken(s, l);
    PaddedCode(l - n, s[..n]);
    assert Lookup(s, l) == seq(l - n, _ => 'a') + s[..n];
  }

  lemma LookedUp(map_: seq<nat>, l: nat, s: string, ws: seq<string>, c: nat)
    requires Indexes(map_, ws, l) && Word(s[..Taken(s, l)], Taken(s, l)) && c == Code(s[..Taken(s, l)])
    ensures c / WORD_BITS < |map_|
    ensures Marked(map_, c) <==> Lookup(s, l) in ws
  {
    LookupCode(l, s);
    InRange(l, c);
    ListsExactly(ws, l, Lookup(s, l));
  }
}
