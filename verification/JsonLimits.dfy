/**
 Lost JSON texts: those whose kept part no further bytes complete, whatever the writer is called with
 next. What one call does to a scanner over the text, and that being lost is closed under every call.
 */
module JsonLimits {
  import opened Bytes
  import opened Calls
  import opened JsonText
  import opened JsonScan
  import opened Documents
  import opened Rollbacks
  import opened JsonKept
  import JM = JsonMeaning

  // ---- The scanner over one call ----

  predicate Plain(sg: Scanner) { sg.At? ==> !sg.mode.Text? && !sg.mode.Escape? }

  /** A string, and a number or word. */
  function Str(sg: Scanner): Scanner {
    match sg
    case Dead => Dead
    case At(stack, m) =>
      if Wants(m) then At(stack, After(false)) else if m.Key? || m.KeyOrEnd? then At(stack, Colon) else Dead
  }

  function Word(sg: Scanner): Scanner {
    match sg
    case Dead => Dead
    case At(stack, m) => if Wants(m) || m == After(true) then At(stack, After(true)) else Dead
  }

  function Leaf(sg: Scanner, v: Val): Scanner { if v.Bin? then Str(sg) else Word(sg) }

  /** A name and its colon. */
  function Name(sg: Scanner): Scanner { Next(Str(sg), COLON) }

  function Open(sg: Scanner, bracket: byte): Scanner { Next(Name(sg), bracket) }

  function Resume(sg: Scanner, f: Flags): Scanner {
    if f.eor then Next(Next(sg, COMMA), LBRACE)
    else if f.list then if f.sol then sg else Next(sg, COMMA)
    else if f.sob then sg
    else if f.comma then Next(sg, COMMA)
    else sg
  }

  function CloseStub(sg: Scanner, f: Flags): Scanner {
    Next(if f.list then Next(sg, RBRACKET) else sg, RBRACE)
  }

  function CloseAll(sg: Scanner, f: Flags): Scanner {
    if f.inArray then Next(CloseStub(sg, f), RBRACKET) else CloseStub(sg, f)
  }

  function Move(sg: Scanner, f: Flags, c: Call): Scanner {
    match c
    case Put(_, v) => var r := Resume(sg, f); Leaf(if f.list then r else Name(r), v)
    case StartList(_) => Open(Resume(sg, f), LBRACKET)
    case EndList => if !f.eor && f.list then Next(sg, RBRACKET) else sg
    case StartBlock(_) => Open(Resume(sg, f), LBRACE)
    case EndBlock => if f.eor then CloseStub(Next(sg, RBRACKET), f) else CloseAll(sg, f)
    case EndRecord => if f.eor then sg else if f.inArray then CloseStub(sg, f) else CloseAll(sg, f)
  }

  lemma PlainNext(sg: Scanner, b: byte)
    requires Plain(sg) && b != QUOTE
    ensures Plain(Next(sg, b))
  {
  }

  lemma ScanQuoted(sg: Scanner, s: bytes, sc: bool)
    requires Plain(sg)
    ensures Scan(sg, Quoted(s, sc)) == Str(sg) && Plain(Str(sg))
  {
    var q := Quoted(s, sc);
    assert q[0] == QUOTE;
    if sg.At? && (Wants(sg.mode) || sg.mode.Key? || sg.mode.KeyOrEnd?) {
      ParseQuoted(s, sc, []);
      assert q + [] == q;
      ScanString(sg.stack, sg.mode, q);
    } else {
      assert Next(sg, QUOTE) == Dead;
      DeadStays(q[1..]);
    }
  }

  /** Word characters, at least one. */
  lemma ScanWordText(sg: Scanner, s: bytes)
    requires Plain(sg) && s != [] && forall i :: 0 <= i < |s| ==> WordByte(s[i])
    ensures Scan(sg, s) == Word(sg) && Plain(Word(sg))
  {
    if sg.At? && (Wants(sg.mode) || sg.mode == After(true)) {
      ScanWord(sg.stack, sg.mode, s, |s|);
    } else {
      assert Next(sg, s[0]) == Dead;
      DeadStays(s[1..]);
    }
  }

  lemma NumbersAreWords(i: int)
    ensures var s := IntText(i); s != [] && forall k :: 0 <= k < |s| ==> WordByte(s[k])
  {
    assert forall n: nat, k :: 0 <= k < |Decimal(n)| ==> IsDigit(Decimal(n)[k]);
  }

  lemma ScanLeaf(sg: Scanner, v: Val, sc: bool)
    requires Plain(sg) && ValidVal(v) && !v.Flt?
    ensures Scan(sg, ValText(v, sc)) == Leaf(sg, v) && Plain(Leaf(sg, v))
  {
    match v {
      case Bin(s) => ScanQuoted(sg, s, sc);
      case Bool(b) => ScanWordText(sg, if b then TRUE else FALSE);
      case U32(n) => NumbersAreWords(n); ScanWordText(sg, IntText(n));
      case U64(n) => NumbersAreWords(n); ScanWordText(sg, IntText(n));
      case I32(i) => NumbersAreWords(i); ScanWordText(sg, IntText(i));
      case I64(i) => NumbersAreWords(i); ScanWordText(sg, IntText(i));
    }
  }

  lemma ScanName(sg: Scanner, s: bytes, sc: bool)
    requires Plain(sg)
    ensures Scan(sg, Quoted(s, sc) + [COLON]) == Name(sg) && Plain(Name(sg))
  {
    ScanQuoted(sg, s, sc);
    ScanSplit(sg, Quoted(s, sc), [COLON]);
    ScanOne(Str(sg), COLON);
    PlainNext(Str(sg), COLON);
  }

  lemma ScanOpen(sg: Scanner, s: bytes, bracket: byte, sc: bool)
    requires Plain(sg) && (bracket == LBRACE || bracket == LBRACKET)
    ensures Scan(sg, OpenText(s, bracket, sc)) == Open(sg, bracket) && Plain(Open(sg, bracket))
  {
    ScanName(sg, s, sc);
    assert OpenText(s, bracket, sc) == Quoted(s, sc) + [COLON] + [SPACE, bracket];
    ScanSplit(sg, Quoted(s, sc) + [COLON], [SPACE, bracket]);
    ScanTwo(Name(sg), SPACE, bracket);
    assert Name(sg) == Dead || Name(sg) == At(Name(sg).stack, Value);
  }

  lemma ScanTwo(sg: Scanner, b: byte, c: byte)
    ensures Scan(sg, [b, c]) == Next(Next(sg, b), c)
  {
    assert [b, c] == [b] + [c];
    ScanSplit(sg, [b], [c]);
    ScanOne(sg, b);
    ScanOne(Next(sg, b), c);
  }

  lemma ScanPause(sg: Scanner, f: Flags)
    requires Plain(sg)
    ensures Scan(sg, Pause(f)) == Resume(sg, f) && Plain(Resume(sg, f))
  {
    ScanOne(sg, COMMA);
    ScanTwo(sg, COMMA, LBRACE);
  }

  lemma ScanStub(sg: Scanner, f: Flags)
    requires Plain(sg)
    ensures Scan(sg, Stub(f)) == CloseStub(sg, f) && Plain(CloseStub(sg, f))
  {
    ScanOne(sg, RBRACE);
    ScanTwo(sg, RBRACKET, RBRACE);
    assert [RBRACKET] + [RBRACE] == [RBRACKET, RBRACE] && [] + [RBRACE] == [RBRACE];
  }

  lemma ScanClosers(sg: Scanner, f: Flags)
    requires Plain(sg)
    ensures Scan(sg, Closers(f)) == CloseAll(sg, f) && Plain(CloseAll(sg, f))
  {
    ScanStub(sg, f);
    if f.inArray {
      assert Closers(f) == Stub(f) + [RBRACKET];
      ScanSplit(sg, Stub(f), [RBRACKET]);
      ScanOne(CloseStub(sg, f), RBRACKET);
    } else {
      assert Closers(f) == Stub(f);
    }
  }

  lemma ScanPut(sg: Scanner, k: Key, v: Val, inList: bool, sc: bool)
    requires Plain(sg) && ValidVal(v) && !v.Flt?
    ensures var r := Leaf(if inList then sg else Name(sg), v); Scan(sg, PutText(k, v, inList, sc)) == r && Plain(r)
  {
    if inList {
      ScanLeaf(sg, v, sc);
      GlueEmpty(ValText(v, sc));
    } else {
      JM.KeyIsName(NormKey(k), sc);
      ScanName(sg, JM.Name(NormKey(k)), sc);
      ScanLeaf(Name(sg), v, sc);
      ScanSplit(sg, KeyText(NormKey(k), sc), ValText(v, sc));
    }
  }

  /** The scanner over what a call adds. */
  lemma ScanWritten(sg: Scanner, f: Flags, c: Call, sc: bool)
    requires Plain(sg) && Spellable(c)
    ensures Scan(sg, Written(f, c, sc)) == Move(sg, f, c) && Plain(Move(sg, f, c))
  {
    match c {
      case Put(k, v) =>
        ScanPause(sg, f);
        ScanSplit(sg, Pause(f), PutText(k, v, f.list, sc));
        ScanPut(Resume(sg, f), k, v, f.list, sc);
      case StartList(name) =>
        ScanPause(sg, f);
        ScanSplit(sg, Pause(f), OpenText(name, LBRACKET, sc));
        ScanOpen(Resume(sg, f), name, LBRACKET, sc);
      case StartBlock(name) =>
        ScanPause(sg, f);
        ScanSplit(sg, Pause(f), OpenText(name, LBRACE, sc));
        ScanOpen(Resume(sg, f), name, LBRACE, sc);
      case EndList => ScanOne(sg, RBRACKET);
      case EndBlock =>
        ScanClosers(sg, f);
        ScanOne(sg, RBRACKET);
        ScanSplit(sg, [RBRACKET], Stub(f));
        ScanStub(Next(sg, RBRACKET), f);
      case EndRecord =>
        ScanClosers(sg, f);
        ScanStub(sg, f);
    }
  }

  // ---- Lost texts ----

  predicate Two(stack: seq<Frame>) { |stack| >= 2 && Top(stack, InObj) && Top(Pop(stack), InObj) }

  /** Behind the first end of record, where each record has one brace to close it. */
  predicate LostLater(f: Flags, b: Scanner) {
    || b == Dead
    || (b.At? && if f.eor then Top(b.stack, InObj) && b.mode.After? else
          // a block is open
          || (!f.list && Two(b.stack) && (b.mode.KeyOrEnd? || b.mode.After?))
          || (f.list && Top(b.stack, InArr) && Two(Pop(b.stack)) && (b.mode.ValueOrEnd? || b.mode.After?))
          || (f.list && Two(b.stack) && b.mode.KeyOrEnd?)
          // a name without a value
          || (f.list && b.mode.Colon?)
          // the array is closed
          || (b.stack == [] && b.mode == After(false)))
  }

  /** Before it: `a` scans the text as it is, `b` as it will be once its first byte is a bracket. */
  predicate LostFirst(f: Flags, a: Scanner, b: Scanner) {
    !f.eor && (
      || (a == Dead && b == Dead)
      || (f.list && !f.sol && a.At? && b.At? && Top(a.stack, InObj) && Top(b.stack, InObj) && a.mode.KeyOrEnd? && b.mode.KeyOrEnd?)
      || (f.list && f.sol && a.At? && b.At? && Top(a.stack, InObj) && Top(b.stack, InObj)
          && a.mode == After(false) && b.mode == After(false))
      || (f.list && a.At? && b.At? && a.mode.Colon? && b.mode.Colon?)
      || ((a == Dead || a == At([], After(false)))
          && b.At? && b.mode.After? && (b.stack == [InArr] || (b.stack == [] && !b.mode.word && !f.list))))
  }

  predicate Lost(f: Flags, a: Scanner, b: Scanner) {
    if f.inArray then LostLater(f, b) else LostFirst(f, a, b)
  }

  /** A name and a bracket, if they do not stop the scanner, add one frame. */
  lemma OpenPushes(sg: Scanner, bracket: byte)
    requires bracket == LBRACE || bracket == LBRACKET
    ensures var r := Open(sg, bracket);
            r == Dead
            || (sg.At? && (sg.mode.Key? || sg.mode.KeyOrEnd?)
                && r == if bracket == LBRACE then At(sg.stack + [InObj], KeyOrEnd) else At(sg.stack + [InArr], ValueOrEnd))
  {
  }

  /** Where a name can still come behind the first end of record, a block is open. */
  lemma NameNeedsBlock(f: Flags, b: Scanner)
    requires f.inArray && LostLater(f, b)
    ensures var r := Resume(b, f); r.At? && (r.mode.Key? || r.mode.KeyOrEnd?) ==> Two(r.stack) && !f.eor
  {
  }

  lemma LostLaterOpens(f: Flags, b: Scanner, c: Call)
    requires f.inArray && LostLater(f, b) && (c.StartList? || c.StartBlock?)
    ensures LostLater(NextFlags(f, c), Move(b, f, c))
  {
    var r := Resume(b, f);
    NameNeedsBlock(f, b);
    OpenPushes(r, if c.StartList? then LBRACKET else LBRACE);
    if r.At? {
      Pushed(r.stack, InArr);
      Pushed(r.stack, InObj);
    }
  }

  lemma Pushed(stack: seq<Frame>, f: Frame)
    ensures Top(stack + [f], f) && Pop(stack + [f]) == stack
  {
  }

  lemma LostLaterPuts(f: Flags, b: Scanner, c: Call)
    requires f.inArray && LostLater(f, b) && c.Put?
    ensures LostLater(NextFlags(f, c), Move(b, f, c))
  {
  }

  lemma LostLaterEnds(f: Flags, b: Scanner, c: Call)
    requires f.inArray && LostLater(f, b) && (c.EndList? || c.EndBlock? || c.EndRecord?)
    ensures LostLater(NextFlags(f, c), Move(b, f, c))
  {
  }

  lemma LostLaterStays(f: Flags, b: Scanner, c: Call)
    requires f.inArray && LostLater(f, b)
    ensures LostLater(NextFlags(f, c), Move(b, f, c))
  {
    match c {
      case Put(_, _) => LostLaterPuts(f, b, c);
      case StartList(_) => LostLaterOpens(f, b, c);
      case StartBlock(_) => LostLaterOpens(f, b, c);
      case _ => LostLaterEnds(f, b, c);
    }
  }

  lemma LostFirstOpens(f: Flags, a: Scanner, b: Scanner, c: Call)
    requires !f.inArray && LostFirst(f, a, b) && (c.StartList? || c.StartBlock?)
    ensures LostFirst(NextFlags(f, c), Move(a, f, c), Move(b, f, c))
  {
  }

  lemma LostFirstPuts(f: Flags, a: Scanner, b: Scanner, c: Call)
    requires !f.inArray && LostFirst(f, a, b) && c.Put?
    ensures LostFirst(NextFlags(f, c), Move(a, f, c), Move(b, f, c))
  {
  }

  lemma LostFirstEnds(f: Flags, a: Scanner, b: Scanner, c: Call)
    requires !f.inArray && LostFirst(f, a, b) && (c.EndList? || c.EndBlock? || c.EndRecord?)
    ensures Lost(NextFlags(f, c), Move(a, f, c), Move(b, f, c))
  {
  }

  lemma LostFirstStays(f: Flags, a: Scanner, b: Scanner, c: Call)
    requires !f.inArray && LostFirst(f, a, b)
    ensures Lost(NextFlags(f, c), Move(a, f, c), Move(b, f, c))
  {
    match c {
      case Put(_, _) => LostFirstPuts(f, a, b, c);
      case StartList(_) => LostFirstOpens(f, a, b, c);
      case StartBlock(_) => LostFirstOpens(f, a, b, c);
      case _ => LostFirstEnds(f, a, b, c);
    }
  }

  lemma LostIsDead(f: Flags, a: Scanner, b: Scanner)
    requires Lost(f, a, b) && (f.eor ==> f.inArray)
    ensures var sg := if f.inArray then b else a;
            (if f.eor then Next(sg, RBRACKET) else CloseAll(sg, f)) == Dead
  {
  }

  // ---- Documents ----

  /** A text whose first byte is a bracket. */
  const ARRAY := At([InArr], ValueOrEnd)

  function Spaced(d: Doc): Scanner
    requires Sound(d)
  {
    Scan(START, Inner(d))
  }

  function Bracketed(d: Doc): Scanner
    requires Sound(d)
  {
    Scan(ARRAY, Inner(d))
  }

  ghost predicate LostDoc(d: Doc) {
    Scannable(d) && Lost(d.flags, Spaced(d), Bracketed(d))
  }

  /** Both scanners are outside strings; behind the first end of record only the second one matters. */
  ghost predicate Scannable(d: Doc) {
    Sound(d) && Plain(Bracketed(d)) && (!d.flags.inArray ==> Plain(Spaced(d)))
  }

  lemma StepMoves(d: Doc, c: Call, sc: bool)
    requires Scannable(d) && Spellable(c)
    ensures var e := StepJson(d, c, sc);
            && Scannable(e) && e.flags == NextFlags(d.flags, c)
            && (!d.flags.inArray ==> Spaced(e) == Move(Spaced(d), d.flags, c))
            && Bracketed(e) == Move(Bracketed(d), d.flags, c)
  {
    StepWrites(d, c, sc);
    var w := Written(d.flags, c, sc);
    ScanSplit(ARRAY, Inner(d), w);
    ScanWritten(Bracketed(d), d.flags, c, sc);
    if !d.flags.inArray {
      ScanSplit(START, Inner(d), w);
      ScanWritten(Spaced(d), d.flags, c, sc);
    }
  }

  /** The scanner over the whole text. */
  lemma ScanText(d: Doc)
    requires Sound(d)
    ensures Scan(START, d.text) == Scan(if d.flags.inArray then Bracketed(d) else Spaced(d), Tail(d.flags))
  {
    TextParts(d);
    ScanPieces(d.text[0], Inner(d), Tail(d.flags));
    assert Next(START, d.text[0]) == if d.flags.inArray then ARRAY else START;
  }

  lemma ScanPieces(x: byte, y: bytes, t: bytes)
    ensures Scan(START, [x] + y + t) == Scan(Scan(Next(START, x), y), t)
  {
    ScanSplit(START, [x] + y, t);
    ScanSplit(START, [x], y);
    ScanOne(START, x);
  }

  lemma LostIsBroken(d: Doc)
    requires LostDoc(d)
    ensures Broken(d.text)
  {
    ScanText(d);
    LostIsDead(d.flags, Spaced(d), Bracketed(d));
    var sg := if d.flags.inArray then Bracketed(d) else Spaced(d);
    ScanOne(sg, RBRACKET);
    ScanClosers(sg, d.flags);
    DeadIsBroken(d.text);
  }

  lemma LostStays(d: Doc, c: Call, sc: bool)
    requires LostDoc(d) && Spellable(c)
    ensures LostDoc(StepJson(d, c, sc))
  {
    StepMoves(d, c, sc);
    if d.flags.inArray {
      LostLaterStays(d.flags, Bracketed(d), c);
    } else {
      LostFirstStays(d.flags, Spaced(d), Bracketed(d), c);
    }
  }

  // ---- The scanner over the states of JsonMeaning ----

  lemma ScanTwoParts(sg: Scanner, s: bytes, t: bytes, mid: Scanner, end: Scanner)
    requires Scan(sg, s) == mid && Scan(mid, t) == end
    ensures Scan(sg, s + t) == end
  {
    ScanSplit(sg, s, t);
  }

  lemma ScanThreeParts(sg: Scanner, s: bytes, t: bytes, u: bytes, one: Scanner, two: Scanner, end: Scanner)
    requires Scan(sg, s) == one && Scan(one, t) == two && Scan(two, u) == end
    ensures Scan(sg, s + t + u) == end
  {
    ScanSplit(sg, s, t);
    ScanSplit(sg, s + t, u);
  }

  /** A name and an opening bracket where a name may come. */
  lemma ScanOpened(stack: seq<Frame>, m: Mode, name: bytes, bracket: byte, sc: bool)
    requires (m.Key? || m.KeyOrEnd?) && (bracket == LBRACE || bracket == LBRACKET)
    ensures Scan(At(stack, m), OpenText(name, bracket, sc))
         == if bracket == LBRACE then At(stack + [InObj], KeyOrEnd) else At(stack + [InArr], ValueOrEnd)
  {
    ScanOpen(At(stack, m), name, bracket, sc);
  }

  lemma ScanPrinted(stack: seq<Frame>, m: Mode, v: Json, sc: bool) returns (w: bool)
    requires Wants(m)
    ensures Scan(At(stack, m), Print(v, sc)) == At(stack, After(w))
  {
    ParsePrinted(v, sc, []);
    assert Print(v, sc) + [] == Print(v, sc);
    w := ScanValue(stack, m, Print(v, sc));
  }

  lemma ScanMember(stack: seq<Frame>, m: Mode, x: Member, sc: bool) returns (w: bool)
    requires m.Key? || m.KeyOrEnd?
    ensures Scan(At(stack, m), PrintMember(x, sc)) == At(stack, After(w))
  {
    var q, sep, v := Quoted(x.key, sc), Separator(x.value), Print(x.value, sc);
    ScanQuoted(At(stack, m), x.key, sc);
    ScanSplit(At(stack, m), q + sep, v);
    ScanSplit(At(stack, m), q, sep);
    ScanOne(At(stack, Colon), COLON);
    ScanTwo(At(stack, Colon), COLON, SPACE);
    w := ScanPrinted(stack, Value, x.value, sc);
  }

  /** Members, from the brace on. */
  lemma {:induction false} ScanMembersOf(stack: seq<Frame>, ms: seq<Member>, sc: bool) returns (w: bool)
    requires Top(stack, InObj)
    ensures Scan(At(stack, KeyOrEnd), PrintMembers(ms, sc)) == At(stack, if ms == [] then KeyOrEnd else After(w))
  {
    w := false;
    if ms != [] {
      var front, x := ms[..|ms| - 1], ms[|ms| - 1];
      var sg := At(stack, KeyOrEnd);
      w := ScanMembersOf(stack, front, sc);
      var before := ScanFront(stack, front, w, sc);
      w := ScanMember(stack, before, x, sc);
      ScanSplit(sg, PrintMembers(front, sc) + Comma(front), PrintMember(x, sc));
    }
  }

  lemma ScanFront(stack: seq<Frame>, front: seq<Member>, w: bool, sc: bool) returns (m: Mode)
    requires Top(stack, InObj)
    requires Scan(At(stack, KeyOrEnd), PrintMembers(front, sc)) == At(stack, if front == [] then KeyOrEnd else After(w))
    ensures m.Key? || m.KeyOrEnd?
    ensures Scan(At(stack, KeyOrEnd), PrintMembers(front, sc) + Comma(front)) == At(stack, m)
  {
    ScanSplit(At(stack, KeyOrEnd), PrintMembers(front, sc), Comma(front));
    ScanOne(At(stack, After(w)), COMMA);
    m := if front == [] then KeyOrEnd else Key;
  }

  lemma {:induction false} ScanElemsOf(stack: seq<Frame>, es: seq<Json>, sc: bool) returns (w: bool)
    requires Top(stack, InArr)
    ensures Scan(At(stack, ValueOrEnd), PrintElems(es, sc)) == At(stack, if es == [] then ValueOrEnd else After(w))
  {
    w := false;
    if es != [] {
      var front, x := es[..|es| - 1], es[|es| - 1];
      var sg := At(stack, ValueOrEnd);
      w := ScanElemsOf(stack, front, sc);
      ScanSplit(sg, PrintElems(front, sc), Comma(front));
      ScanOne(At(stack, After(w)), COMMA);
      ScanSplit(sg, PrintElems(front, sc) + Comma(front), Print(x, sc));
      w := ScanPrinted(stack, if front == [] then ValueOrEnd else Value, x, sc);
    }
  }

  /** One frame for each open level. */
  function Levels(base: seq<Frame>, ctx: JM.Ctx): (stack: seq<Frame>)
    ensures Top(stack, InObj) && |stack| == |base| + JM.Depth(ctx) + 1
    ensures if ctx.Root? then Pop(stack) == base else Top(Pop(stack), InObj) && Pop(stack) == Levels(base, ctx.outer)
  {
    (if ctx.Root? then base else Levels(base, ctx.outer)) + [InObj]
  }

  lemma {:induction false} ScanOpening(base: seq<Frame>, m: Mode, ctx: JM.Ctx, sc: bool)
    requires Wants(m)
    ensures Scan(At(base, m), JM.Opening(ctx, sc)) == At(Levels(base, ctx), KeyOrEnd)
    decreases ctx
  {
    var sg := At(base, m);
    match ctx {
      case Root(_) => ScanOne(sg, LBRACE);
      case Block(outer, name, _) =>
        ScanOpening(base, m, outer, sc);
        var stack := Levels(base, outer);
        var w := ScanMembersOf(stack, outer.ms, sc);
        var k := ScanFront(stack, outer.ms, w, sc);
        ScanOpened(stack, k, name, LBRACE, sc);
        var o, ps, c := JM.Opening(outer, sc), PrintMembers(outer.ms, sc), Comma(outer.ms);
        Glue3(o, ps, c);
        ScanThreeParts(sg, o, ps + c, OpenText(name, LBRACE, sc), At(stack, KeyOrEnd), At(stack, k), At(stack + [InObj], KeyOrEnd));
    }
  }

  lemma ScanBody(base: seq<Frame>, m: Mode, ctx: JM.Ctx, sc: bool) returns (w: bool)
    requires Wants(m)
    ensures Scan(At(base, m), JM.Body(ctx, sc)) == At(Levels(base, ctx), if ctx.ms == [] then KeyOrEnd else After(w))
  {
    ScanOpening(base, m, ctx, sc);
    w := ScanMembersOf(Levels(base, ctx), ctx.ms, sc);
    ScanSplit(At(base, m), JM.Opening(ctx, sc), PrintMembers(ctx.ms, sc));
  }

  /** The same with the last member a list that is still open. */
  lemma ScanListBody(base: seq<Frame>, m: Mode, ctx: JM.Ctx, sc: bool) returns (w: bool)
    requires Wants(m) && JM.ListLast(ctx.ms)
    ensures Scan(At(base, m), JM.Opening(ctx, sc) + JM.PrintListOpen(ctx.ms, sc))
         == At(Levels(base, ctx) + [InArr], if ctx.ms[|ctx.ms| - 1].value.elems == [] then ValueOrEnd else After(w))
  {
    var stack := Levels(base, ctx);
    ScanOpening(base, m, ctx, sc);
    w := ScanListOpen(stack, ctx.ms, sc);
    var es := ctx.ms[|ctx.ms| - 1].value.elems;
    ScanTwoParts(At(base, m), JM.Opening(ctx, sc), JM.PrintListOpen(ctx.ms, sc), At(stack, KeyOrEnd),
                 At(stack + [InArr], if es == [] then ValueOrEnd else After(w)));
  }

  lemma ScanListOpen(stack: seq<Frame>, ms: seq<Member>, sc: bool) returns (w: bool)
    requires Top(stack, InObj) && JM.ListLast(ms)
    ensures Scan(At(stack, KeyOrEnd), JM.PrintListOpen(ms, sc))
         == At(stack + [InArr], if ms[|ms| - 1].value.elems == [] then ValueOrEnd else After(w))
  {
    var front, x := ms[..|ms| - 1], ms[|ms| - 1];
    w := ScanMembersOf(stack, front, sc);
    var k := ScanFront(stack, front, w, sc);
    ScanOpened(stack, k, x.key, LBRACKET, sc);
    var es := x.value.elems;
    w := ScanElemsOf(stack + [InArr], es, sc);
    ScanThreeParts(At(stack, KeyOrEnd), PrintMembers(front, sc) + Comma(front), OpenText(x.key, LBRACKET, sc), PrintElems(es, sc),
                   At(stack, k), At(stack + [InArr], ValueOrEnd), At(stack + [InArr], if es == [] then ValueOrEnd else After(w)));
  }
}
