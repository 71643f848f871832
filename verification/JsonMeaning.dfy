/**
 What a JSON buffer means. The tree built by the calls is kept beside the text; after every
 call the text, with one '}' added per open block, parses to that tree.
 */
module JsonMeaning {
  import opened Bytes
  import opened Calls
  import opened JsonText
  import opened Documents

  /** The record being written: its members so far, and the blocks still open around them. */
  datatype Ctx = Root(ms: seq<Member>) | Block(outer: Ctx, name: bytes, ms: seq<Member>)

  /**
   `First`: no end-of-record yet. `Between`: just behind an end-of-record.
   `Later`: in a further record. While `inList`, the last member is the list being filled.
   */
  datatype State =
    | First(ctx: Ctx, inList: bool)
    | Between(done: seq<Json>)
    | Later(done: seq<Json>, ctx: Ctx, inList: bool)

  const START := First(Root([]), false)

  function Depth(ctx: Ctx): nat {
    match ctx
    case Root(_) => 0
    case Block(outer, _, _) => 1 + Depth(outer)
  }

  function Add(ctx: Ctx, m: Member): (r: Ctx)
    ensures Depth(r) == Depth(ctx)
  {
    ctx.(ms := ctx.ms + [m])
  }

  predicate ListLast(ms: seq<Member>) {
    ms != [] && ms[|ms| - 1].value.Arr?
  }

  function LongerList(ms: seq<Member>, v: Json): (r: seq<Member>)
    requires ListLast(ms)
    ensures ListLast(r)
  {
    var m := ms[|ms| - 1];
    ms[..|ms| - 1] + [Member(m.key, Arr(m.value.elems + [v]))]
  }

  function AddElem(ctx: Ctx, v: Json): Ctx
    requires ListLast(ctx.ms)
  {
    ctx.(ms := LongerList(ctx.ms, v))
  }

  function Close(ctx: Ctx): Json
    decreases Depth(ctx)
  {
    match ctx
    case Root(ms) => Obj(ms)
    case Block(outer, name, ms) => Close(Add(outer, Member(name, Obj(ms))))
  }

  predicate Proper(st: State) {
    match st
    case First(ctx, inList) => inList ==> ListLast(ctx.ms)
    case Between(done) => done != []
    case Later(done, ctx, inList) => done != [] && ctx.Root? && (inList ==> ListLast(ctx.ms))
  }

  /** The tree written so far; open blocks count as closed. */
  function Tree(st: State): Json {
    match st
    case First(ctx, _) => Close(ctx)
    case Between(done) => Arr(done)
    case Later(done, ctx, _) => Arr(done + [Close(ctx)])
  }

  function OpenBlocks(st: State): nat {
    if st.First? then Depth(st.ctx) else 0
  }

  // ---- Calls on trees ----

  function Leaf(v: Val): Json
    requires !v.Flt?
  {
    match v
    case U32(n) => Num(n)
    case U64(n) => Num(n)
    case I32(i) => Num(i)
    case I64(i) => Num(i)
    case Bin(s) => Str(s)
    case Bool(b) => Truth(b)
  }

  function Name(k: Key): bytes {
    match k
    case NumKey(n) => Decimal(n)
    case StrKey(s) => s
  }

  lemma DecimalMore(n: nat, d: nat)
    requires n > 0 && d < 10
    ensures Decimal(n * 10 + d) == Decimal(n) + [ZERO + d]
  {
    assert (n * 10 + d) / 10 == n && (n * 10 + d) % 10 == d;
  }

  lemma {:induction false} DecimalOfAtoi(s: bytes)
    requires IsNumber(s)
    ensures Decimal(Atoi(s)) == s <==> s == [ZERO] || (s != [] && s[0] != ZERO)
  {
    if s != [] && s[0] != ZERO {
      var front, d := s[..|s| - 1], s[|s| - 1];
      assert s == front + [d];
      if front == [] {
        assert Atoi(s) == d - ZERO;
      } else {
        DecimalOfAtoi(front);
        DecimalMore(Atoi(front), d - ZERO);
      }
    } else if s == [ZERO] {
      assert s[..0] == [] && Atoi(s) == 0;
    }
  }

  /**
   The writers rename all-digit names by `atoi`. A name comes out as given exactly if it has a
   non-digit, or is a decimal number without leading zeros.
   */
  lemma NameExactly(s: bytes)
    ensures Name(NormKey(StrKey(s))) == s <==> !IsNumber(s) || s == [ZERO] || (s != [] && s[0] != ZERO)
  {
    if IsNumber(s) {
      DecimalOfAtoi(s);
    }
  }

  /** "007" and "7" become one name, and so do the empty name and "0". */
  lemma NameExample()
    ensures Name(NormKey(StrKey([48, 48, 55]))) == [55] == Name(NormKey(StrKey([55])))
    ensures Name(NormKey(StrKey([]))) == [48] == Name(NormKey(StrKey([48])))
  {
    var s: bytes := [48, 48, 55];
    assert s[..2] == [48, 48] && [48, 48][..1] == [48] && [48][..0] == [] && [55][..0] == [];
    assert Atoi([48]) == 0 && Atoi([48, 48]) == 0 && Atoi(s) == 7 && Atoi([55]) == 7;
  }

  /** The nesting the six flags can express. */
  predicate Allowed(st: State, c: Call) {
    Spellable(c) &&
    match c
    case Put(_, _) => true
    case EndList => true
    case StartList(_) => st.Between? || !st.inList
    case StartBlock(_) => st.First? && !st.inList
    case EndBlock => st.First? && !st.inList && st.ctx.Block?
    case EndRecord => st.Between? || (!st.inList && st.ctx.Root?)
  }

  /** A call that starts a record when it comes behind an end-of-record. */
  function Reopened(st: State): State {
    match st
    case Between(done) => Later(done, Root([]), false)
    case _ => st
  }

  function Apply(st: State, c: Call): (r: State)
    requires Proper(st) && Allowed(st, c)
    ensures Proper(r)
  {
    match c
    case Put(k, v) =>
      var t := Reopened(st);
      if t.inList then t.(ctx := AddElem(t.ctx, Leaf(v)))
      else t.(ctx := Add(t.ctx, Member(Name(NormKey(k)), Leaf(v))))
    case StartList(name) =>
      var t := Reopened(st);
      t.(ctx := Add(t.ctx, Member(name, Arr([]))), inList := true)
    case EndList => if st.Between? then st else st.(inList := false)
    case StartBlock(name) => First(Block(st.ctx, name, []), false)
    case EndBlock => First(Add(st.ctx.outer, Member(st.ctx.name, Obj(st.ctx.ms))), false)
    case EndRecord =>
      match st
      case First(ctx, _) => Between([Close(ctx)])
      case Between(_) => st
      case Later(done, ctx, _) => Between(done + [Close(ctx)])
  }

  // ---- The text of a state ----

  /** Everything in front of the members of the innermost open level. */
  function Opening(ctx: Ctx, sc: bool): bytes {
    match ctx
    case Root(_) => [LBRACE]
    case Block(outer, name, _) =>
      Opening(outer, sc) + PrintMembers(outer.ms, sc) + Comma(outer.ms) + OpenText(name, LBRACE, sc)
  }

  /** Everything up to, but not including, the closing brace of the innermost open level. */
  function Body(ctx: Ctx, sc: bool): bytes {
    Opening(ctx, sc) + PrintMembers(ctx.ms, sc)
  }

  /** Members of which the last is a list, without its closing bracket. */
  function PrintListOpen(ms: seq<Member>, sc: bool): bytes
    requires ListLast(ms)
  {
    var front, m := ms[..|ms| - 1], ms[|ms| - 1];
    PrintMembers(front, sc) + Comma(front) + OpenText(m.key, LBRACKET, sc) + PrintElems(m.value.elems, sc)
  }

  function Lead(done: seq<Json>, sc: bool): bytes {
    [LBRACKET] + PrintElems(done, sc)
  }

  function Prefix(st: State, sc: bool): bytes
    requires !st.Between?
  {
    if st.First? then [SPACE] else Lead(st.done, sc) + [COMMA]
  }

  function Text(st: State, sc: bool): bytes {
    match st
    case Between(done) => Lead(done, sc) + [RBRACKET]
    case First(ctx, _) => Prefix(st, sc) + Body(ctx, sc) + [RBRACE]
    case Later(_, ctx, _) => Prefix(st, sc) + Body(ctx, sc) + [RBRACE, RBRACKET]
  }

  /** What the flags say about the state. */
  predicate FlagsMatch(st: State, f: Flags) {
    match st
    case Between(_) => f.inArray && f.eor && !f.comma && !f.sob && !f.list && !f.sol
    case _ =>
      && f.inArray == st.Later?
      && !f.eor
      && f.list == st.inList
      && f.sol == (st.inList && ListLast(st.ctx.ms) && st.ctx.ms[|st.ctx.ms| - 1].value.elems == [])
      && (st.ctx.ms != [] <==> f.comma && !f.sob)
      && (f.sob ==> f.comma && st.ctx.Block?)
  }

  ghost predicate Represents(d: Doc, st: State, sc: bool) {
    Proper(st) && FlagsMatch(st, d.flags) && d.text == Text(st, sc)
  }

  // ---- Text lemmas ----

  lemma {:induction false} EscapeDigits(s: bytes, sc: bool)
    requires IsNumber(s)
    ensures EscapeBody(s, sc) == s
  {
    if s != [] {
      EscapeDigits(s[..|s| - 1], sc);
      assert s == s[..|s| - 1] + [s[|s| - 1]];
      assert IsDigit(s[|s| - 1]);
    }
  }

  lemma KeyIsName(k: Key, sc: bool)
    ensures KeyText(k, sc) == Quoted(Name(k), sc) + [COLON]
  {
    if k.NumKey? {
      EscapeDigits(Decimal(k.n), sc);
    }
  }

  lemma LeafSpelled(v: Val, sc: bool)
    requires ValidVal(v) && !v.Flt?
    ensures ValText(v, sc) == Print(Leaf(v), sc)
    ensures !Leaf(v).Arr? && !Leaf(v).Obj?
  {
  }

  lemma PutIsMember(k: Key, v: Val, sc: bool)
    requires ValidVal(v) && !v.Flt?
    ensures PutText(k, v, false, sc) == PrintMember(Member(Name(NormKey(k)), Leaf(v)), sc)
  {
    KeyIsName(NormKey(k), sc);
    LeafSpelled(v, sc);
  }

  lemma MembersAdd(ms: seq<Member>, m: Member, sc: bool)
    ensures PrintMembers(ms + [m], sc) == PrintMembers(ms, sc) + Comma(ms) + PrintMember(m, sc)
  {
    assert (ms + [m])[..|ms|] == ms;
  }

  lemma ElemsAdd(es: seq<Json>, v: Json, sc: bool)
    ensures PrintElems(es + [v], sc) == PrintElems(es, sc) + Comma(es) + Print(v, sc)
  {
    assert (es + [v])[..|es|] == es;
  }

  lemma AroundInner(name: bytes, open: byte, inner: bytes, close: byte)
    ensures name + [COLON, SPACE] + ([open] + inner + [close]) == name + [COLON, SPACE, open] + inner + [close]
  {
    assert [COLON, SPACE] + [open] == [COLON, SPACE, open];
  }

  lemma ListMember(name: bytes, es: seq<Json>, sc: bool)
    ensures PrintMember(Member(name, Arr(es)), sc) == OpenText(name, LBRACKET, sc) + PrintElems(es, sc) + [RBRACKET]
  {
    AroundInner(Quoted(name, sc), LBRACKET, PrintElems(es, sc), RBRACKET);
  }

  lemma BlockMember(name: bytes, ms: seq<Member>, sc: bool)
    ensures PrintMember(Member(name, Obj(ms)), sc) == OpenText(name, LBRACE, sc) + PrintMembers(ms, sc) + [RBRACE]
  {
    AroundInner(Quoted(name, sc), LBRACE, PrintMembers(ms, sc), RBRACE);
  }

  lemma ListClosed(ms: seq<Member>, sc: bool)
    requires ListLast(ms)
    ensures PrintMembers(ms, sc) == PrintListOpen(ms, sc) + [RBRACKET]
  {
    var m := ms[|ms| - 1];
    ListMember(m.key, m.value.elems, sc);
  }

  lemma ListGrows(ms: seq<Member>, v: Json, sc: bool)
    requires ListLast(ms)
    ensures PrintMembers(LongerList(ms, v), sc)
         == PrintListOpen(ms, sc) + Comma(ms[|ms| - 1].value.elems) + Print(v, sc) + [RBRACKET]
  {
    var m := ms[|ms| - 1];
    var es := m.value.elems;
    var front := ms[..|ms| - 1];
    assert LongerList(ms, v)[..|ms| - 1] == front;
    ListClosed(LongerList(ms, v), sc);
    ElemsAdd(es, v, sc);
    Glue4(PrintMembers(front, sc) + Comma(front) + OpenText(m.key, LBRACKET, sc), PrintElems(es, sc), Comma(es), Print(v, sc));
  }

  lemma OpeningStays(ctx: Ctx, ms: seq<Member>, sc: bool)
    ensures Opening(ctx.(ms := ms), sc) == Opening(ctx, sc)
  {
  }

  lemma BodyAdd(ctx: Ctx, m: Member, sc: bool)
    ensures Body(Add(ctx, m), sc) == Body(ctx, sc) + Comma(ctx.ms) + PrintMember(m, sc)
  {
    MembersAdd(ctx.ms, m, sc);
    OpeningStays(ctx, Add(ctx, m).ms, sc);
    Glue4(Opening(ctx, sc), PrintMembers(ctx.ms, sc), Comma(ctx.ms), PrintMember(m, sc));
  }

  /** Closing a block: its brace turns the open level into a member of the one around it. */
  lemma BodyClose(outer: Ctx, name: bytes, ms: seq<Member>, sc: bool)
    ensures Body(Block(outer, name, ms), sc) + [RBRACE] == Body(Add(outer, Member(name, Obj(ms))), sc)
  {
    BodyAdd(outer, Member(name, Obj(ms)), sc);
    BlockMember(name, ms, sc);
  }

  function Braces(n: nat): bytes {
    if n == 0 then [] else [RBRACE] + Braces(n - 1)
  }

  lemma Regroup(s: bytes, n: nat)
    ensures s + [RBRACE] + Braces(n + 1) == s + [RBRACE] + [RBRACE] + Braces(n)
  {
  }

  lemma {:induction false} BodyCloses(ctx: Ctx, sc: bool)
    ensures Body(ctx, sc) + [RBRACE] + Braces(Depth(ctx)) == Print(Close(ctx), sc)
    decreases Depth(ctx)
  {
    match ctx {
      case Root(ms) =>
        assert Body(ctx, sc) + [RBRACE] + [] == [LBRACE] + PrintMembers(ms, sc) + [RBRACE];
      case Block(outer, name, ms) =>
        var next := Add(outer, Member(name, Obj(ms)));
        BodyClose(outer, name, ms, sc);
        BodyCloses(next, sc);
        Regroup(Body(ctx, sc), Depth(outer));
    }
  }

  // ---- One call ----

  /** The text as `Pre` leaves it for a call that writes: ready for a member, or for a list element. */
  function Ready(t: State, sc: bool): bytes
    requires Proper(t) && !t.Between?
  {
    if t.inList then
      Prefix(t, sc) + (Opening(t.ctx, sc) + PrintListOpen(t.ctx.ms, sc)) + Comma(t.ctx.ms[|t.ctx.ms| - 1].value.elems)
    else Prefix(t, sc) + Body(t.ctx, sc) + Comma(t.ctx.ms)
  }

  /** The text of an open state, once its list has lost its bracket. */
  lemma TextOfList(t: State, sc: bool)
    requires Proper(t) && !t.Between? && t.inList
    ensures Body(t.ctx, sc) == Opening(t.ctx, sc) + PrintListOpen(t.ctx.ms, sc) + [RBRACKET]
  {
    ListClosed(t.ctx.ms, sc);
  }

  lemma ChopTail(a: bytes, tail: bytes)
    ensures Chop(a + tail, |tail|) == a
  {
  }

  lemma PreBetween(d: Doc, st: State, sc: bool)
    requires Represents(d, st, sc) && st.Between?
    ensures Pre(d).text == Ready(Reopened(st), sc)
  {
    ChopTail(Lead(st.done, sc), [RBRACKET]);
    assert PrintMembers([], sc) == [];
    assert Lead(st.done, sc) + [COMMA, LBRACE] == Lead(st.done, sc) + [COMMA] + ([LBRACE] + []) + [];
  }

  lemma ListTail(d: Doc, st: State, sc: bool)
    requires Represents(d, st, sc) && !st.Between? && st.inList
    ensures d.text == Prefix(st, sc) + (Opening(st.ctx, sc) + PrintListOpen(st.ctx.ms, sc)) + Closers(d.flags)
  {
    TextOfList(st, sc);
    var p, b := Prefix(st, sc), Opening(st.ctx, sc) + PrintListOpen(st.ctx.ms, sc);
    var tail: bytes := if st.Later? then [RBRACE, RBRACKET] else [RBRACE];
    assert Closers(d.flags) == [RBRACKET] + tail;
    Glue3(p, b + [RBRACKET], tail);
    Glue3(b, [RBRACKET], tail);
    Glue3(p, b, [RBRACKET] + tail);
  }

  /** `Pre` on a text that ends with its closers. */
  lemma PreCuts(d: Doc, a: bytes)
    requires !d.flags.eor && d.text == a + Closers(d.flags)
    ensures var f := d.flags;
            Pre(d).text == a + (if (if f.list then !f.sol else !f.sob && f.comma) then [COMMA] else [])
  {
    ChopTail(a, Closers(d.flags));
    GlueEmpty(a);
  }

  lemma PreList(d: Doc, st: State, sc: bool)
    requires Represents(d, st, sc) && !st.Between? && st.inList
    ensures Pre(d).text == Ready(st, sc)
  {
    ListTail(d, st, sc);
    PreCuts(d, Prefix(st, sc) + (Opening(st.ctx, sc) + PrintListOpen(st.ctx.ms, sc)));
  }

  lemma PreMember(d: Doc, st: State, sc: bool)
    requires Represents(d, st, sc) && !st.Between? && !st.inList
    ensures Pre(d).text == Ready(st, sc)
  {
    var tail: bytes := if st.Later? then [RBRACE, RBRACKET] else [RBRACE];
    assert Closers(d.flags) == tail;
    PreCuts(d, Prefix(st, sc) + Body(st.ctx, sc));
  }

  lemma PreReady(d: Doc, st: State, sc: bool)
    requires Represents(d, st, sc)
    ensures Pre(d).text == Ready(Reopened(st), sc)
    ensures var f, t := Pre(d).flags, Reopened(st);
            !f.eor && !f.sob && !f.sol && f.list == t.inList && f.inArray == t.Later?
  {
    if st.Between? {
      PreBetween(d, st, sc);
    } else if st.inList {
      PreList(d, st, sc);
    } else {
      PreMember(d, st, sc);
    }
  }

  lemma GlueMember(p: bytes, b: bytes, c: bytes, s: bytes, close: bytes, tail: bytes)
    ensures p + b + c + s + (close + tail) == p + (b + c + (s + close)) + tail
  {
  }

  lemma GlueElem(p: bytes, o: bytes, l: bytes, c: bytes, e: bytes, close: bytes, tail: bytes)
    ensures p + (o + l) + c + e + (close + tail) == p + (o + (l + c + e + close)) + tail
  {
  }

  lemma GlueBlock(p: bytes, o: bytes, ms: bytes, c: bytes, s: bytes, tail: bytes)
    ensures p + (o + ms) + c + s + tail == p + (o + ms + c + s + []) + tail
  {
  }

  lemma GlueRecord(a: bytes, es: bytes, c: bytes, b: bytes, brace: bytes, bracket: bytes)
    ensures a + es + c + b + (brace + bracket) == a + (es + c + (b + brace)) + bracket
    ensures a + b + brace + bracket == a + (b + brace) + bracket
    ensures b + brace + [] == b + brace
  {
  }

  /** New text behind `Ready`, closed again, is the text of the state with the new member ... */
  lemma MemberWritten(t: State, m: Member, sc: bool, s: bytes, list: bool)
    requires Proper(t) && !t.Between? && !t.inList
    requires s + (if list then [RBRACKET] else []) == PrintMember(m, sc)
    ensures var f := NO_FLAGS.(list := list, inArray := t.Later?);
            Ready(t, sc) + s + Closers(f) == Text(t.(ctx := Add(t.ctx, m)), sc)
  {
    BodyAdd(t.ctx, m, sc);
    var p, b, c := Prefix(t, sc), Body(t.ctx, sc), Comma(t.ctx.ms);
    var close: bytes := if list then [RBRACKET] else [];
    var tail: bytes := if t.Later? then [RBRACE, RBRACKET] else [RBRACE];
    assert Closers(NO_FLAGS.(list := list, inArray := t.Later?)) == close + tail;
    GlueMember(p, b, c, s, close, tail);
  }

  /** ... or with the list one longer. */
  lemma ElemWritten(t: State, v: Json, sc: bool)
    requires Proper(t) && !t.Between? && t.inList
    ensures var f := NO_FLAGS.(list := true, inArray := t.Later?);
            Ready(t, sc) + Print(v, sc) + Closers(f) == Text(t.(ctx := AddElem(t.ctx, v)), sc)
  {
    ListGrows(t.ctx.ms, v, sc);
    OpeningStays(t.ctx, LongerList(t.ctx.ms, v), sc);
    var p, o, l := Prefix(t, sc), Opening(t.ctx, sc), PrintListOpen(t.ctx.ms, sc);
    var c, e := Comma(t.ctx.ms[|t.ctx.ms| - 1].value.elems), Print(v, sc);
    var tail: bytes := if t.Later? then [RBRACE, RBRACKET] else [RBRACE];
    assert Closers(NO_FLAGS.(list := true, inArray := t.Later?)) == [RBRACKET] + tail;
    GlueElem(p, o, l, c, e, [RBRACKET], tail);
  }

  lemma SameClosers(f: Flags)
    ensures Closers(f) == Closers(NO_FLAGS.(list := f.list, inArray := f.inArray))
  {
  }

  lemma PutElem(d: Doc, st: State, k: Key, v: Val, sc: bool)
    requires Represents(d, st, sc) && Allowed(st, Put(k, v)) && Reopened(st).inList
    ensures StepJson(d, Put(k, v), sc).text == Text(Apply(st, Put(k, v)), sc)
  {
    PreReady(d, st, sc);
    SameClosers(Pre(d).flags);
    LeafSpelled(v, sc);
    ElemWritten(Reopened(st), Leaf(v), sc);
    assert PutText(k, v, true, sc) == Print(Leaf(v), sc);
  }

  lemma PutMember(d: Doc, st: State, k: Key, v: Val, sc: bool)
    requires Represents(d, st, sc) && Allowed(st, Put(k, v)) && !Reopened(st).inList
    ensures StepJson(d, Put(k, v), sc).text == Text(Apply(st, Put(k, v)), sc)
  {
    PreReady(d, st, sc);
    SameClosers(Pre(d).flags);
    var m := Member(Name(NormKey(k)), Leaf(v));
    PutIsMember(k, v, sc);
    assert PrintMember(m, sc) + [] == PrintMember(m, sc);
    MemberWritten(Reopened(st), m, sc, PrintMember(m, sc), false);
  }

  lemma PutStep(d: Doc, st: State, k: Key, v: Val, sc: bool)
    requires Represents(d, st, sc) && Allowed(st, Put(k, v))
    ensures Represents(StepJson(d, Put(k, v), sc), Apply(st, Put(k, v)), sc)
  {
    PreReady(d, st, sc);
    if Reopened(st).inList {
      PutElem(d, st, k, v, sc);
    } else {
      PutMember(d, st, k, v, sc);
    }
  }

  lemma EmptyListMember(name: bytes, sc: bool)
    ensures OpenText(name, LBRACKET, sc) + [RBRACKET] == PrintMember(Member(name, Arr([])), sc)
  {
    ListMember(name, [], sc);
    assert OpenText(name, LBRACKET, sc) + PrintElems([], sc) == OpenText(name, LBRACKET, sc);
  }

  lemma StartListText(d: Doc, st: State, name: bytes, sc: bool)
    requires Represents(d, st, sc) && Allowed(st, StartList(name))
    ensures StepJson(d, StartList(name), sc).text == Text(Apply(st, StartList(name)), sc)
  {
    var t := Reopened(st);
    var m := Member(name, Arr([]));
    PreReady(d, st, sc);
    EmptyListMember(name, sc);
    MemberWritten(t, m, sc, OpenText(name, LBRACKET, sc), true);
    SameClosers(Pre(d).flags.(list := true, sol := true));
    TextIgnoresList(t.(ctx := Add(t.ctx, m)), sc);
  }

  lemma TextIgnoresList(t: State, sc: bool)
    requires !t.Between?
    ensures Text(t.(inList := true), sc) == Text(t, sc)
  {
  }

  lemma StartListStep(d: Doc, st: State, name: bytes, sc: bool)
    requires Represents(d, st, sc) && Allowed(st, StartList(name))
    ensures Represents(StepJson(d, StartList(name), sc), Apply(st, StartList(name)), sc)
  {
    PreReady(d, st, sc);
    StartListText(d, st, name, sc);
  }

  lemma StartBlockStep(d: Doc, st: State, name: bytes, sc: bool)
    requires Represents(d, st, sc) && Allowed(st, StartBlock(name))
    ensures Represents(StepJson(d, StartBlock(name), sc), Apply(st, StartBlock(name)), sc)
  {
    PreReady(d, st, sc);
    var o, ms, c, s := Opening(st.ctx, sc), PrintMembers(st.ctx.ms, sc), Comma(st.ctx.ms), OpenText(name, LBRACE, sc);
    assert PrintMembers([], sc) == [];
    GlueBlock([SPACE], o, ms, c, s, [RBRACE]);
  }

  lemma EndBlockStep(d: Doc, st: State, sc: bool)
    requires Represents(d, st, sc) && Allowed(st, EndBlock)
    ensures Represents(StepJson(d, EndBlock, sc), Apply(st, EndBlock), sc)
  {
    BodyClose(st.ctx.outer, st.ctx.name, st.ctx.ms, sc);
    GlueRecord([SPACE], [], [], Body(st.ctx, sc), [RBRACE], [RBRACE]);
  }

  /** A finished record: its text is the printed object, alone or behind the earlier ones. */
  lemma RecordText(st: State, sc: bool)
    requires Proper(st) && !st.Between? && st.ctx.Root?
    ensures st.First? ==> Text(st, sc) == [SPACE] + Print(Close(st.ctx), sc)
    ensures st.Later? ==> Text(st, sc) == [LBRACKET] + PrintElems(st.done + [Close(st.ctx)], sc) + [RBRACKET]
  {
    var b, v := Body(st.ctx, sc), Close(st.ctx);
    BodyCloses(st.ctx, sc);
    if st.First? {
      GlueRecord([SPACE], [], [], b, [RBRACE], []);
    } else {
      ElemsAdd(st.done, v, sc);
      GlueRecord([LBRACKET], PrintElems(st.done, sc), [COMMA], b, [RBRACE], [RBRACKET]);
      assert [RBRACE] + [RBRACKET] == [RBRACE, RBRACKET];
    }
  }

  lemma OneElem(v: Json, sc: bool)
    ensures PrintElems([v], sc) == Print(v, sc)
  {
    ElemsAdd([], v, sc);
    assert [] + [v] == [v];
    assert [] + [] + Print(v, sc) == Print(v, sc);
  }

  lemma EndRecordStep(d: Doc, st: State, sc: bool)
    requires Represents(d, st, sc) && Allowed(st, EndRecord)
    ensures Represents(StepJson(d, EndRecord, sc), Apply(st, EndRecord), sc)
  {
    if !st.Between? {
      RecordText(st, sc);
    }
    if st.First? {
      var s := Print(Close(st.ctx), sc);
      assert ([SPACE] + s)[0 := LBRACKET] == [LBRACKET] + s;
      OneElem(Close(st.ctx), sc);
    }
  }

  /** Every allowed call takes the document of a state to the document of the next state. */
  lemma StepRepresents(d: Doc, st: State, c: Call, sc: bool)
    requires Represents(d, st, sc) && Allowed(st, c)
    ensures Represents(StepJson(d, c, sc), Apply(st, c), sc)
  {
    match c {
      case Put(k, v) => PutStep(d, st, k, v, sc);
      case StartList(name) => StartListStep(d, st, name, sc);
      case EndList =>
      case StartBlock(name) => StartBlockStep(d, st, name, sc);
      case EndBlock => EndBlockStep(d, st, sc);
      case EndRecord => EndRecordStep(d, st, sc);
    }
  }

  // ---- Whole runs ----

  ghost predicate AllowedRun(st: State, cs: seq<Call>)
    requires Proper(st)
    decreases |cs|, 0
  {
    cs == [] ||
    (AllowedRun(st, cs[..|cs| - 1]) && Allowed(ApplyAll(st, cs[..|cs| - 1]), cs[|cs| - 1]))
  }

  ghost function ApplyAll(st: State, cs: seq<Call>): (r: State)
    requires Proper(st) && AllowedRun(st, cs)
    ensures Proper(r)
    decreases |cs|, 1
  {
    if cs == [] then st else Apply(ApplyAll(st, cs[..|cs| - 1]), cs[|cs| - 1])
  }

  /** The text of a represented state, with its open blocks closed, parses to the tree of that state. */
  lemma TextMeans(d: Doc, st: State, sc: bool)
    requires Represents(d, st, sc)
    ensures Parse(d.text + Braces(OpenBlocks(st))) == Ok(Strip(Tree(st), sc), [])
  {
    ParseWhole(Tree(st), sc);
    match st {
      case First(ctx, _) =>
        BodyCloses(ctx, sc);
        GlueRecord([SPACE], [], [], Body(ctx, sc), [RBRACE], Braces(Depth(ctx)));
        Glue3([SPACE], Body(ctx, sc) + [RBRACE], Braces(Depth(ctx)));
      case Between(done) =>
        assert d.text + [] == d.text;
      case Later(done, ctx, _) =>
        RecordText(st, sc);
        assert d.text + [] == d.text;
    }
  }

  lemma {:induction false} AllowedAccepted(st: State, cs: seq<Call>)
    requires Proper(st) && AllowedRun(st, cs)
    ensures AllAccepted(JSON, cs)
  {
    if cs != [] {
      AllowedAccepted(st, cs[..|cs| - 1]);
    }
  }

  lemma {:induction false} RunRepresents(d: Doc, st: State, cs: seq<Call>, sc: bool)
    requires Represents(d, st, sc) && AllowedRun(st, cs) && AllAccepted(JSON, cs)
    ensures Represents(Run(JSON, d, cs, sc), ApplyAll(st, cs), sc)
  {
    if cs != [] {
      var front := cs[..|cs| - 1];
      RunRepresents(d, st, front, sc);
      StepRepresents(Run(JSON, d, front, sc), ApplyAll(st, front), cs[|cs| - 1], sc);
    }
  }

  /**
   After every run of calls the flags can express, the buffer with its open blocks closed
   parses to the tree written.
   */
  lemma JsonMeaning(cs: seq<Call>, sc: bool)
    requires AllowedRun(START, cs)
    ensures AllAccepted(JSON, cs)
    ensures var end := ApplyAll(START, cs);
            Parse(Run(JSON, Empty(JSON), cs, sc).text + Braces(OpenBlocks(end))) == Ok(Strip(Tree(end), sc), [])
  {
    AllowedAccepted(START, cs);
    EmptyRepresents(sc);
    RunRepresents(Empty(JSON), START, cs, sc);
    TextMeans(Run(JSON, Empty(JSON), cs, sc), ApplyAll(START, cs), sc);
  }

  /** The empty buffer is where every run starts. */
  lemma EmptyRepresents(sc: bool)
    ensures Represents(Empty(JSON), START, sc)
  {
    assert PrintMembers([], sc) == [];
  }
}
