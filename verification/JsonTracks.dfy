/**
 Every run of calls, followed by its state: allowed runs keep the tree; the others are tracked
 to the calls that repair them and to the texts that nothing repairs.
 */
module JsonTracks {
  import opened Bytes
  import opened Calls
  import opened JsonText
  import opened JsonScan
  import opened Documents
  import opened Rollbacks
  import opened JsonKept
  import opened JsonLimits
  import opened JM = JsonMeaning

  // ---- The scanner at a state ----

  /** Where the scanner stands in the record being written. */
  predicate InState(sg: Scanner, base: seq<Frame>, ctx: Ctx, inList: bool) {
    && (inList ==> ListLast(ctx.ms))
    && sg.At?
    && sg.stack == Levels(base, ctx) + (if inList then [InArr] else [])
    && if inList then
         if ctx.ms[|ctx.ms| - 1].value.elems == [] then sg.mode.ValueOrEnd? else sg.mode.After?
       else if ctx.ms == [] then sg.mode.KeyOrEnd? else sg.mode.After?
  }

  predicate AtState(st: State, a: Scanner, b: Scanner) {
    match st
    case Between(_) => b.At? && b.stack == [InArr] && b.mode.After?
    case First(ctx, inList) => InState(a, [], ctx, inList) && InState(b, [InArr], ctx, inList)
    case Later(_, ctx, inList) => InState(b, [InArr], ctx, inList)
  }

  /** The kept part of the record being written. */
  function Record(ctx: Ctx, inList: bool, sc: bool): bytes
    requires inList ==> ListLast(ctx.ms)
  {
    if inList then Opening(ctx, sc) + PrintListOpen(ctx.ms, sc) else Body(ctx, sc)
  }

  lemma ScanRecord(base: seq<Frame>, m: Mode, ctx: Ctx, inList: bool, sc: bool)
    requires Wants(m) && (inList ==> ListLast(ctx.ms))
    ensures InState(Scan(At(base, m), Record(ctx, inList, sc)), base, ctx, inList)
  {
    if inList {
      var _ := ScanListBody(base, m, ctx, sc);
    } else {
      var _ := ScanBody(base, m, ctx, sc);
    }
  }

  lemma RecordTail(d: Doc, st: State, sc: bool)
    requires Represents(d, st, sc) && !st.Between?
    ensures d.text == Prefix(st, sc) + Record(st.ctx, st.inList, sc) + Tail(d.flags)
  {
    if st.inList {
      ListTail(d, st, sc);
    }
  }

  lemma {:induction false} OpeningStarts(ctx: Ctx, sc: bool)
    ensures Opening(ctx, sc) != [] && Opening(ctx, sc)[0] == LBRACE
    decreases ctx
  {
    if ctx.Block? {
      OpeningStarts(ctx.outer, sc);
    }
  }

  /** A text made of a first byte, a kept part and the closers its flags call for. */
  lemma SoundParts(d: Doc, x: byte, y: bytes)
    requires d.text == [x] + y + Tail(d.flags) && y != [] && (d.flags.eor ==> d.flags.inArray)
    requires x == if d.flags.inArray then LBRACKET else SPACE
    ensures Sound(d) && Inner(d) == y
  {
    var t := Tail(d.flags);
    assert |t| == TailLength(d.flags);
    assert d.text[|d.text| - |t|..] == t;
    assert d.text[|d.text| - 1] == t[|t| - 1];
    InnerIs(d, x, y);
  }

  lemma RecordStarts(ctx: Ctx, inList: bool, sc: bool)
    requires inList ==> ListLast(ctx.ms)
    ensures Record(ctx, inList, sc) != []
  {
    OpeningStarts(ctx, sc);
  }

  lemma FirstScanned(d: Doc, st: State, sc: bool)
    requires Represents(d, st, sc) && st.First?
    ensures Scannable(d) && AtState(st, Spaced(d), Bracketed(d))
  {
    var r := Record(st.ctx, st.inList, sc);
    RecordTail(d, st, sc);
    RecordStarts(st.ctx, st.inList, sc);
    SoundParts(d, SPACE, r);
    ScanRecord([], Value, st.ctx, st.inList, sc);
    ScanRecord([InArr], ValueOrEnd, st.ctx, st.inList, sc);
    assert Spaced(d) == Scan(At([], Value), r) && Bracketed(d) == Scan(At([InArr], ValueOrEnd), r);
  }

  lemma ScanDone(done: seq<Json>, sc: bool) returns (w: bool)
    requires done != []
    ensures Scan(ARRAY, PrintElems(done, sc)) == At([InArr], After(w))
    ensures Scan(ARRAY, PrintElems(done, sc) + [COMMA]) == At([InArr], Value)
    ensures PrintElems(done, sc) != []
  {
    w := ScanElemsOf([InArr], done, sc);
    ScanOne(At([InArr], After(w)), COMMA);
    ScanTwoParts(ARRAY, PrintElems(done, sc), [COMMA], At([InArr], After(w)), At([InArr], Value));
  }

  lemma BetweenScanned(d: Doc, done: seq<Json>, sc: bool)
    requires done != [] && d.text == Lead(done, sc) + [RBRACKET] && d.flags.eor && d.flags.inArray
    ensures Scannable(d) && AtState(Between(done), Spaced(d), Bracketed(d))
  {
    var _ := ScanDone(done, sc);
    SoundParts(d, LBRACKET, PrintElems(done, sc));
  }

  lemma LaterScanned(d: Doc, st: State, sc: bool)
    requires Represents(d, st, sc) && st.Later?
    ensures Scannable(d) && AtState(st, Spaced(d), Bracketed(d))
  {
    var r := Record(st.ctx, st.inList, sc);
    var lead := PrintElems(st.done, sc) + [COMMA];
    RecordTail(d, st, sc);
    var _ := ScanDone(st.done, sc);
    Glue3([LBRACKET], PrintElems(st.done, sc), [COMMA]);
    Glue3([LBRACKET], lead, r);
    SoundParts(d, LBRACKET, lead + r);
    ScanRecord([InArr], Value, st.ctx, st.inList, sc);
    ScanTwoParts(ARRAY, lead, r, At([InArr], Value), Scan(At([InArr], Value), r));
  }

  lemma StateScanned(d: Doc, st: State, sc: bool)
    requires Represents(d, st, sc)
    ensures Scannable(d) && AtState(st, Spaced(d), Bracketed(d))
  {
    match st {
      case First(_, _) => FirstScanned(d, st, sc);
      case Between(done) => BetweenScanned(d, done, sc);
      case Later(_, _, _) => LaterScanned(d, st, sc);
    }
  }

  // ---- Where a forbidden call leads ----

  /** A record ended while its own list is open: the text is still JSON, but the list flag is not reset. */
  predicate LeavesListOpen(st: State, c: Call) {
    c.EndRecord? && !st.Between? && st.inList && st.ctx.Root?
  }

  /** A block ended inside its own list, once that holds an element: the next list repairs it. */
  predicate Repairs(st: State, c: Call) {
    c.EndBlock? && st.First? && st.inList && st.ctx.Block? && ListLast(st.ctx.ms)
    && st.ctx.ms[|st.ctx.ms| - 1].value.elems != []
  }

  /** The same place, without its members: the frames of the record, whether a block is open, a list is. */
  predicate Place(sg: Scanner, base: seq<Frame>, deep: bool, inList: bool) {
    && sg.At?
    && (inList ==> Top(sg.stack, InArr) && (sg.mode.ValueOrEnd? || sg.mode.After?))
    && (!inList ==> sg.mode.KeyOrEnd? || sg.mode.After?)
    && var stack := if inList then Pop(sg.stack) else sg.stack;
       Top(stack, InObj) && if deep then Top(Pop(stack), InObj) else Pop(stack) == base
  }

  lemma InPlace(sg: Scanner, base: seq<Frame>, ctx: Ctx, inList: bool)
    requires InState(sg, base, ctx, inList)
    ensures Place(sg, base, ctx.Block?, inList)
  {
    if inList {
      Pushed(Levels(base, ctx), InArr);
    }
  }

  lemma NameInListDies(sg: Scanner, f: Flags, bracket: byte)
    requires !f.eor && f.list && sg.At? && Top(sg.stack, InArr) && (sg.mode.ValueOrEnd? || sg.mode.After?)
    requires bracket == LBRACE || bracket == LBRACKET
    ensures Open(Resume(sg, f), bracket) == Dead
  {
    OpenPushes(Resume(sg, f), bracket);
  }

  /** A block behind the first end of record. */
  lemma LateBlockIsLost(sg: Scanner, f: Flags, c: Call)
    requires c.StartBlock? && !f.list && f.inArray && sg.At?
    requires if f.eor then sg.stack == [InArr] && sg.mode.After?
             else Top(sg.stack, InObj) && (sg.mode.KeyOrEnd? || sg.mode.After?)
    ensures LostLater(NextFlags(f, c), Move(sg, f, c))
  {
    var r := Resume(sg, f);
    OpenPushes(r, LBRACE);
    if r.At? {
      assert Top(r.stack, InObj);
      Pushed(r.stack, InObj);
    }
  }

  lemma NamedIsLost(st: State, f: Flags, a: Scanner, b: Scanner, c: Call)
    requires Proper(st) && FlagsMatch(st, f) && AtState(st, a, b) && (c.StartList? || c.StartBlock?) && !Allowed(st, c) && Spellable(c)
    ensures Lost(NextFlags(f, c), Move(a, f, c), Move(b, f, c))
  {
    var bracket := if c.StartList? then LBRACKET else LBRACE;
    if !st.Between? {
      InPlace(b, [InArr], st.ctx, st.inList);
    }
    if !st.Between? && st.inList {
      NameInListDies(b, f, bracket);
      if st.First? {
        InPlace(a, [], st.ctx, st.inList);
        NameInListDies(a, f, bracket);
      }
    } else {
      LateBlockIsLost(b, f, c);
    }
  }

  lemma StubPops(sg: Scanner, base: seq<Frame>, deep: bool, f: Flags)
    requires Place(sg, base, deep, f.list)
    ensures var r := CloseStub(sg, f);
            r.At? && r.mode == After(false) && if deep then Top(r.stack, InObj) else r.stack == base
  {
  }

  lemma EndBlockIsLost(st: State, f: Flags, a: Scanner, b: Scanner)
    requires Proper(st) && FlagsMatch(st, f) && AtState(st, a, b) && !Allowed(st, EndBlock) && !Repairs(st, EndBlock)
    ensures Lost(NextFlags(f, EndBlock), Move(a, f, EndBlock), Move(b, f, EndBlock))
  {
    if !st.Between? {
      InPlace(b, [InArr], st.ctx, st.inList);
      StubPops(b, [InArr], st.ctx.Block?, f);
      if st.First? {
        InPlace(a, [], st.ctx, st.inList);
        StubPops(a, [], st.ctx.Block?, f);
      }
    }
  }

  lemma OpenRecordMoves(f: Flags, b: Scanner)
    requires !f.eor && !f.inArray && Place(b, [InArr], true, f.list)
    ensures LostLater(NextFlags(f, EndRecord), Move(b, f, EndRecord))
  {
    StubPops(b, [InArr], true, f);
  }

  lemma EndRecordIsLost(st: State, f: Flags, a: Scanner, b: Scanner)
    requires Proper(st) && FlagsMatch(st, f) && AtState(st, a, b) && !Allowed(st, EndRecord) && !LeavesListOpen(st, EndRecord)
    ensures NextFlags(f, EndRecord).inArray && LostLater(NextFlags(f, EndRecord), Move(b, f, EndRecord))
  {
    assert st.First? && st.ctx.Block?;
    InPlace(b, [InArr], st.ctx, st.inList);
    OpenRecordMoves(f, b);
  }

  /** A call the flags cannot express loses the text, but for the two cases named above. */
  lemma ForbiddenIsLost(d: Doc, st: State, c: Call, sc: bool)
    requires Represents(d, st, sc) && Spellable(c) && !Allowed(st, c) && !LeavesListOpen(st, c) && !Repairs(st, c)
    ensures LostDoc(StepJson(d, c, sc))
  {
    StateScanned(d, st, sc);
    ForbiddenMoves(st, d.flags, Spaced(d), Bracketed(d), c);
    MovedIsLost(d, c, sc);
  }

  lemma ForbiddenMoves(st: State, f: Flags, a: Scanner, b: Scanner, c: Call)
    requires Proper(st) && FlagsMatch(st, f) && AtState(st, a, b) && Spellable(c)
    requires !Allowed(st, c) && !LeavesListOpen(st, c) && !Repairs(st, c)
    ensures Lost(NextFlags(f, c), Move(a, f, c), Move(b, f, c))
  {
    if c.EndBlock? {
      EndBlockIsLost(st, f, a, b);
    } else if c.EndRecord? {
      EndRecordIsLost(st, f, a, b);
    } else {
      NamedIsLost(st, f, a, b, c);
    }
  }

  lemma MovedIsLost(d: Doc, c: Call, sc: bool)
    requires Scannable(d) && Spellable(c)
    requires Lost(NextFlags(d.flags, c), Move(Spaced(d), d.flags, c), Move(Bracketed(d), d.flags, c))
    ensures LostDoc(StepJson(d, c, sc))
  {
    StepMoves(d, c, sc);
  }

  // ---- A record ended over its open list ----

  function Ended(st: State): seq<Json>
    requires !st.Between?
  {
    (if st.First? then [] else st.done) + [Close(st.ctx)]
  }

  /** The text of the records so far, with the list flag still set. */
  ghost predicate LeftOpen(d: Doc, done: seq<Json>, sc: bool) {
    && done != [] && d.text == Lead(done, sc) + [RBRACKET]
    && d.flags.eor && d.flags.inArray && d.flags.list && !d.flags.comma && !d.flags.sob
  }

  lemma LeavingOpen(d: Doc, st: State, sc: bool)
    requires Represents(d, st, sc) && LeavesListOpen(st, EndRecord)
    ensures LeftOpen(StepJson(d, EndRecord, sc), Ended(st), sc)
  {
    RecordText(st, sc);
    if st.First? {
      var s := Print(Close(st.ctx), sc);
      assert ([SPACE] + s)[0 := LBRACKET] == [LBRACKET] + s;
      OneElem(Close(st.ctx), sc);
      assert Ended(st) == [Close(st.ctx)];
    }
  }

  /** It still reads as those records. */
  lemma LeftOpenReads(d: Doc, done: seq<Json>, sc: bool)
    requires LeftOpen(d, done, sc)
    ensures Parse(d.text) == Ok(Arr(StripElems(done, sc)), [])
  {
    ParseWhole(Arr(done), sc);
  }

  /** Ending the list, or starting another one, brings flags and text together again ... */
  lemma LeftOpenRecovers(d: Doc, done: seq<Json>, name: bytes, sc: bool)
    requires LeftOpen(d, done, sc) && |name| < TWO16
    ensures Represents(StepJson(d, EndList, sc), Between(done), sc)
    ensures Represents(StepJson(d, StartList(name), sc), Apply(Between(done), StartList(name)), sc)
    ensures LeftOpen(StepJson(d, EndRecord, sc), done, sc)
  {
    var e := StepJson(d, EndList, sc);
    assert Represents(e, Between(done), sc);
    StartListStep(e, Between(done), name, sc);
    assert StepJson(d, StartList(name), sc) == StepJson(e, StartList(name), sc);
  }

  /** ... and every other call loses the text. */
  lemma LeftOpenLoses(d: Doc, done: seq<Json>, c: Call, sc: bool)
    requires LeftOpen(d, done, sc) && Spellable(c) && (c.Put? || c.StartBlock? || c.EndBlock?)
    ensures LostDoc(StepJson(d, c, sc))
  {
    BetweenScanned(d, done, sc);
    LeftOpenMoves(d.flags, Bracketed(d), c);
    MovedIsLost(d, c, sc);
  }

  lemma LeftOpenMoves(f: Flags, b: Scanner, c: Call)
    requires f.eor && f.inArray && f.list && b.At? && b.stack == [InArr] && b.mode.After?
    requires c.Put? || c.StartBlock? || c.EndBlock?
    ensures LostLater(NextFlags(f, c), Move(b, f, c))
  {
    var r := Resume(b, f);
    assert r == At([InArr] + [InObj], KeyOrEnd);
    if c.StartBlock? {
      OpenPushes(r, LBRACE);
      Pushed(r.stack, InObj);
      Pushed([InArr], InObj);
    }
  }

  // ---- A block ended inside its list ----

  function Outer(st: State): Ctx
    requires !st.Between? && st.ctx.Block?
  {
    Add(st.ctx.outer, Member(st.ctx.name, Obj(st.ctx.ms)))
  }

  /** The block is closed, but the closers of a list stand behind it. */
  ghost predicate Repairable(d: Doc, ctx: Ctx, sc: bool) {
    && ctx.ms != [] && d.text == [SPACE] + Body(ctx, sc) + [RBRACKET, RBRACE]
    && !d.flags.inArray && !d.flags.eor && d.flags.list && !d.flags.sol && d.flags.comma && !d.flags.sob
  }

  lemma EndingInList(d: Doc, st: State, sc: bool)
    requires Represents(d, st, sc) && Repairs(st, EndBlock)
    ensures Repairable(StepJson(d, EndBlock, sc), Outer(st), sc)
  {
    BodyClose(st.ctx.outer, st.ctx.name, st.ctx.ms, sc);
    Glue3([SPACE], Body(st.ctx, sc), [RBRACE]);
    assert Closers(d.flags) == [RBRACKET, RBRACE];
  }

  lemma RepairableParts(d: Doc, ctx: Ctx, sc: bool)
    requires Repairable(d, ctx, sc)
    ensures Scannable(d) && Place(Spaced(d), [], ctx.Block?, false) && Place(Bracketed(d), [InArr], ctx.Block?, false)
    ensures Spaced(d).mode.After? && Bracketed(d).mode.After?
  {
    assert Tail(d.flags) == [RBRACKET, RBRACE];
    RecordStarts(ctx, false, sc);
    SoundParts(d, SPACE, Body(ctx, sc));
    ScanRecord([], Value, ctx, false, sc);
    ScanRecord([InArr], ValueOrEnd, ctx, false, sc);
    InPlace(Scan(At([], Value), Body(ctx, sc)), [], ctx, false);
    InPlace(Scan(At([InArr], ValueOrEnd), Body(ctx, sc)), [InArr], ctx, false);
  }

  lemma BracketDies(sg: Scanner, f: Flags)
    requires !f.eor && f.list && sg.At? && Top(sg.stack, InObj) && sg.mode.After?
    ensures Scan(sg, Tail(f)) == Dead
  {
    ScanClosers(sg, f);
  }

  lemma RepairableIsBroken(d: Doc, ctx: Ctx, sc: bool)
    requires Repairable(d, ctx, sc)
    ensures Broken(d.text)
  {
    RepairableParts(d, ctx, sc);
    ScanText(d);
    BracketDies(Spaced(d), d.flags);
    DeadIsBroken(d.text);
  }

  /** A new list takes the closers off and writes the comma that is missing: the text means a tree again ... */
  lemma RepairableRecovers(d: Doc, ctx: Ctx, name: bytes, sc: bool)
    requires Repairable(d, ctx, sc) && |name| < TWO16
    ensures Represents(StepJson(d, StartList(name), sc), Apply(First(ctx, false), StartList(name)), sc)
  {
    var e := d.(text := [SPACE] + Body(ctx, sc) + [RBRACE], flags := d.flags.(list := false));
    assert Represents(e, First(ctx, false), sc);
    StartListStep(e, First(ctx, false), name, sc);
    ChopTail([SPACE] + Body(ctx, sc), [RBRACE]);
    ChopTail([SPACE] + Body(ctx, sc), [RBRACKET, RBRACE]);
    assert Pre(d).text == Pre(e).text;
  }

  /** ... and every other call loses it. */
  lemma RepairableLoses(d: Doc, ctx: Ctx, c: Call, sc: bool)
    requires Repairable(d, ctx, sc) && Spellable(c) && !c.StartList?
    ensures LostDoc(StepJson(d, c, sc))
  {
    RepairableParts(d, ctx, sc);
    RepairableMoves(d.flags, Spaced(d), Bracketed(d), c);
    MovedIsLost(d, c, sc);
  }

  lemma RepairableMoves(f: Flags, a: Scanner, b: Scanner, c: Call)
    requires !f.inArray && !f.eor && f.list && !f.sol && !c.StartList?
    requires a.At? && b.At? && Top(a.stack, InObj) && Top(b.stack, InObj) && a.mode.After? && b.mode.After?
    ensures Lost(NextFlags(f, c), Move(a, f, c), Move(b, f, c))
  {
    if c.StartBlock? {
      OpenPushes(Resume(a, f), LBRACE);
      OpenPushes(Resume(b, f), LBRACE);
      Pushed(a.stack, InObj);
      Pushed(b.stack, InObj);
    }
  }

  // ---- Every run ----

  datatype Track =
    | Fine(st: State)
    | ListLeft(done: seq<Json>)
    | BlockLeft(ctx: Ctx)
    | Gone

  predicate Going(t: Track) { (t.Fine? ==> Proper(t.st)) && (t.ListLeft? ==> t.done != []) }

  function Advance(t: Track, c: Call): (r: Track)
    requires Going(t) && Spellable(c)
    ensures Going(r)
  {
    match t
    case Fine(st) =>
      if Allowed(st, c) then Fine(Apply(st, c))
      else if LeavesListOpen(st, c) then ListLeft(Ended(st))
      else if Repairs(st, c) then BlockLeft(Outer(st))
      else Gone
    case ListLeft(done) =>
      if c.EndList? then Fine(Between(done))
      else if c.StartList? then Fine(Apply(Between(done), c))
      else if c.EndRecord? then t
      else Gone
    case BlockLeft(ctx) => if c.StartList? then Fine(Apply(First(ctx, false), c)) else Gone
    case Gone => Gone
  }

  ghost predicate Follows(d: Doc, t: Track, sc: bool) {
    match t
    case Fine(st) => Represents(d, st, sc)
    case ListLeft(done) => LeftOpen(d, done, sc)
    case BlockLeft(ctx) => Repairable(d, ctx, sc)
    case Gone => LostDoc(d)
  }

  lemma FineFollows(d: Doc, st: State, c: Call, sc: bool)
    requires Represents(d, st, sc) && Spellable(c)
    ensures Follows(StepJson(d, c, sc), Advance(Fine(st), c), sc)
  {
    if Allowed(st, c) {
      StepRepresents(d, st, c, sc);
    } else if LeavesListOpen(st, c) {
      LeavingOpen(d, st, sc);
    } else if Repairs(st, c) {
      EndingInList(d, st, sc);
    } else {
      ForbiddenIsLost(d, st, c, sc);
    }
  }

  lemma ListLeftFollows(d: Doc, done: seq<Json>, c: Call, sc: bool)
    requires LeftOpen(d, done, sc) && Spellable(c)
    ensures Follows(StepJson(d, c, sc), Advance(ListLeft(done), c), sc)
  {
    if c.EndList? || c.StartList? || c.EndRecord? {
      LeftOpenRecovers(d, done, if c.StartList? then c.name else [], sc);
    } else {
      LeftOpenLoses(d, done, c, sc);
    }
  }

  lemma BlockLeftFollows(d: Doc, ctx: Ctx, c: Call, sc: bool)
    requires Repairable(d, ctx, sc) && Spellable(c)
    ensures Follows(StepJson(d, c, sc), Advance(BlockLeft(ctx), c), sc)
  {
    if c.StartList? {
      RepairableRecovers(d, ctx, c.name, sc);
    } else {
      RepairableLoses(d, ctx, c, sc);
    }
  }

  /** Every call takes a document along its track. */
  lemma StepFollows(d: Doc, t: Track, c: Call, sc: bool)
    requires Going(t) && Follows(d, t, sc) && Spellable(c)
    ensures Follows(StepJson(d, c, sc), Advance(t, c), sc)
  {
    match t {
      case Fine(st) => FineFollows(d, st, c, sc);
      case ListLeft(done) => ListLeftFollows(d, done, c, sc);
      case BlockLeft(ctx) => BlockLeftFollows(d, ctx, c, sc);
      case Gone => LostStays(d, c, sc);
    }
  }

  ghost function Follow(t: Track, cs: seq<Call>): (r: Track)
    requires Going(t) && AllAccepted(JSON, cs)
    ensures Going(r)
  {
    if cs == [] then t else Advance(Follow(t, cs[..|cs| - 1]), cs[|cs| - 1])
  }

  lemma {:induction false} RunFollows(d: Doc, t: Track, cs: seq<Call>, sc: bool)
    requires Going(t) && Follows(d, t, sc) && AllAccepted(JSON, cs)
    ensures Follows(Run(JSON, d, cs, sc), Follow(t, cs), sc)
  {
    if cs != [] {
      var front := cs[..|cs| - 1];
      RunFollows(d, t, front, sc);
      StepFollows(Run(JSON, d, front, sc), Follow(t, front), cs[|cs| - 1], sc);
    }
  }

  /** What a track says about the text. */
  lemma TrackDecides(d: Doc, t: Track, sc: bool)
    requires Follows(d, t, sc)
    ensures Broken(d.text) <==> t.Gone? || t.BlockLeft?
    ensures t.Fine? ==> Parse(d.text + Braces(OpenBlocks(t.st))) == Ok(Strip(Tree(t.st), sc), [])
    ensures t.ListLeft? ==> Parse(d.text) == Ok(Arr(StripElems(t.done, sc)), [])
  {
    match t {
      case Fine(st) => TextMeans(d, st, sc);
      case ListLeft(done) =>
        LeftOpenReads(d, done, sc);
        GlueEmpty(d.text);
        assert Parse(d.text + []).Ok?;
      case BlockLeft(ctx) => RepairableIsBroken(d, ctx, sc);
      case Gone => LostIsBroken(d);
    }
  }

  /**
   For every run of calls whatsoever: the text can be completed to JSON if and only if the track
   is neither lost nor waiting for a repair; on a fine track it means the tree of the track.
   */
  lemma EveryRun(cs: seq<Call>, sc: bool)
    requires AllAccepted(JSON, cs)
    ensures var text := Run(JSON, Empty(JSON), cs, sc).text;
            var t := Follow(Fine(JM.START), cs);
            && (Broken(text) <==> t.Gone? || t.BlockLeft?)
            && (t.Fine? ==> Parse(text + Braces(OpenBlocks(t.st))) == Ok(Strip(Tree(t.st), sc), []))
            && (t.ListLeft? ==> Parse(text) == Ok(Arr(StripElems(t.done, sc)), []))
  {
    EmptyRepresents(sc);
    RunFollows(Empty(JSON), Fine(JM.START), cs, sc);
    TrackDecides(Run(JSON, Empty(JSON), cs, sc), Follow(Fine(JM.START), cs), sc);
  }

  lemma {:induction false} GoneStays(cs: seq<Call>)
    requires AllAccepted(JSON, cs)
    ensures Follow(Gone, cs) == Gone
  {
    if cs != [] {
      GoneStays(cs[..|cs| - 1]);
    }
  }

  /**
   After a call the flags cannot express, the text stays broken through all later calls, unless the
   call ended a record over its open list, or ended a block inside a list with an element and the
   very next call starts a list.
   */
  lemma ForbiddenStaysBroken(d: Doc, st: State, c: Call, cs: seq<Call>, sc: bool)
    requires Represents(d, st, sc) && Spellable(c) && AllAccepted(JSON, cs)
    requires !Allowed(st, c) && !LeavesListOpen(st, c)
    requires Repairs(st, c) ==> cs == [] || !cs[0].StartList?
    ensures Broken(Run(JSON, StepJson(d, c, sc), cs, sc).text)
  {
    var e, t := StepJson(d, c, sc), Advance(Fine(st), c);
    StepFollows(d, Fine(st), c, sc);
    RunFollows(e, t, cs, sc);
    if Repairs(st, c) {
      FollowBlock(t, cs);
    } else {
      GoneStays(cs);
    }
    TrackDecides(Run(JSON, e, cs, sc), Follow(t, cs), sc);
  }

  lemma {:induction false} FollowBlock(t: Track, cs: seq<Call>)
    requires t.BlockLeft? && AllAccepted(JSON, cs) && (cs == [] || !cs[0].StartList?)
    ensures var r := Follow(t, cs); r.Gone? || r.BlockLeft?
    ensures cs != [] ==> Follow(t, cs).Gone?
  {
    if cs != [] {
      var front := cs[..|cs| - 1];
      FollowBlock(t, front);
      if front == [] {
        assert cs[|cs| - 1] == cs[0];
      }
    }
  }

  /** The repair, from every state in which it is possible. */
  lemma BlockIsRepaired(d: Doc, st: State, name: bytes, sc: bool)
    requires Represents(d, st, sc) && Repairs(st, EndBlock) && |name| < TWO16
    ensures var e := StepJson(d, EndBlock, sc);
            var r := StepJson(e, StartList(name), sc);
            var t := First(Add(Outer(st), Member(name, Arr([]))), true);
            Broken(e.text) && Represents(r, t, sc) && Parse(r.text + Braces(OpenBlocks(t))) == Ok(Strip(Tree(t), sc), [])
  {
    var e := StepJson(d, EndBlock, sc);
    EndingInList(d, st, sc);
    RepairableIsBroken(e, Outer(st), sc);
    RepairableRecovers(e, Outer(st), name, sc);
    TextMeans(StepJson(e, StartList(name), sc), First(Add(Outer(st), Member(name, Arr([]))), true), sc);
  }

  const B: bytes := [98]
  const L: bytes := [108]
  const ONE := Put(NumKey(0), U32(1))

  lemma ExampleStates()
    ensures Advance(Fine(JM.START), StartBlock(B)) == Fine(First(Block(Root([]), B, []), false))
    ensures Advance(Fine(First(Block(Root([]), B, []), false)), StartList(L))
         == Fine(First(Block(Root([]), B, [Member(L, Arr([]))]), true))
  {
    assert [] + [Member(L, Arr([]))] == [Member(L, Arr([]))];
  }

  lemma ExampleElement()
    ensures Advance(Fine(First(Block(Root([]), B, [Member(L, Arr([]))]), true)), ONE)
         == Fine(First(Block(Root([]), B, [Member(L, Arr([Num(1)]))]), true))
  {
    var ms := [Member(L, Arr([]))];
    assert ms[..0] == [] && [] + [Num(1)] == [Num(1)];
    assert LongerList(ms, Num(1)) == [] + [Member(L, Arr([Num(1)]))] == [Member(L, Arr([Num(1)]))];
  }

  lemma ExampleEnd()
    ensures var inner := Member(B, Obj([Member(L, Arr([Num(1)]))]));
            && Advance(Fine(First(Block(Root([]), B, [Member(L, Arr([Num(1)]))]), true)), EndBlock) == BlockLeft(Root([inner]))
            && Advance(BlockLeft(Root([inner])), StartList(L)) == Fine(First(Root([inner, Member(L, Arr([]))]), true))
  {
    var inner := Member(B, Obj([Member(L, Arr([Num(1)]))]));
    assert [] + [inner] == [inner] && [inner] + [Member(L, Arr([]))] == [inner, Member(L, Arr([]))];
  }

  /** One run that is repaired: ` {"b": {"l": [1]},"l": []}` in the end. */
  lemma RepairExample()
    ensures var cs := [StartBlock(B), StartList(L), ONE, EndBlock, StartList(L)];
            && AllAccepted(JSON, cs)
            && Follow(Fine(JM.START), cs[..4]).BlockLeft?
            && Follow(Fine(JM.START), cs)
               == Fine(First(Root([Member(B, Obj([Member(L, Arr([Num(1)]))])), Member(L, Arr([]))]), true))
  {
    var cs := [StartBlock(B), StartList(L), ONE, EndBlock, StartList(L)];
    assert cs[..0] == [] && cs[..5] == cs;
    FollowOne(Fine(JM.START), cs, 0);
    FollowOne(Fine(JM.START), cs, 1);
    FollowOne(Fine(JM.START), cs, 2);
    FollowOne(Fine(JM.START), cs, 3);
    FollowOne(Fine(JM.START), cs, 4);
    ExampleStates();
    ExampleElement();
    ExampleEnd();
  }

  lemma FollowOne(t: Track, cs: seq<Call>, i: nat)
    requires Going(t) && AllAccepted(JSON, cs) && i < |cs|
    ensures Follow(t, cs[..i + 1]) == Advance(Follow(t, cs[..i]), cs[i])
  {
    assert cs[..i + 1][..i] == cs[..i];
  }
}
