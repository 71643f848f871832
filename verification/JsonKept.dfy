/**
 The part of a JSON text that later calls keep: everything between the first byte and the
 closers. Any call at all only adds to it.
 */
module JsonKept {
  import opened Bytes
  import opened Calls
  import opened JsonText
  import opened Documents
  import opened Rollbacks

  // ---- What a call adds to the part that is kept ----

  /** The closing characters at the end of a document, which the next call takes off. */
  function Tail(f: Flags): bytes { if f.eor then [RBRACKET] else Closers(f) }

  /** The text between its first byte and the tail. */
  function Inner(d: Doc): bytes
    requires Sound(d)
  {
    d.text[1..Floor(d)]
  }

  lemma TextParts(d: Doc)
    requires Sound(d)
    ensures d.text == [d.text[0]] + Inner(d) + Tail(d.flags)
  {
    var n := Floor(d);
    assert d.text[n..] == Tail(d.flags);
    assert d.text == [d.text[0]] + d.text[1..n] + d.text[n..];
  }

  lemma InnerIs(d: Doc, x: byte, y: bytes)
    requires Sound(d) && d.text == [x] + y + Tail(d.flags)
    ensures Inner(d) == y
  {
    assert |Tail(d.flags)| == TailLength(d.flags);
    assert d.text[1..Floor(d)] == y;
  }

  /** What `Pre` writes once the tail is off, and the flags it leaves. */
  function Pause(f: Flags): bytes {
    if f.eor then [COMMA, LBRACE]
    else if f.list then if f.sol then [] else [COMMA]
    else if f.sob then []
    else if f.comma then [COMMA]
    else []
  }

  function Unpaused(f: Flags): Flags {
    if f.eor then f.(eor := false)
    else if f.list then f.(sol := false)
    else f.(sob := false)
  }

  function NextFlags(f: Flags, c: Call): Flags {
    match c
    case Put(_, _) => Unpaused(f).(comma := true, notEmpty := true)
    case StartList(_) => Unpaused(f).(list := true, sol := true, comma := true)
    case EndList => f.(sol := false, list := false)
    case StartBlock(_) => Unpaused(f).(comma := true, sob := true)
    case EndBlock => f.(sob := false, comma := true)
    case EndRecord => f.(inArray := true, eor := true, comma := false, notEmpty := false)
  }

  /** The closers but the last of an array. */
  function Stub(f: Flags): bytes { (if f.list then [RBRACKET] else []) + [RBRACE] }

  function Written(f: Flags, c: Call, sc: bool): bytes
    requires Spellable(c)
  {
    match c
    case Put(k, v) => Pause(f) + PutText(k, v, f.list, sc)
    case StartList(name) => Pause(f) + OpenText(name, LBRACKET, sc)
    case EndList => if !f.eor && f.list then [RBRACKET] else []
    case StartBlock(name) => Pause(f) + OpenText(name, LBRACE, sc)
    case EndBlock => if f.eor then [RBRACKET] + Stub(f) else Closers(f)
    case EndRecord => if f.eor then [] else if f.inArray then Stub(f) else Closers(f)
  }

  lemma PreParts(d: Doc)
    requires Sound(d)
    ensures Pre(d).text == [d.text[0]] + (Inner(d) + Pause(d.flags)) && Pre(d).flags == Unpaused(d.flags)
  {
    var cut := d.text[..Floor(d)];
    assert cut == [d.text[0]] + Inner(d);
    assert Pre(d).text == cut + Pause(d.flags);
    Glue3([d.text[0]], Inner(d), Pause(d.flags));
  }

  /** The calls that take the tail off and write. */
  lemma RewriteWrites(d: Doc, c: Call, sc: bool)
    requires Sound(d) && Spellable(c) && (c.Put? || c.StartList? || c.StartBlock?)
    ensures var e := StepJson(d, c, sc);
            Sound(e) && e.flags == NextFlags(d.flags, c) && Inner(e) == Inner(d) + Written(d.flags, c, sc)
  {
    StepKeeps(d, c, sc);
    PreParts(d);
    var e := StepJson(d, c, sc);
    var p := Pause(d.flags);
    var s :=
      if c.Put? then PutText(c.key, c.val, d.flags.list, sc)
      else OpenText(c.name, if c.StartList? then LBRACKET else LBRACE, sc);
    assert e.text == Pre(d).text + s + Tail(e.flags);
    Glue3(Inner(d), p, s);
    Glue3([d.text[0]], Inner(d) + p, s);
    InnerIs(e, d.text[0], Inner(d) + p + s);
  }

  lemma EndBlockBehindRecord(d: Doc, sc: bool)
    requires Sound(d) && d.flags.eor
    ensures var e := StepJson(d, EndBlock, sc); Sound(e) && Inner(e) == Inner(d) + ([RBRACKET] + Stub(d.flags))
  {
    StepKeeps(d, EndBlock, sc);
    TextParts(d);
    var x, y, f := d.text[0], Inner(d), d.flags;
    assert Closers(f) == Stub(f) + [RBRACKET];
    GlueEnd([x], y, [RBRACKET], Stub(f), [RBRACKET]);
    InnerIs(StepJson(d, EndBlock, sc), x, y + ([RBRACKET] + Stub(f)));
  }

  lemma EndBlockInRecord(d: Doc, sc: bool)
    requires Sound(d) && !d.flags.eor
    ensures var e := StepJson(d, EndBlock, sc); Sound(e) && Inner(e) == Inner(d) + Closers(d.flags)
  {
    StepKeeps(d, EndBlock, sc);
    TextParts(d);
    var x, y, f := d.text[0], Inner(d), d.flags;
    Glue3([x], y, Closers(f));
    InnerIs(StepJson(d, EndBlock, sc), x, y + Closers(f));
  }

  lemma EndBlockWrites(d: Doc, sc: bool)
    requires Sound(d)
    ensures var e := StepJson(d, EndBlock, sc);
            Sound(e) && e.flags == NextFlags(d.flags, EndBlock) && Inner(e) == Inner(d) + Written(d.flags, EndBlock, sc)
  {
    if d.flags.eor {
      EndBlockBehindRecord(d, sc);
    } else {
      EndBlockInRecord(d, sc);
    }
  }

  lemma GlueEnd(x: bytes, y: bytes, a: bytes, b: bytes, c: bytes)
    ensures x + y + a + (b + c) == x + (y + (a + b)) + c
  {
    Glue3(x + y + a, b, c);
    Glue4(x, y, a, b);
    Glue3(y, a, b);
  }

  lemma EndListWrites(d: Doc, sc: bool)
    requires Sound(d)
    ensures var e := StepJson(d, EndList, sc);
            Sound(e) && e.flags == NextFlags(d.flags, EndList) && Inner(e) == Inner(d) + Written(d.flags, EndList, sc)
  {
    StepKeeps(d, EndList, sc);
    TextParts(d);
    var e := StepJson(d, EndList, sc);
    var x, y, f := d.text[0], Inner(d), d.flags;
    if !f.eor && f.list {
      assert Closers(f) == [RBRACKET] + Closers(e.flags);
      Glue3([x] + y, [RBRACKET], Closers(e.flags));
      Glue3([x], y, [RBRACKET]);
      InnerIs(e, x, y + [RBRACKET]);
    } else {
      GlueEmpty(y);
      InnerIs(e, x, y);
    }
  }

  lemma FirstRecordWrites(d: Doc, sc: bool)
    requires Sound(d) && !d.flags.inArray
    ensures var e := StepJson(d, EndRecord, sc);
            Sound(e) && Inner(e) == Inner(d) + Closers(d.flags)
  {
    StepKeeps(d, EndRecord, sc);
    TextParts(d);
    var x, z := d.text[0], Inner(d) + Closers(d.flags);
    Glue3([x], Inner(d), Closers(d.flags));
    assert ([x] + z)[0 := LBRACKET] == [LBRACKET] + z;
    InnerIs(StepJson(d, EndRecord, sc), LBRACKET, z);
  }

  lemma LaterRecordWrites(d: Doc, sc: bool)
    requires Sound(d) && d.flags.inArray && !d.flags.eor
    ensures var e := StepJson(d, EndRecord, sc);
            Sound(e) && Inner(e) == Inner(d) + Stub(d.flags)
  {
    StepKeeps(d, EndRecord, sc);
    TextParts(d);
    var x, y, f := d.text[0], Inner(d), d.flags;
    assert Closers(f) == Stub(f) + [RBRACKET];
    Glue3([x] + y, Stub(f), [RBRACKET]);
    Glue3([x], y, Stub(f));
    InnerIs(StepJson(d, EndRecord, sc), x, y + Stub(f));
  }

  lemma EndRecordWrites(d: Doc, sc: bool)
    requires Sound(d)
    ensures var e := StepJson(d, EndRecord, sc);
            Sound(e) && e.flags == NextFlags(d.flags, EndRecord) && Inner(e) == Inner(d) + Written(d.flags, EndRecord, sc)
  {
    if !d.flags.inArray {
      FirstRecordWrites(d, sc);
    } else if !d.flags.eor {
      LaterRecordWrites(d, sc);
    } else {
      StepKeeps(d, EndRecord, sc);
      GlueEmpty(Inner(d));
    }
  }

  /** Whatever the call, the kept part only grows, by bytes that depend on the flags alone. */
  lemma StepWrites(d: Doc, c: Call, sc: bool)
    requires Sound(d) && Spellable(c)
    ensures var e := StepJson(d, c, sc);
            Sound(e) && e.flags == NextFlags(d.flags, c) && Inner(e) == Inner(d) + Written(d.flags, c, sc)
  {
    match c {
      case EndBlock => EndBlockWrites(d, sc);
      case EndList => EndListWrites(d, sc);
      case EndRecord => EndRecordWrites(d, sc);
      case _ => RewriteWrites(d, c, sc);
    }
  }
}
