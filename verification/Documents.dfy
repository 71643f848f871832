/**
 The serializer as a state machine on values: the used bytes of the buffer, the used bytes of
 the CSV header, and the status flags. Every call is one step. The class in Serializer.dfy
 performs these steps in place.
 */
module Documents {
  import opened Bytes
  import opened Calls
  import opened JsonText
  import Tlv

  datatype Flags = Flags(comma: bool, inArray: bool, eor: bool, sob: bool, notEmpty: bool,
                         list: bool, sol: bool, hdrDone: bool)

  const NO_FLAGS := Flags(false, false, false, false, false, false, false, false)

  datatype Format = TLV | JSON | CSV

  datatype Doc = Doc(text: bytes, header: bytes, flags: Flags)

  /** `ndpi_reset_serializer`. The leading space of a JSON text makes room for a later '['. */
  function Empty(fmt: Format): Doc {
    match fmt
    case JSON => Doc([SPACE, LBRACE, RBRACE], [], NO_FLAGS)
    case CSV => Doc([], [], NO_FLAGS)
    case TLV => Doc(Tlv.HEADER, [], NO_FLAGS)
  }

  // ---- JSON ----

  function Chop(s: bytes, n: nat): (r: bytes)
    ensures n <= |s| ==> |r| == |s| - n
  {
    if n <= |s| then s[..|s| - n] else []
  }

  function One(b: bool): nat {
    if b then 1 else 0
  }

  /** How many closing characters `json_pre` takes off the tail. */
  function TailLength(f: Flags): nat {
    if f.eor then 1 else One(f.inArray) + 1 + One(f.list)
  }

  /** The closing characters `json_post` puts back. */
  function Closers(f: Flags): bytes {
    (if f.list then [RBRACKET] else []) + [RBRACE] + (if f.inArray then [RBRACKET] else [])
  }

  function Pre(d: Doc): Doc {
    var f := d.flags;
    var cut := Chop(d.text, TailLength(f));
    if f.eor then d.(text := cut + [COMMA, LBRACE], flags := f.(eor := false))
    else if f.list then
      if f.sol then d.(text := cut, flags := f.(sol := false)) else d.(text := cut + [COMMA])
    else if f.sob then d.(text := cut, flags := f.(sob := false))
    else if f.comma then d.(text := cut + [COMMA])
    else d.(text := cut)
  }

  function Post(d: Doc): Doc {
    d.(text := d.text + Closers(d.flags), flags := d.flags.(comma := true))
  }

  function Append(d: Doc, s: bytes): Doc {
    d.(text := d.text + s)
  }

  /** The name and colon of a member. Number keys are printed with `"%u":`. */
  function KeyText(k: Key, sc: bool): bytes {
    match k
    case NumKey(n) => [QUOTE] + Decimal(n) + [QUOTE, COLON]
    case StrKey(s) => Quoted(s, sc) + [COLON]
  }

  function ValText(v: Val, sc: bool): bytes
    requires !v.Flt?
  {
    match v
    case U32(n) => Decimal(n)
    case U64(n) => Decimal(n)
    case I32(i) => IntText(i)
    case I64(i) => IntText(i)
    case Bin(s) => Quoted(s, sc)
    case Bool(b) => if b then TRUE else FALSE
  }

  function PutText(k: Key, v: Val, inList: bool, sc: bool): bytes
    requires !v.Flt?
  {
    (if inList then [] else KeyText(NormKey(k), sc)) + ValText(v, sc)
  }

  function OpenText(name: bytes, bracket: byte, sc: bool): bytes {
    Quoted(name, sc) + [COLON, SPACE, bracket]
  }

  /** Calls the JSON format can spell. The text of a `float` depends on the caller's format string. */
  predicate Spellable(c: Call) {
    ValidCall(c) && !(c.Put? && c.val.Flt?)
  }

  function StepJson(d: Doc, c: Call, sc: bool): Doc
    requires Spellable(c)
  {
    match c
    case Put(k, v) =>
      var p := Pre(d);
      var q := Post(Append(p, PutText(k, v, p.flags.list, sc)));
      q.(flags := q.flags.(notEmpty := true))
    case StartList(name) =>
      var p := Append(Pre(d), OpenText(name, LBRACKET, sc));
      Post(p.(flags := p.flags.(list := true, sol := true)))
    case EndList => d.(flags := d.flags.(sol := false, list := false))
    case StartBlock(name) =>
      var p := Post(Append(Pre(d), OpenText(name, LBRACE, sc)));
      p.(flags := p.flags.(sob := true))
    case EndBlock => Post(d.(flags := d.flags.(sob := false)))
    case EndRecord =>
      var f := d.flags.(inArray := true, eor := true, comma := false, notEmpty := false);
      if d.flags.inArray || d.text == [] then d.(flags := f)
      else d.(text := d.text[0 := LBRACKET] + [RBRACKET], flags := f)
  }

  /** Room for the closers, and two characters in front of them. */
  predicate Roomy(fmt: Format, used: nat, flags: Flags) {
    fmt.JSON? ==> used >= TailLength(flags) + 2
  }

  /** Taking the tail off and closing again never makes the text shorter. */
  lemma PreCloses(d: Doc)
    requires Roomy(JSON, |d.text|, d.flags)
    ensures |d.text| <= |Pre(d).text| + |Closers(Pre(d).flags)|
    ensures |Pre(d).text| >= 2
    ensures !Pre(d).flags.eor && Pre(d).flags.inArray == d.flags.inArray && Pre(d).flags.list == d.flags.list
  {
  }

  /** Writing between `Pre` and the closers. */
  lemma RewriteGrows(d: Doc, s: bytes, f: Flags)
    requires Roomy(JSON, |d.text|, d.flags) && !f.eor && f.inArray == d.flags.inArray && (d.flags.list ==> f.list)
    ensures var e := Doc(Pre(d).text + s + Closers(f), d.header, f);
            Roomy(JSON, |e.text|, e.flags) && |e.text| >= |d.text|
  {
    PreCloses(d);
    assert |Closers(f)| == TailLength(f);
  }

  lemma PutGrows(d: Doc, k: Key, v: Val, sc: bool)
    requires Spellable(Put(k, v)) && Roomy(JSON, |d.text|, d.flags)
    ensures var e := StepJson(d, Put(k, v), sc); Roomy(JSON, |e.text|, e.flags) && |e.text| >= |d.text|
  {
    PreCloses(d);
    var e := StepJson(d, Put(k, v), sc);
    RewriteGrows(d, PutText(k, v, Pre(d).flags.list, sc), e.flags);
  }

  lemma OpenGrows(d: Doc, c: Call, sc: bool)
    requires Spellable(c) && (c.StartList? || c.StartBlock?) && Roomy(JSON, |d.text|, d.flags)
    ensures var e := StepJson(d, c, sc); Roomy(JSON, |e.text|, e.flags) && |e.text| >= |d.text|
  {
    PreCloses(d);
    var e := StepJson(d, c, sc);
    RewriteGrows(d, OpenText(c.name, if c.StartList? then LBRACKET else LBRACE, sc), e.flags);
  }

  lemma EndGrows(d: Doc, c: Call, sc: bool)
    requires Roomy(JSON, |d.text|, d.flags) && (c.EndList? || c.EndBlock? || c.EndRecord?)
    ensures var e := StepJson(d, c, sc); Roomy(JSON, |e.text|, e.flags) && |e.text| >= |d.text|
  {
  }

  /** Every call leaves room for the closers, and no call shortens the text. */
  lemma StepJsonGrows(d: Doc, c: Call, sc: bool)
    requires Spellable(c) && Roomy(JSON, |d.text|, d.flags)
    ensures var e := StepJson(d, c, sc); Roomy(JSON, |e.text|, e.flags) && |e.text| >= |d.text|
  {
    match c {
      case Put(k, v) => PutGrows(d, k, v, sc);
      case StartList(_) => OpenGrows(d, c, sc);
      case StartBlock(_) => OpenGrows(d, c, sc);
      case _ => EndGrows(d, c, sc);
    }
  }

  // ---- TLV ----

  function StepTlv(d: Doc, c: Call): Doc
    requires ValidCall(c)
  {
    match c
    case Put(_, v) =>
      if v.Bool? then d
      else d.(text := d.text + Tlv.Encode(c), flags := d.flags.(notEmpty := true))
    case EndRecord => d.(text := d.text + Tlv.Encode(c), flags := d.flags.(notEmpty := false))
    case _ => d.(text := d.text + Tlv.Encode(c))
  }

  predicate Accepts(fmt: Format, c: Call) {
    ValidCall(c) && (fmt.JSON? ==> Spellable(c))
  }

  /** One call in either tree-like format. */
  function Step(fmt: Format, d: Doc, c: Call, sc: bool): Doc
    requires !fmt.CSV? && Accepts(fmt, c)
  {
    if fmt.JSON? then StepJson(d, c, sc) else StepTlv(d, c)
  }

  ghost predicate AllAccepted(fmt: Format, cs: seq<Call>) {
    forall i :: 0 <= i < |cs| ==> Accepts(fmt, cs[i])
  }

  function Run(fmt: Format, d: Doc, cs: seq<Call>, sc: bool): Doc
    requires !fmt.CSV? && AllAccepted(fmt, cs)
  {
    if cs == [] then d else Step(fmt, Run(fmt, d, cs[..|cs| - 1], sc), cs[|cs| - 1], sc)
  }

  /** A value call that the format takes. */
  predicate Counts(fmt: Format, c: Call) { c.Put? && !(fmt.TLV? && c.val.Bool?) }

  /** A value was written since the last end of record. */
  ghost predicate HasValue(fmt: Format, cs: seq<Call>) {
    exists i :: 0 <= i < |cs| && Counts(fmt, cs[i]) && forall j :: i < j < |cs| ==> !cs[j].EndRecord?
  }

  lemma HasValueMore(fmt: Format, cs: seq<Call>, c: Call)
    ensures HasValue(fmt, cs + [c]) <==> Counts(fmt, c) || (HasValue(fmt, cs) && !c.EndRecord?)
  {
    var more := cs + [c];
    if Counts(fmt, c) {
      assert Counts(fmt, more[|cs|]);
    }
    if HasValue(fmt, cs) && !c.EndRecord? {
      var i :| 0 <= i < |cs| && Counts(fmt, cs[i]) && forall j :: i < j < |cs| ==> !cs[j].EndRecord?;
      assert Counts(fmt, more[i]) && forall j :: i < j < |more| ==> !more[j].EndRecord?;
    }
    if HasValue(fmt, more) && !Counts(fmt, c) {
      var i :| 0 <= i < |more| && Counts(fmt, more[i]) && forall j :: i < j < |more| ==> !more[j].EndRecord?;
      assert Counts(fmt, cs[i]) && more[|cs|] == c;
      assert forall j :: i < j < |cs| ==> cs[j] == more[j];
    }
  }

  /** The flag for a record that is not empty is set exactly if a value was written since the last end of record. */
  lemma {:induction false} NotEmptyExactly(fmt: Format, cs: seq<Call>, sc: bool)
    requires !fmt.CSV? && AllAccepted(fmt, cs)
    ensures Run(fmt, Empty(fmt), cs, sc).flags.notEmpty <==> HasValue(fmt, cs)
    decreases |cs|
  {
    if cs != [] {
      var n := |cs| - 1;
      NotEmptyExactly(fmt, cs[..n], sc);
      HasValueMore(fmt, cs[..n], cs[n]);
      assert cs == cs[..n] + [cs[n]];
      StepNotEmpty(fmt, Run(fmt, Empty(fmt), cs[..n], sc), cs[n], sc);
    }
  }

  lemma PreNotEmpty(d: Doc)
    ensures Pre(d).flags.notEmpty == d.flags.notEmpty
  {
  }

  lemma PutNotEmpty(d: Doc, k: Key, v: Val, sc: bool)
    requires Spellable(Put(k, v))
    ensures StepJson(d, Put(k, v), sc).flags.notEmpty
  {
  }

  lemma StartNotEmpty(d: Doc, name: bytes, sc: bool)
    requires |name| < TWO16
    ensures StepJson(d, StartList(name), sc).flags == Pre(d).flags.(list := true, sol := true, comma := true)
    ensures StepJson(d, StartBlock(name), sc).flags == Pre(d).flags.(sob := true, comma := true)
  {
  }

  lemma EndNotEmpty(d: Doc, sc: bool)
    ensures StepJson(d, EndList, sc).flags.notEmpty == StepJson(d, EndBlock, sc).flags.notEmpty == d.flags.notEmpty
    ensures !StepJson(d, EndRecord, sc).flags.notEmpty
  {
  }

  lemma StepNotEmpty(fmt: Format, d: Doc, c: Call, sc: bool)
    requires !fmt.CSV? && Accepts(fmt, c)
    ensures Step(fmt, d, c, sc).flags.notEmpty <==> Counts(fmt, c) || (d.flags.notEmpty && !c.EndRecord?)
  {
    if fmt.JSON? {
      PreNotEmpty(d);
      EndNotEmpty(d, sc);
      match c {
        case Put(k, v) => PutNotEmpty(d, k, v, sc);
        case StartList(name) => StartNotEmpty(d, name, sc);
        case StartBlock(name) => StartNotEmpty(d, name, sc);
        case _ =>
      }
    }
  }

  // ---- CSV ----

  /** A field, whose texts are whatever `snprintf` makes of it, or the end of a record. */
  datatype CsvCall = Field(name: bytes, text: bytes, marks: bool) | NewLine

  function StepCsv(d: Doc, c: CsvCall, separator: byte): Doc {
    match c
    case Field(name, text, marks) =>
      var header :=
        if d.flags.hdrDone then d.header
        else d.header + (if d.header == [] then [] else [separator]) + name;
      var lead: bytes := if d.flags.eor || d.text == [] then [] else [separator];
      Doc(d.text + lead + text, header, d.flags.(eor := false, notEmpty := d.flags.notEmpty || marks))
    case NewLine => d.(text := d.text + [10], flags := d.flags.(hdrDone := true, eor := true, notEmpty := false))
  }

  function RunCsv(d: Doc, cs: seq<CsvCall>, separator: byte): Doc {
    if cs == [] then d else StepCsv(RunCsv(d, cs[..|cs| - 1], separator), cs[|cs| - 1], separator)
  }

  // ---- Snapshots ----

  /** `ndpi_private_serializer_status`: the two lengths and the flags, not the bytes. */
  datatype Snapshot = Snapshot(used: nat, headerUsed: nat, flags: Flags)

  function Take(d: Doc): Snapshot {
    Snapshot(|d.text|, |d.header|, d.flags)
  }

  /** `ndpi_serializer_rollback_snapshot`: restore the status, then repair the JSON tail. */
  function Rollback(fmt: Format, d: Doc, s: Snapshot): Doc
    requires s.used <= |d.text| && s.headerUsed <= |d.header|
    requires fmt.JSON? ==> s.used > 0
  {
    var text := d.text[..s.used];
    var header := d.header[..s.headerUsed];
    if !fmt.JSON? then Doc(text, header, s.flags)
    else if s.flags.inArray then Doc(text[s.used - 1 := RBRACKET], header, s.flags)
    else Doc(text[0 := SPACE][s.used - 1 := RBRACE], header, s.flags)
  }
}
