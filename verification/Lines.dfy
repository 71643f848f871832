/** Splitting a payload into lines at CR LF, and the HTTP header values found in those lines. */
module Lines {
  import opened Bytes

  const CR: byte := 13
  const LF: byte := 10
  const SPACE: byte := 32
  const SEMICOLON: byte := 59
  const CRLF: bytes := [CR, LF]
  const MAX_LINES := 64

  /** A stretch of the payload: what a pointer and a length denote. */
  datatype Slice = Slice(off: nat, len: nat)

  predicate Within(p: bytes, l: Slice) { l.off + l.len <= |p| }

  predicate AllWithin(p: bytes, ls: seq<Slice>) { forall k :: 0 <= k < |ls| ==> Within(p, ls[k]) }

  predicate SubSlice(v: Slice, l: Slice) { l.off <= v.off && v.off + v.len <= l.off + l.len }

  function Text(p: bytes, l: Slice): bytes
    requires Within(p, l)
  {
    p[l.off..l.off + l.len]
  }

  predicate CrlfAt(p: bytes, k: nat) { k + 1 < |p| && p[k] == CR && p[k + 1] == LF }

  /** A line end is a carriage return and a line feed. */
  lemma CrlfExactly(p: bytes, k: nat)
    ensures CRLF == [13, 10]
    ensures CrlfAt(p, k) <==> k + 2 <= |p| && p[k..k + 2] == [13, 10]
  {
    if k + 2 <= |p| {
      assert p[k..k + 2] == [p[k], p[k + 1]];
    }
  }

  predicate CrlfFree(t: bytes) { forall k: nat :: k < |t| ==> !CrlfAt(t, k) }

  // ---- Lines ----

  /** The lines of `p[start..]` when no line end was found before `i`. */
  function Split(p: bytes, start: nat, i: nat): (r: seq<Slice>)
    requires start <= i <= |p|
    ensures |r| > 0 && AllWithin(p, r)
    decreases |p| - i
  {
    if i + 1 >= |p| then [Slice(start, |p| - start)]
    else if CrlfAt(p, i) then [Slice(start, i - start)] + Split(p, i + 2, i + 2)
    else Split(p, start, i + 1)
  }

  /** How many positions from `i` on hold a CR LF. */
  function Crlfs(p: bytes, i: nat): nat
    decreases |p| - i
  {
    if i >= |p| then 0 else (if CrlfAt(p, i) then 1 else 0) + Crlfs(p, i + 1)
  }

  function Texts(p: bytes, ls: seq<Slice>): (r: seq<bytes>)
    requires AllWithin(p, ls)
    ensures |r| == |ls|
  {
    seq(|ls|, k requires 0 <= k < |ls| => Text(p, ls[k]))
  }

  function Join(ts: seq<bytes>): bytes
    requires |ts| > 0
  {
    if |ts| == 1 then ts[0] else ts[0] + CRLF + Join(ts[1..])
  }

  /** There is one line more than there are line ends. */
  lemma {:induction false} SplitCounts(p: bytes, start: nat, i: nat)
    requires start <= i <= |p|
    ensures |Split(p, start, i)| == Crlfs(p, i) + 1
    decreases |p| - i
  {
    if i + 1 >= |p| {
      assert i < |p| ==> Crlfs(p, i + 1) == 0;
    } else if CrlfAt(p, i) {
      assert Crlfs(p, i + 1) == Crlfs(p, i + 2);
      SplitCounts(p, i + 2, i + 2);
    } else {
      SplitCounts(p, start, i + 1);
    }
  }

  lemma TextsCons(p: bytes, l: Slice, rest: seq<Slice>)
    requires Within(p, l) && AllWithin(p, rest)
    ensures AllWithin(p, [l] + rest) && Texts(p, [l] + rest) == [Text(p, l)] + Texts(p, rest)
  {
    assert forall k :: 0 < k < |rest| + 1 ==> ([l] + rest)[k] == rest[k - 1];
  }

  /** Joining the lines gives back the payload. */
  lemma {:induction false} JoinSplit(p: bytes, start: nat, i: nat)
    requires start <= i <= |p|
    ensures Join(Texts(p, Split(p, start, i))) == p[start..]
    decreases |p| - i
  {
    if i + 1 >= |p| {
    } else if CrlfAt(p, i) {
      var rest := Split(p, i + 2, i + 2);
      JoinSplit(p, i + 2, i + 2);
      TextsCons(p, Slice(start, i - start), rest);
      var ts := Texts(p, rest);
      assert ([p[start..i]] + ts)[1..] == ts;
      assert p[start..] == p[start..i] + CRLF + p[i + 2..];
    } else {
      JoinSplit(p, start, i + 1);
    }
  }

  /** No line contains a line end. */
  lemma {:induction false} SplitIsFree(p: bytes, start: nat, i: nat, k: nat)
    requires start <= i <= |p|
    requires forall j :: start <= j < i ==> !CrlfAt(p, j)
    requires k < |Split(p, start, i)|
    ensures CrlfFree(Text(p, Split(p, start, i)[k]))
    decreases |p| - i
  {
    if i + 1 >= |p| {
      assert forall j: nat :: j < |p| - start ==> (CrlfAt(p[start..], j) ==> CrlfAt(p, start + j));
      assert Text(p, Slice(start, |p| - start)) == p[start..];
    } else if CrlfAt(p, i) {
      if k == 0 {
        assert forall j: nat :: j < i - start ==> (CrlfAt(p[start..i], j) ==> CrlfAt(p, start + j));
      } else {
        SplitIsFree(p, i + 2, i + 2, k - 1);
      }
    } else {
      SplitIsFree(p, start, i + 1, k);
    }
  }

  lemma {:induction false} SkipOver(p: bytes, start: nat, i: nat, e: nat)
    requires start <= i <= e <= |p|
    requires forall j :: i <= j < e ==> !CrlfAt(p, j)
    ensures Split(p, start, i) == Split(p, start, e)
    decreases e - i
  {
    if i < e {
      if i + 1 < |p| {
        SkipOver(p, start, i + 1, e);
      }
    }
  }

  /** Splitting undoes joining, whatever CR-LF-free lines were joined. */
  lemma {:induction false} SplitJoin(ts: seq<bytes>, p: bytes, start: nat)
    requires |ts| > 0 && forall k :: 0 <= k < |ts| ==> CrlfFree(ts[k])
    requires start <= |p| && p[start..] == Join(ts)
    ensures Texts(p, Split(p, start, start)) == ts
    decreases |ts|
  {
    var t := ts[0];
    var e := start + |t|;
    if |ts| == 1 {
      LastLine(p, start, t);
      assert ts == [t];
    } else {
      var tail := Join(ts[1..]);
      JoinedHere(p, start, t, tail);
      SkipOver(p, start, start, e);
      SplitJoin(ts[1..], p, e + 2);
      TextsCons(p, Slice(start, |t|), Split(p, e + 2, e + 2));
      assert ts == [t] + ts[1..];
    }
  }

  lemma LastLine(p: bytes, start: nat, t: bytes)
    requires start <= |p| && p[start..] == t && CrlfFree(t)
    ensures Texts(p, Split(p, start, start)) == [t]
  {
    assert forall j :: start <= j < |p| ==> p[j] == t[j - start];
    assert forall j :: start <= j < |p| && CrlfAt(p, j) ==> CrlfAt(t, j - start);
    SkipOver(p, start, start, |p|);
    assert Split(p, start, |p|) == [Slice(start, |t|)];
    assert Text(p, Slice(start, |t|)) == t;
  }

  lemma JoinedHere(p: bytes, start: nat, t: bytes, tail: bytes)
    requires start <= |p| && p[start..] == t + CRLF + tail && CrlfFree(t)
    ensures start + |t| + 2 <= |p| && CrlfAt(p, start + |t|)
    ensures p[start + |t| + 2..] == tail && p[start..start + |t|] == t
    ensures forall j :: start <= j < start + |t| ==> !CrlfAt(p, j)
  {
    var e := start + |t|;
    var q := t + CRLF + tail;
    assert |q| == |t| + 2 + |tail|;
    assert q[|t|] == CR && q[|t| + 1] == LF && q[|t| + 2..] == tail && q[..|t|] == t;
    assert forall j :: start <= j < |p| ==> p[j] == q[j - start];
    forall j | start <= j < e
      ensures !CrlfAt(p, j)
    {
      if j + 1 < e {
        assert !CrlfAt(t, j - start);
      }
    }
  }

  // ---- Header values ----

  datatype Slot =
    | Server | Host | Forwarded | Authorization | Accept | Referer | UserAgent | Encoding
    | TransferEncoding | ContentLength | ContentDisposition | Cookie | Origin | SessionType
    | Content | Response

  /** The name that must start a line, in lower case. */
  function Name(s: Slot): string {
    match s
    case Server => "server:"
    case Host => "host:"
    case Forwarded => "x-forwarded-for:"
    case Authorization => "authorization: "
    case Accept => "accept: "
    case Referer => "referer: "
    case UserAgent => "user-agent: "
    case Encoding => "content-encoding: "
    case TransferEncoding => "transfer-encoding: "
    case ContentLength => "content-length: "
    case ContentDisposition => "content-disposition: "
    case Cookie => "cookie: "
    case Origin => "origin: "
    case SessionType => "x-session-type: "
    case Content => "content-type: "
    case Response => "http/1."
  }

  const BARE_CONTENT := "content-type:"

  /** Server, Host and X-Forwarded-For may leave out the space after the colon. */
  predicate SpaceIsOptional(s: Slot) { s.Server? || s.Host? || s.Forwarded? }

  function Lower(b: byte): int { if 65 <= b <= 90 then b as int + 32 else b as int }

  predicate StartsWith(p: bytes, l: Slice, name: string)
    requires Within(p, l)
  {
    l.len >= |name| && forall i :: 0 <= i < |name| ==> Lower(p[l.off + i]) == name[i] as int
  }

  predicate Names(p: bytes, l: Slice, s: Slot)
    requires Within(p, l)
  {
    l.len > |Name(s)| + (if SpaceIsOptional(s) then 1 else 0) && StartsWith(p, l, Name(s))
  }

  function Drop(l: Slice, n: nat): Slice
    requires n <= l.len
  {
    Slice(l.off + n, l.len - n)
  }

  function SkipSpaces(p: bytes, l: Slice): (r: Slice)
    requires Within(p, l)
    ensures r.off + r.len == l.off + l.len && l.off <= r.off
    ensures r.len > 0 ==> p[r.off] != SPACE
    ensures forall k :: l.off <= k < r.off ==> p[k] == SPACE
    decreases l.len
  {
    if l.len > 0 && p[l.off] == SPACE then SkipSpaces(p, Drop(l, 1)) else l
  }

  /** `memchr`: the part of the slice before the first `c`. */
  function CutAt(p: bytes, l: Slice, c: byte): (r: Slice)
    requires Within(p, l)
    ensures r.off == l.off && r.len <= l.len
    ensures forall k :: r.off <= k < r.off + r.len ==> p[k] != c
    ensures r.len < l.len ==> p[r.off + r.len] == c
    decreases l.len
  {
    if l.len == 0 || p[l.off] == c then Slice(l.off, 0)
    else Slice(l.off, 1 + CutAt(p, Drop(l, 1), c).len)
  }

  /** The value in a line that names `s`. */
  function Value(p: bytes, l: Slice, s: Slot): (v: Slice)
    requires Within(p, l) && Names(p, l, s)
    ensures SubSlice(v, l)
  {
    var n := |Name(s)|;
    if SpaceIsOptional(s) && p[l.off + n] == SPACE then Drop(l, n + 1)
    else if s.Authorization? || s.Content? then SkipSpaces(p, Drop(l, n))
    else Drop(l, n)
  }

  /** Header names as the standards spell them, without regard to case; most are followed by a colon and a space. */
  lemma NamesAre()
    ensures Name(Server) == "server:" && Name(Host) == "host:" && Name(Forwarded) == "x-forwarded-for:"
    ensures Name(Authorization) == "authorization: " && Name(Accept) == "accept: " && Name(Referer) == "referer: "
    ensures Name(UserAgent) == "user-agent: " && Name(Encoding) == "content-encoding: "
    ensures Name(TransferEncoding) == "transfer-encoding: " && Name(ContentLength) == "content-length: "
    ensures Name(ContentDisposition) == "content-disposition: " && Name(Cookie) == "cookie: "
    ensures Name(Origin) == "origin: " && Name(SessionType) == "x-session-type: " && Name(Content) == "content-type: "
    ensures Name(Response) == "http/1." && BARE_CONTENT == "content-type:"
  {
  }

  predicate AllSpaces(s: bytes) { forall i :: 0 <= i < |s| ==> s[i] == 32 }

  predicate SameLetters(s: bytes, name: string) {
    |s| == |name| && forall i :: 0 <= i < |s| ==> Lower(s[i]) == name[i] as int
  }

  lemma StartsExactly(p: bytes, l: Slice, name: string)
    requires Within(p, l)
    ensures StartsWith(p, l, name) <==> |Text(p, l)| >= |name| && SameLetters(Text(p, l)[..|name|], name)
  {
    if l.len >= |name| {
      var t := Text(p, l)[..|name|];
      assert forall i :: 0 <= i < |name| ==> t[i] == p[l.off + i];
    }
  }

  /** A line names a field exactly if it starts with the name, in any case, and goes on for at least one byte,
      two behind a name that ends with its colon. */
  lemma NamesExactly(p: bytes, l: Slice, s: Slot)
    requires Within(p, l)
    ensures var t, n := Text(p, l), |Name(s)|;
            Names(p, l, s) <==> |t| >= n + (if s.Server? || s.Host? || s.Forwarded? then 2 else 1) && SameLetters(t[..n], Name(s))
  {
    StartsExactly(p, l, Name(s));
  }

  /** Letters A to Z count as a to z, everything else as itself. */
  lemma LowerExactly(b: byte)
    ensures Lower(b) == (if 'A' <= b as char <= 'Z' then (b as int - 'A' as int) + 'a' as int else b as int)
  {
  }

  /** Where the value lies: at the end of the line, behind the name and nothing but spaces. */
  lemma ValuePlace(p: bytes, l: Slice, s: Slot)
    requires Within(p, l) && Names(p, l, s)
    ensures var n, v := |Name(s)|, Value(p, l, s);
            && l.off + n <= v.off && v.off + v.len == l.off + l.len
            && (forall k :: l.off + n <= k < v.off ==> p[k] == 32)
            && (s.Server? || s.Host? || s.Forwarded? ==> v.off <= l.off + n + 1 && v.len > 0 && (v.off == l.off + n ==> p[v.off] != 32))
            && (s.Authorization? || s.Content? ==> v.len == 0 || p[v.off] != 32)
            && (s !in {Server, Host, Forwarded, Authorization, Content} ==> v.off == l.off + n && v.len > 0)
  {
  }

  lemma LineParts(p: bytes, l: Slice, v: Slice, n: nat) returns (name: bytes, gap: bytes, value: bytes)
    requires Within(p, l) && l.off + n <= v.off && v.off + v.len == l.off + l.len
    requires forall k :: l.off + n <= k < v.off ==> p[k] == 32
    ensures name == p[l.off..l.off + n] && value == Text(p, v) && Text(p, l) == name + gap + value
    ensures AllSpaces(gap) && |gap| == v.off - l.off - n && (v.len > 0 ==> value[0] == p[v.off])
  {
    name, gap, value := p[l.off..l.off + n], p[l.off + n..v.off], Text(p, v);
  }

  lemma NameLetters(p: bytes, l: Slice, name: string)
    requires Within(p, l) && StartsWith(p, l, name)
    ensures SameLetters(p[l.off..l.off + |name|], name)
  {
  }

  /**
   A line is its name, then spaces, then its value: one space at most behind the names that end with their
   colon, all there are for authorization and content type, none for the others.
   */
  lemma ValueExactly(p: bytes, l: Slice, s: Slot) returns (name: bytes, gap: bytes, value: bytes)
    requires Within(p, l) && Names(p, l, s)
    ensures Within(p, Value(p, l, s)) && value == Text(p, Value(p, l, s)) && Text(p, l) == name + gap + value
    ensures SameLetters(name, Name(s)) && AllSpaces(gap)
    ensures s.Server? || s.Host? || s.Forwarded? ==> |gap| <= 1 && value != [] && (gap == [] ==> value[0] != 32)
    ensures s.Authorization? || s.Content? ==> value == [] || value[0] != 32
    ensures s !in {Server, Host, Forwarded, Authorization, Content} ==> gap == [] && value != []
  {
    ValuePlace(p, l, s);
    NameLetters(p, l, Name(s));
    name, gap, value := LineParts(p, l, Value(p, l, s), |Name(s)|);
  }

  datatype Maybe = None | Some(slot: Slot)

  /** The fields in the order in which the source tries them. */
  const ORDER: seq<Slot> := [
    Server, Host, Forwarded, Authorization, Accept, Referer, UserAgent, Encoding, TransferEncoding,
    ContentLength, ContentDisposition, Cookie, Origin, SessionType, Content
  ]

  function FieldFrom(p: bytes, l: Slice, i: nat): (f: Maybe)
    requires Within(p, l) && i <= |ORDER|
    ensures f.Some? ==> f.slot in ORDER && Names(p, l, f.slot)
    ensures f.None? ==> forall j :: i <= j < |ORDER| ==> !Names(p, l, ORDER[j])
    decreases |ORDER| - i
  {
    if i == |ORDER| then None
    else if Names(p, l, ORDER[i]) then Some(ORDER[i])
    else FieldFrom(p, l, i + 1)
  }

  /** The field of a line. */
  function Field(p: bytes, l: Slice): (f: Maybe)
    requires Within(p, l)
    ensures f.Some? ==> Names(p, l, f.slot)
  {
    FieldFrom(p, l, 0)
  }

  lemma Listed(s: Slot)
    ensures s in ORDER <==> !s.Response?
  {
    var order := ORDER;
    assert order[0] == Server && order[1] == Host && order[2] == Forwarded && order[3] == Authorization;
    assert order[4] == Accept && order[5] == Referer && order[6] == UserAgent && order[7] == Encoding;
    assert order[8] == TransferEncoding && order[9] == ContentLength && order[10] == ContentDisposition;
    assert order[11] == Cookie && order[12] == Origin && order[13] == SessionType && order[14] == Content;
  }

  /** No two names start the same line, so the order of the tests does not matter. */
  lemma FieldExactly(p: bytes, l: Slice, s: Slot)
    requires Within(p, l) && !s.Response?
    ensures Field(p, l) == Some(s) <==> Names(p, l, s)
  {
    var f := FieldFrom(p, l, 0);
    Listed(s);
    if Names(p, l, s) {
      var j :| 0 <= j < |ORDER| && ORDER[j] == s;
      assert f.Some?;
      Listed(f.slot);
      if f.slot != s {
        NamesApart(f.slot, s);
      }
    }
  }

  lemma NamesApart(s: Slot, t: Slot)
    requires s != t && !s.Response? && !t.Response?
    ensures exists i :: 0 <= i < |Name(s)| && i < |Name(t)| && Name(s)[i] != Name(t)[i]
  {
    var a, b := Name(s), Name(t);
    assert a[0] != b[0] || a[1] != b[1] || a[2] != b[2] || (|a| > 8 && |b| > 8 && a[8] != b[8]);
  }

  /** The status line of a response: its status code starts with 1 to 5. */
  predicate IsResponse(p: bytes, l: Slice)
    requires Within(p, l)
  {
    l.len >= 13 && StartsWith(p, l, Name(Response)) && 48 < p[l.off + 9] < 54
  }

  /** A value found for a slot. */
  datatype Found = Nothing | Found(slot: Slot, value: Slice)

  /** What one line has to say, whatever was recorded before it. */
  datatype Fact = Fact(status: Found, field: Found, bare: Found)

  predicate FoundIn(v: Found, l: Slice) { v.Found? ==> SubSlice(v.value, l) }

  predicate FactIn(f: Fact, l: Slice) {
    FoundIn(f.status, l) && FoundIn(f.field, l) && FoundIn(f.bare, l)
    && (f.status.Found? ==> f.status.slot.Response?) && (f.bare.Found? ==> f.bare.slot.Content?)
  }

  predicate FactsIn(fs: seq<Fact>, ls: seq<Slice>) {
    |fs| == |ls| && forall k :: 0 <= k < |fs| ==> FactIn(fs[k], ls[k])
  }

  function FactOf(p: bytes, l: Slice, first: bool): (f: Fact)
    requires Within(p, l)
    ensures FactIn(f, l)
  {
    var field := Field(p, l);
    Fact(
      if first && IsResponse(p, l) then Found(Response, Drop(l, 9)) else Nothing,
      if field.Some? then Found(field.slot, Value(p, l, field.slot)) else Nothing,
      if l.len > 13 && StartsWith(p, l, BARE_CONTENT) then Found(Content, Drop(l, 13)) else Nothing)
  }

  function FactsOf(p: bytes, ls: seq<Slice>): (r: seq<Fact>)
    requires AllWithin(p, ls)
    ensures FactsIn(r, ls)
  {
    seq(|ls|, k requires 0 <= k < |ls| => FactOf(p, ls[k], k == 0))
  }

  type Headers = map<Slot, Slice>

  predicate InPayload(p: bytes, h: Headers) { forall s :: s in h ==> Within(p, h[s]) }

  function NoteFact(h: Headers, f: Fact): Headers {
    var h1 := if f.status.Found? then h[f.status.slot := f.status.value] else h;
    if f.field.Found? then h1[f.field.slot := f.field.value]
    else if f.bare.Found? && (Content in h1 ==> h1[Content].len == 0) then h1[f.bare.slot := f.bare.value]
    else h1
  }

  /** A content type is cut before its parameters. */
  function CutContent(p: bytes, h: Headers): Headers
    requires InPayload(p, h)
  {
    if Content in h && h[Content].len > 0
    then h[Content := CutAt(p, CutAt(p, h[Content], SEMICOLON), CR)] else h
  }

  /** What one closed line adds to the headers. */
  function Note(p: bytes, h: Headers, f: Fact, l: Slice): (r: Headers)
    requires Within(p, l) && FactIn(f, l) && InPayload(p, h)
    ensures InPayload(p, r)
  {
    CutContent(p, NoteFact(h, f))
  }

  function Gather(p: bytes, fs: seq<Fact>, ls: seq<Slice>): (h: Headers)
    requires AllWithin(p, ls) && FactsIn(fs, ls)
    ensures InPayload(p, h)
  {
    if ls == [] then map[]
    else
      var n := |ls| - 1;
      Note(p, Gather(p, fs[..n], ls[..n]), fs[n], ls[n])
  }

  /** The headers after the closed lines `ls`. */
  function HeadersOf(p: bytes, ls: seq<Slice>): (h: Headers)
    requires AllWithin(p, ls)
  {
    Gather(p, FactsOf(p, ls), ls)
  }

  lemma {:induction false} GatheredInside(p: bytes, fs: seq<Fact>, ls: seq<Slice>, s: Slot)
    requires AllWithin(p, ls) && FactsIn(fs, ls) && s in Gather(p, fs, ls)
    ensures exists k :: 0 <= k < |ls| && SubSlice(Gather(p, fs, ls)[s], ls[k])
    decreases |ls|
  {
    var n := |ls| - 1;
    var h := Gather(p, fs[..n], ls[..n]);
    if s in h {
      GatheredInside(p, fs[..n], ls[..n], s);
      var k :| 0 <= k < n && SubSlice(h[s], ls[..n][k]);
      assert SubSlice(h[s], ls[k]);
      NoteInside(p, h, fs[n], ls[n], ls[k], s);
    } else {
      NoteInside(p, h, fs[n], ls[n], ls[n], s);
    }
  }

  lemma NoteInside(p: bytes, h: Headers, f: Fact, l: Slice, other: Slice, s: Slot)
    requires Within(p, l) && FactIn(f, l) && InPayload(p, h) && s in Note(p, h, f, l)
    requires s in h ==> SubSlice(h[s], other)
    ensures var v := Note(p, h, f, l)[s]; SubSlice(v, l) || (s in h && SubSlice(v, other))
  {
    var v := NoteFact(h, f)[s];
    assert SubSlice(v, l) || (s in h && SubSlice(v, other));
  }

  /** Every recorded value is a stretch of one of the lines. */
  lemma ValuesInsideLines(p: bytes, ls: seq<Slice>, s: Slot)
    requires AllWithin(p, ls) && s in HeadersOf(p, ls)
    ensures exists k :: 0 <= k < |ls| && SubSlice(HeadersOf(p, ls)[s], ls[k])
  {
    GatheredInside(p, FactsOf(p, ls), ls, s);
  }

  predicate Tells(f: Fact, s: Slot) { f.field.Found? && f.field.slot == s }

  lemma {:induction false} LastFactWins(p: bytes, fs: seq<Fact>, ls: seq<Slice>, s: Slot, k: nat)
    requires AllWithin(p, ls) && FactsIn(fs, ls) && !s.Content? && !s.Response?
    requires k < |fs| && Tells(fs[k], s) && forall j :: k < j < |fs| ==> !Tells(fs[j], s)
    ensures s in Gather(p, fs, ls) && Gather(p, fs, ls)[s] == fs[k].field.value
    decreases |ls|
  {
    var n := |ls| - 1;
    if k < n {
      LastFactWins(p, fs[..n], ls[..n], s, k);
      NoteElsewhere(p, Gather(p, fs[..n], ls[..n]), fs[n], ls[n], s);
    }
  }

  lemma {:induction false} NoFactNoValue(p: bytes, fs: seq<Fact>, ls: seq<Slice>, s: Slot)
    requires AllWithin(p, ls) && FactsIn(fs, ls) && !s.Content? && !s.Response?
    requires forall j :: 0 <= j < |fs| ==> !Tells(fs[j], s)
    ensures s !in Gather(p, fs, ls)
    decreases |ls|
  {
    if ls != [] {
      var n := |ls| - 1;
      NoFactNoValue(p, fs[..n], ls[..n], s);
      NoteElsewhere(p, Gather(p, fs[..n], ls[..n]), fs[n], ls[n], s);
    }
  }

  lemma NoteElsewhere(p: bytes, h: Headers, f: Fact, l: Slice, s: Slot)
    requires Within(p, l) && FactIn(f, l) && InPayload(p, h)
    requires !s.Content? && !s.Response? && !Tells(f, s)
    ensures var r := Note(p, h, f, l); (s in r <==> s in h) && (s in r ==> r[s] == h[s])
  {
  }

  lemma TellsNames(p: bytes, ls: seq<Slice>, s: Slot)
    requires AllWithin(p, ls) && !s.Response?
    ensures forall k :: 0 <= k < |ls| ==> (Tells(FactsOf(p, ls)[k], s) <==> Names(p, ls[k], s))
  {
    var fs := FactsOf(p, ls);
    forall k | 0 <= k < |ls|
      ensures Tells(fs[k], s) <==> Names(p, ls[k], s)
    {
      FieldExactly(p, ls[k], s);
    }
  }

  /** For every slot but the content type the last line that names it decides. */
  lemma LastNameWins(p: bytes, ls: seq<Slice>, s: Slot, k: nat)
    requires AllWithin(p, ls) && !s.Content? && !s.Response?
    requires k < |ls| && Names(p, ls[k], s) && forall j :: k < j < |ls| ==> !Names(p, ls[j], s)
    ensures s in HeadersOf(p, ls) && HeadersOf(p, ls)[s] == Value(p, ls[k], s)
  {
    TellsNames(p, ls, s);
    LastFactWins(p, FactsOf(p, ls), ls, s, k);
  }

  /** A slot that no line names stays empty. */
  lemma UnnamedIsEmpty(p: bytes, ls: seq<Slice>, s: Slot)
    requires AllWithin(p, ls) && !s.Content? && !s.Response?
    requires forall j :: 0 <= j < |ls| ==> !Names(p, ls[j], s)
    ensures s !in HeadersOf(p, ls)
  {
    TellsNames(p, ls, s);
    NoFactNoValue(p, FactsOf(p, ls), ls, s);
  }

  /** The content type never holds its parameters or a line break. */
  lemma ContentIsClean(p: bytes, ls: seq<Slice>)
    requires AllWithin(p, ls) && Content in HeadersOf(p, ls)
    ensures var v := HeadersOf(p, ls)[Content];
            Within(p, v) && SEMICOLON !in Text(p, v) && CR !in Text(p, v)
  {
    var fs := FactsOf(p, ls);
    var n := |ls| - 1;
    var h := NoteFact(Gather(p, fs[..n], ls[..n]), fs[n]);
    assert HeadersOf(p, ls) == CutContent(p, h);
  }

  lemma {:induction false} StatusKept(p: bytes, fs: seq<Fact>, ls: seq<Slice>)
    requires AllWithin(p, ls) && FactsIn(fs, ls)
    requires forall j :: 0 <= j < |fs| ==> (fs[j].field.Found? ==> !fs[j].field.slot.Response?) && (j > 0 ==> fs[j].status.Nothing?)
    ensures var h := Gather(p, fs, ls);
            if ls != [] && fs[0].status.Found? then Response in h && h[Response] == fs[0].status.value else Response !in h
    decreases |ls|
  {
    if ls != [] {
      var n := |ls| - 1;
      StatusKept(p, fs[..n], ls[..n]);
    }
  }

  /** The status line of a response: "HTTP/1.", a digit and a space, then a code of at least four bytes that starts with 1 to 5. */
  predicate StatusLine(p: bytes, l: Slice)
    requires Within(p, l)
  {
    l.len >= 13 && StartsWith(p, l, "http/1.") && 49 <= p[l.off + 9] <= 53
  }

  lemma ResponseIs(p: bytes, l: Slice)
    requires Within(p, l)
    ensures IsResponse(p, l) <==> StatusLine(p, l)
  {
    assert Name(Response) == "http/1.";
  }

  lemma StatusOfLine(p: bytes, l: Slice, first: bool)
    requires Within(p, l)
    ensures FactOf(p, l, first).status
         == if first && IsResponse(p, l) then Found(Response, Slice(l.off + 9, l.len - 9)) else Nothing
  {
  }

  lemma FieldOfLine(p: bytes, l: Slice, first: bool)
    requires Within(p, l)
    ensures var f := FactOf(p, l, first).field; f.Found? ==> !f.slot.Response?
  {
    NotResponse(p, l);
  }

  /** The status is recorded exactly if the first line is a status line: from its tenth byte on, where the code is. */
  lemma StatusExactly(p: bytes, ls: seq<Slice>)
    requires AllWithin(p, ls)
    ensures var h := HeadersOf(p, ls);
            if ls != [] && StatusLine(p, ls[0])
            then Response in h && h[Response] == Slice(ls[0].off + 9, ls[0].len - 9) else Response !in h
  {
    var fs := FactsOf(p, ls);
    forall j | 0 <= j < |fs|
      ensures (fs[j].field.Found? ==> !fs[j].field.slot.Response?) && (j > 0 ==> fs[j].status.Nothing?)
    {
      StatusOfLine(p, ls[j], j == 0);
      FieldOfLine(p, ls[j], j == 0);
    }
    if ls != [] {
      StatusOfLine(p, ls[0], true);
      ResponseIs(p, ls[0]);
    }
    StatusKept(p, fs, ls);
  }

  lemma NotResponse(p: bytes, l: Slice)
    requires Within(p, l)
    ensures Field(p, l) != Some(Response)
  {
    if Field(p, l) == Some(Response) {
      Listed(Response);
    }
  }

  // ---- The content type ----

  /** Without parameters and line break. */
  function Cut(p: bytes, v: Slice): (r: Slice)
    requires Within(p, v)
    ensures Within(p, r)
  {
    CutAt(p, CutAt(p, v, 59), 13)
  }

  lemma {:induction false} NothingToCut(p: bytes, v: Slice, c: byte)
    requires Within(p, v) && forall k :: v.off <= k < v.off + v.len ==> p[k] != c
    ensures CutAt(p, v, c) == v
    decreases v.len
  {
    if v.len > 0 {
      NothingToCut(p, Drop(v, 1), c);
    }
  }

  lemma CutTwice(p: bytes, v: Slice)
    requires Within(p, v)
    ensures Cut(p, Cut(p, v)) == Cut(p, v)
  {
    NothingToCut(p, Cut(p, v), 59);
    NothingToCut(p, Cut(p, v), 13);
  }

  lemma ContentNoted(p: bytes, h: Headers, f: Fact, l: Slice)
    requires Within(p, l) && FactIn(f, l) && InPayload(p, h)
    ensures var r := Note(p, h, f, l);
            && (Tells(f, Content) ==> Content in r && r[Content] == Cut(p, f.field.value))
            && (f.field.Nothing? && f.bare.Found? && Content !in h ==> Content in r && r[Content] == Cut(p, f.bare.value))
            && (!Tells(f, Content) && Content in h && h[Content].len > 0 ==> Content in r && r[Content] == Cut(p, h[Content]))
            && (!Tells(f, Content) && f.bare.Nothing? && Content !in h ==> Content !in r)
  {
  }

  /** A content type recorded and not empty stands until a line names another one. */
  lemma {:induction false} ContentStands(p: bytes, fs: seq<Fact>, ls: seq<Slice>, k: nat, v: Slice)
    requires AllWithin(p, ls) && FactsIn(fs, ls) && k < |ls| && Within(p, v) && Cut(p, v).len > 0
    requires var h := Gather(p, fs[..k + 1], ls[..k + 1]); Content in h && h[Content] == Cut(p, v)
    requires forall j :: k < j < |fs| ==> !Tells(fs[j], Content)
    ensures var h := Gather(p, fs, ls); Content in h && h[Content] == Cut(p, v)
    decreases |ls|
  {
    var n := |ls| - 1;
    if k < n {
      assert fs[..n][..k + 1] == fs[..k + 1] && ls[..n][..k + 1] == ls[..k + 1];
      ContentStands(p, fs[..n], ls[..n], k, v);
      ContentNoted(p, Gather(p, fs[..n], ls[..n]), fs[n], ls[n]);
      CutTwice(p, v);
    } else {
      assert fs[..k + 1] == fs && ls[..k + 1] == ls;
    }
  }

  /** The last line that names the content type decides, if something is left of its value. */
  lemma LastContentWins(p: bytes, ls: seq<Slice>, k: nat)
    requires AllWithin(p, ls) && k < |ls| && Names(p, ls[k], Content) && Cut(p, Value(p, ls[k], Content)).len > 0
    requires forall j :: k < j < |ls| ==> !Names(p, ls[j], Content)
    ensures var h := HeadersOf(p, ls); Content in h && h[Content] == Cut(p, Value(p, ls[k], Content))
  {
    var fs := FactsOf(p, ls);
    TellsNames(p, ls, Content);
    assert fs[..k + 1][..k] == fs[..k] && ls[..k + 1][..k] == ls[..k];
    ContentNoted(p, Gather(p, fs[..k], ls[..k]), fs[k], ls[k]);
    ContentStands(p, fs, ls, k, Value(p, ls[k], Content));
  }

  lemma {:induction false} NoContent(p: bytes, fs: seq<Fact>, ls: seq<Slice>)
    requires AllWithin(p, ls) && FactsIn(fs, ls)
    requires forall j :: 0 <= j < |fs| ==> !Tells(fs[j], Content) && fs[j].bare.Nothing?
    ensures Content !in Gather(p, fs, ls)
    decreases |ls|
  {
    if ls != [] {
      var n := |ls| - 1;
      NoContent(p, fs[..n], ls[..n]);
      ContentNoted(p, Gather(p, fs[..n], ls[..n]), fs[n], ls[n]);
    }
  }

  /** A line that starts with "content-type:" and goes on. */
  predicate BareContent(p: bytes, l: Slice)
    requires Within(p, l)
  {
    l.len >= 14 && StartsWith(p, l, "content-type:")
  }

  lemma BareExactly(p: bytes, l: Slice, first: bool)
    requires Within(p, l)
    ensures FactOf(p, l, first).bare == if BareContent(p, l) then Found(Content, Slice(l.off + 13, l.len - 13)) else Nothing
    ensures Names(p, l, Content) ==> BareContent(p, l)
  {
    assert forall i :: 0 <= i < 13 ==> BARE_CONTENT[i] == Name(Content)[i];
  }

  lemma UnnamedFact(p: bytes, l: Slice, first: bool)
    requires Within(p, l) && forall s: Slot :: !s.Response? ==> !Names(p, l, s)
    ensures FactOf(p, l, first).field.Nothing?
  {
    if Field(p, l).Some? {
      NotResponse(p, l);
    }
  }

  lemma NoContentBefore(p: bytes, ls: seq<Slice>, k: nat)
    requires AllWithin(p, ls) && k <= |ls| && forall j :: 0 <= j < k ==> !BareContent(p, ls[j])
    ensures FactsIn(FactsOf(p, ls)[..k], ls[..k]) && Content !in Gather(p, FactsOf(p, ls)[..k], ls[..k])
  {
    var fs := FactsOf(p, ls);
    TellsNames(p, ls, Content);
    forall j | 0 <= j < k
      ensures !Tells(fs[..k][j], Content) && fs[..k][j].bare.Nothing?
    {
      BareExactly(p, ls[j], j == 0);
    }
    NoContent(p, fs[..k], ls[..k]);
  }

  lemma GatherNext(p: bytes, fs: seq<Fact>, ls: seq<Slice>, k: nat)
    requires AllWithin(p, ls) && FactsIn(fs, ls) && k < |ls|
    ensures FactsIn(fs[..k], ls[..k]) && FactsIn(fs[..k + 1], ls[..k + 1])
    ensures Gather(p, fs[..k + 1], ls[..k + 1]) == Note(p, Gather(p, fs[..k], ls[..k]), fs[k], ls[k])
  {
    assert fs[..k + 1][..k] == fs[..k] && ls[..k + 1][..k] == ls[..k];
  }

  lemma BareNoted(p: bytes, fs: seq<Fact>, ls: seq<Slice>, k: nat)
    requires AllWithin(p, ls) && FactsIn(fs, ls) && k < |ls| && Content !in Gather(p, fs[..k], ls[..k])
    requires fs[k].field.Nothing? && fs[k].bare.Found?
    ensures var h := Gather(p, fs[..k + 1], ls[..k + 1]); Content in h && h[Content] == Cut(p, fs[k].bare.value)
  {
    GatherNext(p, fs, ls, k);
    ContentNoted(p, Gather(p, fs[..k], ls[..k]), fs[k], ls[k]);
  }

  /** Without a space behind the colon the first line that has a content type decides, if no later one names it. */
  lemma FirstBareWins(p: bytes, ls: seq<Slice>, k: nat)
    requires AllWithin(p, ls) && k < |ls| && BareContent(p, ls[k]) && Cut(p, Slice(ls[k].off + 13, ls[k].len - 13)).len > 0
    requires forall j :: 0 <= j < k ==> !BareContent(p, ls[j])
    requires forall s: Slot :: !s.Response? ==> !Names(p, ls[k], s)
    requires forall j :: k < j < |ls| ==> !Names(p, ls[j], Content)
    ensures var h := HeadersOf(p, ls); Content in h && h[Content] == Cut(p, Slice(ls[k].off + 13, ls[k].len - 13))
  {
    TellsNames(p, ls, Content);
    NoContentBefore(p, ls, k);
    BareExactly(p, ls[k], k == 0);
    UnnamedFact(p, ls[k], k == 0);
    BareNoted(p, FactsOf(p, ls), ls, k);
    ContentStands(p, FactsOf(p, ls), ls, k, Slice(ls[k].off + 13, ls[k].len - 13));
  }

  lemma GatherExtend(p: bytes, fs: seq<Fact>, ls: seq<Slice>, f: Fact, l: Slice)
    requires AllWithin(p, ls) && FactsIn(fs, ls) && Within(p, l) && FactIn(f, l)
    ensures AllWithin(p, ls + [l]) && FactsIn(fs + [f], ls + [l])
    ensures Gather(p, fs + [f], ls + [l]) == Note(p, Gather(p, fs, ls), f, l)
  {
    assert (fs + [f])[..|fs|] == fs && (ls + [l])[..|ls|] == ls;
  }

  lemma FactsExtend(p: bytes, ls: seq<Slice>, l: Slice)
    requires AllWithin(p, ls) && Within(p, l)
    ensures AllWithin(p, ls + [l])
    ensures FactsOf(p, ls + [l]) == FactsOf(p, ls) + [FactOf(p, l, |ls| == 0)]
  {
  }

  lemma HeadersExtend(p: bytes, ls: seq<Slice>, l: Slice)
    requires AllWithin(p, ls) && Within(p, l)
    ensures AllWithin(p, ls + [l])
    ensures InPayload(p, HeadersOf(p, ls))
    ensures HeadersOf(p, ls + [l]) == Note(p, HeadersOf(p, ls), FactOf(p, l, |ls| == 0), l)
  {
    FactsExtend(p, ls, l);
    GatherExtend(p, FactsOf(p, ls), ls, FactOf(p, l, |ls| == 0), l);
  }

  // ---- The table of lines ----

  /** Between two steps of the scan: the closed lines are recorded and the next one starts. */
  ghost predicate Scanning(p: bytes, table: seq<Slice>, n: nat, closed: seq<Slice>, all: seq<Slice>, a: nat) {
    |table| == MAX_LINES && |closed| == n < MAX_LINES && table[n].off <= a <= |p|
    && table[..n] == closed && AllWithin(p, closed)
    && all == closed + Split(p, table[n].off, a)
  }

  /** What is recorded for the lines `all`: nothing without a line end, at most 64 lines otherwise. */
  ghost predicate Parsed(table: seq<Slice>, parsed: nat, all: seq<Slice>) {
    |all| > 0 && |table| == MAX_LINES &&
    var n := |all| - 1;
    if n == 0 then parsed == 0
    else if n < MAX_LINES then parsed == n + 1 && table[..n + 1] == all
    else parsed == MAX_LINES - 1 && table == all[..MAX_LINES]
  }

  /** The lines whose headers are looked at: those closed by a line end, up to 64 of them. */
  function Noted(all: seq<Slice>): seq<Slice>
    requires |all| > 0
  {
    all[..if |all| - 1 < MAX_LINES then |all| - 1 else MAX_LINES]
  }

  /** As many as there are line ends, up to 64, from the first one on. */
  lemma NotedExactly(p: bytes)
    ensures var all := Split(p, 0, 0);
            var n := if Crlfs(p, 0) < 64 then Crlfs(p, 0) else 64;
            n < |all| && Noted(all) == all[..n]
  {
    SplitCounts(p, 0, 0);
  }

  lemma CloseStep(p: bytes, was: seq<Slice>, n: nat, closed: seq<Slice>, all: seq<Slice>, a: nat)
    requires Scanning(p, was, n, closed, all, a) && CrlfAt(p, a)
    ensures var l := Slice(was[n].off, a - was[n].off);
            var now := was[n := l];
            if n == MAX_LINES - 1 then Parsed(now, n, all) && Noted(all) == closed + [l]
            else Scanning(p, now[n + 1 := Slice(a + 2, 0)], n + 1, closed + [l], all, a + 2)
  {
    var l := Slice(was[n].off, a - was[n].off);
    var rest := Split(p, a + 2, a + 2);
    var now := was[n := l];
    assert all == closed + [l] + rest;
    assert now[..n + 1] == closed + [l];
    if n == MAX_LINES - 1 {
      assert all[..MAX_LINES] == closed + [l] == now;
    } else {
      assert now[n + 1 := Slice(a + 2, 0)][..n + 1] == closed + [l];
    }
  }

  lemma EndStep(p: bytes, was: seq<Slice>, n: nat, closed: seq<Slice>, all: seq<Slice>, a: nat)
    requires Scanning(p, was, n, closed, all, a) && a + 1 >= |p|
    ensures |all| > 0 && Noted(all) == closed
    ensures if n == 0 then Parsed(was, 0, all)
            else Parsed(was[n := Slice(was[n].off, |p| - was[n].off)], n + 1, all)
  {
    var l := Slice(was[n].off, |p| - was[n].off);
    assert Split(p, was[n].off, a) == [l];
    assert was[n := l][..n + 1] == closed + [l];
  }

  /** With 1 to 63 line ends the recorded lines are the payload taken apart: joining them restores it. */
  lemma ParsedUndone(p: bytes, table: seq<Slice>, parsed: nat)
    requires Parsed(table, parsed, Split(p, 0, 0)) && 1 <= Crlfs(p, 0) < 64
    ensures parsed == Crlfs(p, 0) + 1 && AllWithin(p, table[..parsed])
    ensures Join(Texts(p, table[..parsed])) == p
    ensures forall k :: 0 <= k < parsed ==> CrlfFree(Text(p, table[..parsed][k]))
  {
    SplitCounts(p, 0, 0);
    JoinSplit(p, 0, 0);
    forall k | 0 <= k < parsed
      ensures CrlfFree(Text(p, table[..parsed][k]))
    {
      SplitIsFree(p, 0, 0, k);
    }
  }

  /** With more the first 64 lines are recorded, and 63 of them counted. */
  lemma ParsedTooMany(p: bytes, table: seq<Slice>, parsed: nat)
    requires Parsed(table, parsed, Split(p, 0, 0)) && Crlfs(p, 0) >= 64
    ensures parsed == 63 && |Split(p, 0, 0)| > 64 && table == Split(p, 0, 0)[..64]
  {
    SplitCounts(p, 0, 0);
  }

  // ---- The parser ----

  class Packet {
    const payload: bytes
    const line: array<Slice>
    var parsedLines: nat
    var headers: Headers
    var complete: bool

    constructor (payload: bytes)
      ensures this.payload == payload && line.Length == MAX_LINES && fresh(line) && !complete
    {
      this.payload := payload;
      line := new Slice[MAX_LINES](_ => Slice(0, 0));
      parsedLines, headers, complete := 0, map[], false;
    }

    method SkipBlanks(l: Slice) returns (r: Slice)
      requires Within(payload, l)
      ensures r == SkipSpaces(payload, l)
    {
      r := l;
      while r.len > 0 && payload[r.off] == SPACE
        invariant Within(payload, r) && SkipSpaces(payload, r) == SkipSpaces(payload, l)
        decreases r.len
      {
        r := Slice(r.off + 1, r.len - 1);
      }
    }

    /** The value part of a line that names the field `f`. */
    method TakeValue(l: Slice, f: Slot) returns (v: Slice)
      requires Within(payload, l) && Names(payload, l, f)
      ensures v == Value(payload, l, f)
    {
      var n := |Name(f)|;
      v := Slice(l.off + n, l.len - n);
      if SpaceIsOptional(f) && payload[l.off + n] == SPACE {
        v := Slice(l.off + n + 1, l.len - n - 1);
      } else if f.Authorization? || f.Content? {
        v := SkipBlanks(v);
      }
    }

    /** The header tests made on one line. */
    method TakeFact(first: bool, l: Slice) returns (f: Fact)
      requires Within(payload, l)
      ensures f == FactOf(payload, l, first)
    {
      var status := if first && IsResponse(payload, l) then Found(Response, Drop(l, 9)) else Nothing;
      var bare := if l.len > 13 && StartsWith(payload, l, BARE_CONTENT) then Found(Content, Drop(l, 13)) else Nothing;
      var field := Field(payload, l);
      f := Fact(status, Nothing, bare);
      if field.Some? {
        var v := TakeValue(l, field.slot);
        f := Fact(status, Found(field.slot, v), bare);
      }
    }

    /** The headers are updated for the line that has just been closed. */
    method NoteLine(l: Slice, f: Fact)
      requires Within(payload, l) && FactIn(f, l) && InPayload(payload, headers)
      modifies this`headers
      ensures headers == Note(payload, old(headers), f, l)
    {
      if f.status.Found? {
        headers := headers[f.status.slot := f.status.value];
      }
      if f.field.Found? {
        headers := headers[f.field.slot := f.field.value];
      } else if f.bare.Found? && (Content in headers ==> headers[Content].len == 0) {
        headers := headers[f.bare.slot := f.bare.value];
      }
      assert headers == NoteFact(old(headers), f);
      TrimContent();
    }

    method TrimContent()
      requires InPayload(payload, headers)
      modifies this`headers
      ensures headers == CutContent(payload, old(headers))
    {
      if Content in headers && headers[Content].len > 0 {
        var v := CutAt(payload, headers[Content], SEMICOLON);
        v := CutAt(payload, v, CR);
        headers := headers[Content := v];
      }
    }

    /** A line is closed: its length is known and its headers are noted. */
    method CloseLine(ghost closed: seq<Slice>, end: nat)
      requires parsedLines < line.Length == MAX_LINES && line[parsedLines].off <= end <= |payload|
      requires AllWithin(payload, closed) && |closed| == parsedLines
      requires headers == HeadersOf(payload, closed)
      modifies this`headers, line
      ensures line[..] == old(line[..])[parsedLines := Slice(old(line[parsedLines].off), end - old(line[parsedLines].off))]
      ensures AllWithin(payload, closed + [line[parsedLines]])
      ensures headers == HeadersOf(payload, closed + [line[parsedLines]])
    {
      var l := Slice(line[parsedLines].off, end - line[parsedLines].off);
      line[parsedLines] := l;
      HeadersExtend(payload, closed, l);
      var f := TakeFact(parsedLines == 0, l);
      NoteLine(l, f);
    }

    /** A line end at `a`. The last slot of the table is filled but not counted. */
    method LineEnd(ghost all: seq<Slice>, ghost closed: seq<Slice>, a: nat) returns (full: bool, ghost closed': seq<Slice>)
      requires Scanning(payload, line[..], parsedLines, closed, all, a) && CrlfAt(payload, a)
      requires headers == HeadersOf(payload, closed)
      modifies this`parsedLines, this`headers, line
      ensures !full ==> Scanning(payload, line[..], parsedLines, closed', all, a + 2)
      ensures full ==> Parsed(line[..], parsedLines, all) && Noted(all) == closed'
      ensures AllWithin(payload, closed') && headers == HeadersOf(payload, closed')
    {
      CloseStep(payload, line[..], parsedLines, closed, all, a);
      CloseLine(closed, a);
      closed' := closed + [line[parsedLines]];
      if parsedLines >= MAX_LINES - 1 {
        full := true;
        return;
      }
      OpenLine(a + 2);
      full := false;
    }

    method OpenLine(start: nat)
      requires parsedLines + 1 < line.Length
      modifies this`parsedLines, line
      ensures parsedLines == old(parsedLines) + 1 && line[..] == old(line[..])[parsedLines := Slice(start, 0)]
    {
      parsedLines := parsedLines + 1;
      line[parsedLines] := Slice(start, 0);
    }

    /** What follows the last line end is a line too. */
    method LastLineEnds(ghost all: seq<Slice>, ghost closed: seq<Slice>, a: nat)
      requires Scanning(payload, line[..], parsedLines, closed, all, a) && a + 1 >= |payload|
      modifies this`parsedLines, line
      ensures Parsed(line[..], parsedLines, all) && Noted(all) == closed
    {
      EndStep(payload, line[..], parsedLines, closed, all, a);
      if parsedLines >= 1 {
        line[parsedLines] := Slice(line[parsedLines].off, |payload| - line[parsedLines].off);
        parsedLines := parsedLines + 1;
      }
    }

    /** `ndpi_parse_packet_line_info`. */
    method ParseLines()
      requires line.Length == MAX_LINES
      modifies this`parsedLines, this`headers, this`complete, line
      ensures |payload| < 3 || old(complete) ==>
                parsedLines == old(parsedLines) && headers == old(headers) && complete == old(complete)
                && line[..] == old(line[..])
      ensures |payload| >= 3 && !old(complete) ==>
                complete && Parsed(line[..], parsedLines, Split(payload, 0, 0))
                && headers == HeadersOf(payload, Noted(Split(payload, 0, 0)))
    {
      if |payload| < 3 || complete {
        return;
      }
      complete := true;
      ScanPayload();
    }

    method ScanPayload()
      requires line.Length == MAX_LINES
      modifies this`parsedLines, this`headers, line
      ensures Parsed(line[..], parsedLines, Split(payload, 0, 0))
      ensures headers == HeadersOf(payload, Noted(Split(payload, 0, 0)))
    {
      parsedLines, headers := 0, map[];
      line[0] := Slice(0, 0);
      var a := 0;
      ghost var all := Split(payload, 0, 0);
      ghost var closed: seq<Slice> := [];
      while a + 1 < |payload| && parsedLines < MAX_LINES
        invariant Scanning(payload, line[..], parsedLines, closed, all, a)
        invariant headers == HeadersOf(payload, closed)
        decreases |payload| - a
      {
        if payload[a] == CR && payload[a + 1] == LF {
          var full: bool;
          full, closed := LineEnd(all, closed, a);
          if full {
            return;
          }
          a := a + 1;
        }
        a := a + 1;
      }
      LastLineEnds(all, closed, a);
    }
  }
}
