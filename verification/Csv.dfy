/** The CSV format: when the text of a run of records is the table of their fields. */
module Csv {
  import opened Bytes
  import opened Documents

  /** A field: the name of its column and its text. */
  datatype Cell = Cell(name: bytes, text: bytes)

  type Row = seq<Cell>

  function Texts(row: Row): (r: seq<bytes>)
    ensures |r| == |row|
  {
    seq(|row|, i requires 0 <= i < |row| => row[i].text)
  }

  function Names(row: Row): (r: seq<bytes>)
    ensures |r| == |row|
  {
    seq(|row|, i requires 0 <= i < |row| => row[i].name)
  }

  /** Texts with a separator between any two. */
  function Joined(ts: seq<bytes>, separator: byte): bytes {
    if ts == [] then []
    else if |ts| == 1 then ts[0]
    else Joined(ts[..|ts| - 1], separator) + [separator] + ts[|ts| - 1]
  }

  /** One line for each record. */
  function Lines(rows: seq<Row>, separator: byte): bytes {
    if rows == [] then [] else Joined(Texts(rows[0]), separator) + [10] + Lines(rows[1..], separator)
  }

  // ---- The calls ----

  function FieldCalls(row: Row): (r: seq<CsvCall>)
    ensures |r| == |row|
  {
    seq(|row|, i requires 0 <= i < |row| => Field(row[i].name, row[i].text, true))
  }

  function RecordCalls(rows: seq<Row>): seq<CsvCall> {
    if rows == [] then [] else FieldCalls(rows[0]) + [NewLine] + RecordCalls(rows[1..])
  }

  lemma {:induction false} RunThen(d: Doc, a: seq<CsvCall>, b: seq<CsvCall>, separator: byte)
    ensures RunCsv(d, a + b, separator) == RunCsv(RunCsv(d, a, separator), b, separator)
    decreases |b|
  {
    if b == [] {
      assert a + b == a;
    } else {
      var n := |b| - 1;
      RunThen(d, a, b[..n], separator);
      assert (a + b)[..|a| + n] == a + b[..n];
    }
  }

  lemma FieldsLast(row: Row)
    requires row != []
    ensures var n := |row| - 1;
            FieldCalls(row)[..n] == FieldCalls(row[..n]) && Texts(row)[..n] == Texts(row[..n]) && Names(row)[..n] == Names(row[..n])
  {
  }

  /** A field that marks the record keeps it from counting as empty until the line ends. */
  lemma CsvNotEmpty(d: Doc, c: CsvCall, separator: byte)
    ensures StepCsv(d, c, separator).flags.notEmpty <==> c.Field? && (d.flags.notEmpty || c.marks)
  {
  }

  // ---- A record behind others ----

  /** Behind a line end the fields of a record are joined, and the header stays. */
  lemma {:induction false} LaterRow(d: Doc, row: Row, separator: byte)
    requires d.flags.eor && d.flags.hdrDone && d.text != []
    ensures var e := RunCsv(d, FieldCalls(row), separator);
            e.text == d.text + Joined(Texts(row), separator) && e.header == d.header && e.flags.hdrDone
            && (e.flags.eor <==> row == [])
    decreases |row|
  {
    if row == [] {
      GlueEmpty(d.text);
    } else {
      LaterRow(d, row[..|row| - 1], separator);
      FieldsLast(row);
      var ts := Texts(row);
      if |row| > 1 {
        Glue4(d.text, Joined(ts[..|ts| - 1], separator), [separator], ts[|ts| - 1]);
      } else {
        GlueEmpty(ts[0]);
        assert ts[..0] == [];
      }
    }
  }

  lemma {:induction false} LaterRows(d: Doc, rows: seq<Row>, separator: byte)
    requires d.flags.eor && d.flags.hdrDone && d.text != []
    ensures var e := RunCsv(d, RecordCalls(rows), separator);
            e.text == d.text + Lines(rows, separator) && e.header == d.header
    decreases |rows|
  {
    if rows == [] {
      GlueEmpty(d.text);
    } else {
      var calls, rest := FieldCalls(rows[0]), RecordCalls(rows[1..]);
      LaterRow(d, rows[0], separator);
      var e := RunCsv(d, calls, separator);
      var f := StepCsv(e, NewLine, separator);
      LineEnds(d, calls, separator);
      RunThen(d, calls + [NewLine], rest, separator);
      LaterRows(f, rows[1..], separator);
      Glue4(d.text, Joined(Texts(rows[0]), separator), [10], Lines(rows[1..], separator));
    }
  }

  lemma LineEnds(d: Doc, calls: seq<CsvCall>, separator: byte)
    ensures RunCsv(d, calls + [NewLine], separator) == StepCsv(RunCsv(d, calls, separator), NewLine, separator)
  {
    assert (calls + [NewLine])[..|calls|] == calls;
  }

  // ---- The first record ----

  /** Empty texts in front leave nothing behind, not even separators. */
  function WithoutEmpty(ts: seq<bytes>): (r: seq<bytes>)
    ensures |r| <= |ts|
  {
    if ts != [] && ts[0] == [] then WithoutEmpty(ts[1..]) else ts
  }

  lemma {:induction false} WithoutEmptyLast(ts: seq<bytes>)
    requires ts != []
    ensures var n := |ts| - 1; var front := WithoutEmpty(ts[..n]);
            WithoutEmpty(ts) == if front == [] && ts[n] == [] then [] else front + [ts[n]]
    decreases |ts|
  {
    var n := |ts| - 1;
    if n == 0 {
      assert ts == [ts[0]] && ts[..0] == [];
    } else if ts[0] == [] {
      WithoutEmptyLast(ts[1..]);
      assert ts[1..][..n - 1] == ts[..n][1..];
    } else {
      assert ts == ts[..n] + [ts[n]];
    }
  }

  lemma {:induction false} JoinedEmpty(ts: seq<bytes>, separator: byte)
    requires ts != [] && ts[0] != []
    ensures Joined(ts, separator) != []
    decreases |ts|
  {
  }

  lemma {:induction false} WithoutEmptyStarts(ts: seq<bytes>)
    ensures var r := WithoutEmpty(ts); r != [] ==> r[0] != []
    decreases |ts|
  {
    if ts != [] && ts[0] == [] {
      WithoutEmptyStarts(ts[1..]);
    }
  }

  lemma {:induction false} FirstRow(row: Row, separator: byte)
    ensures var e := RunCsv(Empty(CSV), FieldCalls(row), separator);
            e.text == Joined(WithoutEmpty(Texts(row)), separator) && e.header == Joined(WithoutEmpty(Names(row)), separator)
            && !e.flags.eor && !e.flags.hdrDone
    decreases |row|
  {
    if row != [] {
      var n := |row| - 1;
      FirstRow(row[..n], separator);
      FieldsLast(row);
      JoinMore(Texts(row), separator);
      JoinMore(Names(row), separator);
    }
  }

  /** One more text behind those in front. */
  lemma JoinMore(ts: seq<bytes>, separator: byte)
    requires ts != []
    ensures var n := |ts| - 1;
            var front := Joined(WithoutEmpty(ts[..n]), separator);
            Joined(WithoutEmpty(ts), separator) == front + (if front == [] then [] else [separator]) + ts[n]
  {
    var n := |ts| - 1;
    var front := WithoutEmpty(ts[..n]);
    WithoutEmptyLast(ts);
    WithoutEmptyStarts(ts[..n]);
    if front == [] {
      GlueEmpty(ts[n]);
    } else {
      JoinedEmpty(front, separator);
      assert (front + [ts[n]])[..|front|] == front;
    }
  }

  function Total(ts: seq<bytes>): nat { if ts == [] then 0 else Total(ts[..|ts| - 1]) + |ts[|ts| - 1]| }

  lemma {:induction false} JoinedLength(ts: seq<bytes>, separator: byte)
    ensures |Joined(ts, separator)| == Total(ts) + (if ts == [] then 0 else |ts| - 1)
    decreases |ts|
  {
    if |ts| == 1 {
      assert ts[..0] == [] && Total(ts[..0]) == 0;
    } else if ts != [] {
      JoinedLength(ts[..|ts| - 1], separator);
    }
  }

  lemma {:induction false} TotalFront(ts: seq<bytes>)
    requires ts != []
    ensures Total(ts) == |ts[0]| + Total(ts[1..])
    decreases |ts|
  {
    if |ts| > 1 {
      var n := |ts| - 1;
      TotalFront(ts[..n]);
      assert ts[..n][1..] == ts[1..][..n - 1];
    } else {
      assert ts[..0] == [] && ts[1..] == [];
    }
  }

  lemma {:induction false} WithoutEmptyTotal(ts: seq<bytes>)
    ensures Total(WithoutEmpty(ts)) == Total(ts)
    decreases |ts|
  {
    if ts != [] && ts[0] == [] {
      WithoutEmptyTotal(ts[1..]);
      TotalFront(ts);
    }
  }

  /** The texts are joined as they should be exactly if there is at most one or the first is not empty. */
  predicate Leads(ts: seq<bytes>) { |ts| <= 1 || ts[0] != [] }

  lemma JoinedExactly(ts: seq<bytes>, separator: byte)
    ensures Joined(WithoutEmpty(ts), separator) == Joined(ts, separator) <==> Leads(ts)
  {
    if ts == [] || ts[0] != [] {
    } else if |ts| == 1 {
      assert ts == [[]] && WithoutEmpty(ts[1..]) == [];
    } else {
      JoinedLength(ts, separator);
      JoinedLength(WithoutEmpty(ts), separator);
      WithoutEmptyTotal(ts);
      assert |WithoutEmpty(ts)| <= |ts| - 1;
    }
  }

  // ---- Whole tables ----

  lemma TableText(rows: seq<Row>, separator: byte)
    requires rows != []
    ensures var e := RunCsv(Empty(CSV), RecordCalls(rows), separator);
            e.text == Joined(WithoutEmpty(Texts(rows[0])), separator) + [10] + Lines(rows[1..], separator)
            && e.header == Joined(WithoutEmpty(Names(rows[0])), separator)
  {
    var calls, rest := FieldCalls(rows[0]), RecordCalls(rows[1..]);
    FirstRow(rows[0], separator);
    LineEnds(Empty(CSV), calls, separator);
    RunThen(Empty(CSV), calls + [NewLine], rest, separator);
    LaterRows(RunCsv(Empty(CSV), calls + [NewLine], separator), rows[1..], separator);
  }

  lemma SameTail(a: bytes, b: bytes, tail: bytes)
    ensures a + tail == b + tail <==> a == b
  {
    if a + tail == b + tail {
      assert |a| == |b|;
      assert (a + tail)[..|a|] == a && (b + tail)[..|b|] == b;
    }
  }

  /**
   Every run of records from an empty serializer leaves one line of joined fields for each record, if and only
   if the first record does not start with an empty field before others: then separators are missing. The
   header is the joined names of the first record under the same condition on them.
   */
  lemma CsvExactly(rows: seq<Row>, separator: byte)
    requires rows != []
    ensures var e := RunCsv(Empty(CSV), RecordCalls(rows), separator);
            && (e.text == Lines(rows, separator) <==> Leads(Texts(rows[0])))
            && (e.header == Joined(Names(rows[0]), separator) <==> Leads(Names(rows[0])))
  {
    TableText(rows, separator);
    var tail := [10] + Lines(rows[1..], separator);
    var ts := Texts(rows[0]);
    Glue3(Joined(ts, separator), [10], Lines(rows[1..], separator));
    Glue3(Joined(WithoutEmpty(ts), separator), [10], Lines(rows[1..], separator));
    SameTail(Joined(WithoutEmpty(ts), separator), Joined(ts, separator), tail);
    JoinedExactly(ts, separator);
    JoinedExactly(Names(rows[0]), separator);
  }

  /** An empty field and x come out as x alone. */
  lemma CsvExample()
    ensures RunCsv(Empty(CSV), FieldCalls([Cell([97], []), Cell([98], [120])]), 44).text == [120]
    ensures Joined([[], [120]], 44) == [44, 120]
  {
    var row := [Cell([97], []), Cell([98], [120])];
    FirstRow(row, 44);
    assert Texts(row) == [[], [120]] && [[], [120]][1..] == [[120]];
    assert WithoutEmpty([[], [120]]) == [[120]];
    assert [[], [120]][..1] == [[]];
  }
}
