/** JSON texts byte by byte, after one more call each time. */
module JsonBytes {
  import opened Bytes
  import opened Calls
  import opened JsonText
  import opened Documents

  /** `{}` */
  const EMPTY := Doc([32, 123, 125], [], NO_FLAGS)
  /** `{"a":1}` */
  const MEMBER := Doc([32, 123, 34, 97, 34, 58, 49, 125], [], Flags(true, false, false, false, true, false, false, false))
  /** `{"l": []}` */
  const LIST := Doc([32, 123, 34, 108, 34, 58, 32, 91, 93, 125], [], Flags(true, false, false, false, false, true, true, false))
  /** `{"l": ["x"]}` */
  const ELEMENT := Doc([32, 123, 34, 108, 34, 58, 32, 91, 34, 120, 34, 93, 125], [], Flags(true, false, false, false, true, true, false, false))
  /** `{"l": ["x",-2]}` */
  const ELEMENTS := Doc([32, 123, 34, 108, 34, 58, 32, 91, 34, 120, 34, 44, 45, 50, 93, 125], [], Flags(true, false, false, false, true, true, false, false))
  /** `{"l": ["x"]}` */
  const ENDED := Doc([32, 123, 34, 108, 34, 58, 32, 91, 34, 120, 34, 93, 125], [], Flags(true, false, false, false, true, false, false, false))
  /** `[{"a":1}]` */
  const RECORD := Doc([91, 123, 34, 97, 34, 58, 49, 125, 93], [], Flags(false, true, true, false, false, false, false, false))
  /** `[{"a":1},{"a":1}]` */
  const RECORDS := Doc([91, 123, 34, 97, 34, 58, 49, 125, 44, 123, 34, 97, 34, 58, 49, 125, 93], [], Flags(true, true, false, false, true, false, false, false))
  /** `{"b": {}` */
  const BLOCK := Doc([32, 123, 34, 98, 34, 58, 32, 123, 125], [], Flags(true, false, false, true, false, false, false, false))
  /** `{"b": {"a":1}` */
  const INNER := Doc([32, 123, 34, 98, 34, 58, 32, 123, 34, 97, 34, 58, 49, 125], [], Flags(true, false, false, false, true, false, false, false))
  /** `{"b": {"a":1}}` */
  const CLOSED := Doc([32, 123, 34, 98, 34, 58, 32, 123, 34, 97, 34, 58, 49, 125, 125], [], Flags(true, false, false, false, true, false, false, false))

  lemma Spellings(sc: bool)
    ensures Quoted([97], sc) == [34, 97, 34] && Quoted([98], sc) == [34, 98, 34]
    ensures Quoted([108], sc) == [34, 108, 34] && Quoted([120], sc) == [34, 120, 34]
    ensures Decimal(1) == [49] && IntText(-2) == [45, 50]
  {
    assert [97][..0] == [] && [98][..0] == [] && [108][..0] == [] && [120][..0] == [];
    assert EscapeBody([], sc) == [];
  }

  /** How each byte of a string is spelled, and the two words. */
  lemma EscapesAre(b: byte, sc: bool)
    ensures b in {34, 47, 92} ==> EscapeByte(b, sc) == [92, b]
    ensures EscapeByte(8, sc) == [92, 98] && EscapeByte(9, sc) == [92, 116] && EscapeByte(10, sc) == [92, 110]
    ensures EscapeByte(12, sc) == [92, 102] && EscapeByte(13, sc) == [92, 114]
    ensures b < 32 && b !in {8, 9, 10, 12, 13} ==> EscapeByte(b, sc) == []
    ensures 32 <= b < 128 && b !in {34, 47, 92} ==> EscapeByte(b, sc) == [b]
    ensures b >= 128 ==> EscapeByte(b, sc) == if sc then [] else [b]
    ensures ValText(Bool(true), sc) == [116, 114, 117, 101] && ValText(Bool(false), sc) == [102, 97, 108, 115, 101]
  {
  }

  lemma Starts()
    ensures Empty(JSON) == EMPTY
  {
  }

  lemma Member(sc: bool)
    ensures StepJson(EMPTY, Put(StrKey([97]), U32(1)), sc) == MEMBER
  {
    Spellings(sc);
  }

  lemma ListStarts(sc: bool)
    ensures StepJson(EMPTY, StartList([108]), sc) == LIST
  {
    Spellings(sc);
  }

  lemma FirstElement(sc: bool)
    ensures StepJson(LIST, Put(StrKey([]), Bin([120])), sc) == ELEMENT
  {
    Spellings(sc);
  }

  lemma SecondElement(sc: bool)
    ensures StepJson(ELEMENT, Put(StrKey([]), I32(-2)), sc) == ELEMENTS
  {
    Spellings(sc);
  }

  lemma ListEnds(sc: bool)
    ensures StepJson(ELEMENT, EndList, sc) == ENDED
  {
    Spellings(sc);
  }

  lemma RecordEnds(sc: bool)
    ensures StepJson(MEMBER, EndRecord, sc) == RECORD
  {
    Spellings(sc);
  }

  lemma SecondRecord(sc: bool)
    ensures StepJson(RECORD, Put(StrKey([97]), U32(1)), sc) == RECORDS
  {
    Spellings(sc);
  }

  lemma BlockStarts(sc: bool)
    ensures StepJson(EMPTY, StartBlock([98]), sc) == BLOCK
  {
    Spellings(sc);
  }

  lemma InnerMember(sc: bool)
    ensures StepJson(BLOCK, Put(StrKey([97]), U32(1)), sc) == INNER
  {
    Spellings(sc);
  }

  lemma BlockEnds(sc: bool)
    ensures StepJson(INNER, EndBlock, sc) == CLOSED
  {
    Spellings(sc);
  }
}
