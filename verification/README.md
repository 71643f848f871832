# nDPI core, modelled and proved in Dafny

This project models the parts of the vendored nDPI library that carry state, arithmetic or a
protocol, and proves what they promise for every input and every run. `dafny verify dfyconfig.toml`
checks all of it.

**Serializer** (`Bytes`, `Calls`, `Tlv`, `JsonText`, `Documents`, `JsonMeaning`, `Rollbacks`,
`JsonScan`, `JsonKept`, `JsonLimits`, `JsonTracks`, `Reservations`, `Serializer`, `Cloning`, `TlvWidths`,
`JsonBytes`, `Csv`). A document
is the used bytes, the CSV header and the status flags; a call is one step on it. `JsonMeaning` keeps the tree written beside the text and shows with an RFC 8259 parser
that the text always means the tree. `JsonTracks` follows every run, also those with calls the flags
cannot express, by a scanner over the part of the text that later calls keep. `Tlv` holds the encoder,
the cursor-based readers with their 16-bit arithmetic, and the round trip. `Reservations` says which
calls write more than they ask for. `Serializer` is the class with the growable array: each of its
methods performs the step in place.

**Detection engine** (`Tables`, `Dispatch`, `CallsMade`, `TcpTracker`, `Giveup`, `Slicer`, `Lines`, `Xgrams`).
Dissectors are arbitrary functions that may set the protocol stack and add exclusions; safety is
proved over whole runs of packets, and so is that every call that is due is made. The loops of the source are loops here, each tied to a function
about which the lemmas speak.

**Statistics and features** (`Variance`, `KMeans`, `Rsi`, `SpltMerge`, `Markov`, with `Rings` and `Sums`
for their arithmetic). Floats become exact reals, integer widths are kept.

**Community ID** (`CommunityId`): everything up to the bytes handed to SHA-1, on hosts of either byte
order.

What the code does not do as one might expect is stated exactly:

- Booleans, signed 64-bit values in [2^31, 2^32), all-digit string keys, and values behind keys of 65533 bytes
  or more do not come back from TLV as written, the last but for coincidences (`Tlv.FaithfulExactly`, with
  `Tlv.BooleanExample`, `Calls.NarrowingExample`, `Tlv.DigitKeyExample` and `Tlv.LongKeyExample`).
- The signed 64-bit writer spends eight bytes on negative values that fit one, two or four
  (`TlvWidths.SignedWidthExactly`).
- A CSV text lacks separators if its first record starts with an empty field (`Csv.CsvExactly`, with
  `Csv.CsvExample`).
- In JSON all-digit names lose their leading zeros and the empty name becomes `0`, so that two names can become
  one (`JsonMeaning.NameExactly`, with `JsonMeaning.NameExample`).
- An item of 65536 bytes or more sends the TLV cursor astray (`Tlv.NextLands`); at some sizes it does not
  move at all and a reader loop never ends (`Tlv.CursorStays`, with `Tlv.EndlessExample`).
- A call outside the nesting the flags can express leaves a JSON text that no further bytes complete, and
  that stays so through all later calls of the writer, with two exceptions: a record ended over its open
  list, from which an end of list or a new list recovers, and a block ended inside a list with an element,
  which a list started next repairs (`JsonTracks.ForbiddenStaysBroken`, `JsonTracks.EveryRun`).
- A JSON rollback is wrong for some later call unless the tail at the snapshot is one character
  (`Rollbacks.RollbackJsonExactly`); `Rollbacks.Spoiled` names the call.
- Two TLV writers, and in JSON the string-key writers of booleans, unsigned 32-bit and signed 64-bit numbers
  and the openers of lists and blocks, write more than they reserve, the JSON ones exactly when an inequality
  fails (`Reservations.TlvReservations`, `Reservations.JsonReservations`, with `Reservations.Int64Overruns`
  and `Reservations.EscapedNameOverruns`).
- `ndpi_data_min` and `ndpi_data_max`, documented as the extremes of all values, are those of the values since
  the 32-bit total was last zero, which it is behind leading zeros and whenever it wraps there
  (`Variance.MinimumExactly`, `Variance.MaximumExactly`, with `Variance.MinimumExample` and `Variance.WrapExample`).
- For a TCP packet without payload the guessed dissector can be passed over because of what another protocol
  registered in the slot of that number (`CallsMade.GuessExactly`, with `CallsMade.MisjudgedExample`).
- A TCP sequence number of zero counts as not known. When the bytes of a gap-free run take an expected number
  there, a segment in order can be flagged as a retransmission (`TcpTracker.MisledExactly`, with
  `TcpTracker.ZeroExample`).
- An n-gram lookup of a shorter text finds the word padded in front with `a` (`Xgrams.Match`, with
  `Xgrams.ShortExample`).
- A gap of 65536 ms or more is stored wrongly (`SpltMerge.StoredExactly`, with `SpltMerge.GapExample`).
- The first entry of a merge does not count to the first packet if the side that started first sent later
  (`SpltMerge.StartExactly`).
- An IPv6 extension chain that ends with the packet, as `Slicer.CutOff` says it, is passed on as if its last
  header were an upper layer (`Slicer.ExtensionHeaders`, with `Slicer.CutOffExample`); no payload is taken
  from it (`Slicer.InitPacket`).
- A TCP data offset under 5 yields a payload that starts inside the TCP header (`Slicer.InitPacket`, with
  `Slicer.ShortOffsetExample`).
- The community ID of a flow between equal addresses can depend on the byte order of the host
  (`CommunityId.HostsAgreeExactly`, with `CommunityId.HostsDisagree`).
- `ndpi_deserialize_clone_item` copies the wrong bytes of an item of 65536 bytes or more
  (`Cloning.CopyIsRewriting`).

## Model

| member | source | states |
|---|---|---|
| `Calls.NarrowingKeepsMeaning` | app/src/main/jni/ndpi/lib/ndpi_serializer.c:984-1005 | the compact path of the 64-bit writers keeps the number exactly when it is not a signed value in [2^31, 2^32) |
| `Calls.NormIdempotent` | app/src/main/jni/ndpi/lib/ndpi_serializer.c:1191-1201 | what a writer stores, written again, is stored the same way |
| `Tlv.ReadBack` | app/src/main/jni/ndpi/lib/ndpi_serializer.c:2246-2539 | a reader placed on any stored item of at most 65535 bytes sees the call that was stored: types, key and value |
| `Tlv.NextModulo` | app/src/main/jni/ndpi/lib/ndpi_serializer.c:2214-2242 | how far the cursor moves from every stored item: its size modulo 2^16, and exactly what it moves when a key of 65533 bytes or more makes it look for a string in the wrong place |
| `Tlv.NextLands` | app/src/main/jni/ndpi/lib/ndpi_serializer.c:2151-2242 | for every stored item, the cursor lands on the next one if and only if the item is under 65536 bytes |
| `Tlv.CursorStays` | app/src/main/jni/ndpi/lib/ndpi_serializer.c:2214-2242 | exactly at which items the cursor stays, so that a reader loop never ends: those whose size is a multiple of 65536, and one kind of key of 65535 bytes |
| `Tlv.EndlessExample` | app/src/main/jni/ndpi/lib/ndpi_serializer.c:2214-2242 | one such item, which a reader sees again and again |
| `Tlv.RoundTrip` | app/src/main/jni/ndpi/lib/ndpi_serializer.c:739-1133 | for every run of calls whose items are under 65536 bytes, the reader on the i-th item sees the stored i-th call and steps onto item i+1, and after the last it stops exactly at the end of the buffer |
| `Tlv.Track` | app/src/main/jni/ndpi/lib/ndpi_serializer.c:2113-2147 | the whole itinerary of the cursor over a buffer made by the writers |
| `Tlv.ReadTrack` | app/src/main/jni/ndpi/lib/ndpi_serializer.c:2592-2682 | the reader loop returns exactly the calls on the itinerary |
| `Tlv.ReadAll` | app/src/main/jni/ndpi/lib/ndpi_serializer.c:2113-2242 | reading back any run of calls returns their stored forms, in order, and nothing more |
| `Tlv.FaithfulExactly` | app/src/main/jni/ndpi/lib/ndpi_serializer.c:2246-2539 | wherever its bytes stand, a reader sees the call as written (same key, a value of the same number and signedness) if and only if the value is no boolean, the string key has a non-digit, the value is no signed one in [2^31, 2^32), and behind a key of 65533 bytes or more the bytes of the value stand also at the start of the item, where they are looked for |
| `Tlv.DigitKeyExample` | app/src/main/jni/ndpi/lib/ndpi_serializer.c:1198-1201 | the string key 7 comes back as the number 7 |
| `Tlv.BooleanExample` | app/src/main/jni/ndpi/lib/ndpi_serializer.c:1791-1800 | a boolean leaves nothing to read |
| `Tlv.LongKeyExample` | app/src/main/jni/ndpi/lib/ndpi_serializer.c:2214-2242 | behind every string key of 65533 bytes the value 5 comes back as 178 |
| `Tlv.CanonicalEncoding` | app/src/main/jni/ndpi/lib/ndpi_serializer.c:867-868 | re-encoding what was read yields the same bytes, because no narrowing branch is taken twice |
| `TlvWidths.KeyWidth` | app/src/main/jni/ndpi/lib/ndpi_serializer.c:739-754 | a key number takes the least of 1, 2, 4 and 8 bytes whose patterns include it |
| `TlvWidths.UnsignedWidth` | app/src/main/jni/ndpi/lib/ndpi_serializer.c:806-815 | so does an unsigned value of either writer |
| `TlvWidths.SignedWidthExactly` | app/src/main/jni/ndpi/lib/ndpi_serializer.c:930-1018 | so does a signed value, if and only if it is no value of the 64-bit writer in [-2^31, 0), which takes eight bytes, or in [2^31, 2^32), which takes too few |
| `TlvWidths.NumberItems` | app/src/main/jni/ndpi/lib/ndpi_serializer.c:798-818 | items of unsigned numbers of each width, byte by byte |
| `TlvWidths.SignedItems` | app/src/main/jni/ndpi/lib/ndpi_serializer.c:930-949 | items of signed 32-bit numbers of each width, byte by byte |
| `TlvWidths.Int64Items` | app/src/main/jni/ndpi/lib/ndpi_serializer.c:998-1018 | a negative and a small value of the signed 64-bit writer, byte by byte |
| `TlvWidths.OtherItems` | app/src/main/jni/ndpi/lib/ndpi_serializer.c:1023-2005 | a float, a string under a string key, and the items of lists, blocks and records, byte by byte; the two bytes of the header |
| `JsonText.ParseQuoted` | app/src/main/jni/ndpi/lib/ndpi_serializer.c:94-143 | an escaped string parses (section 7 of RFC 8259) to the original without the control characters the writer drops |
| `JsonBytes.EscapesAre` | app/src/main/jni/ndpi/lib/ndpi_serializer.c:94-143 | how each byte of a string is spelled |
| `JsonBytes.SecondElement` | app/src/main/jni/ndpi/lib/ndpi_serializer.c:692-735 | the text of a list with two elements, byte by byte |
| `JsonBytes.SecondRecord` | app/src/main/jni/ndpi/lib/ndpi_serializer.c:636-735 | the text of two records with a member each, byte by byte |
| `JsonBytes.BlockEnds` | app/src/main/jni/ndpi/lib/ndpi_serializer.c:1926-2005 | the text of a closed block with one member, byte by byte |
| `JsonText.ParseIntText` | app/src/main/jni/ndpi/lib/ndpi_serializer.c:958-983 | every printed integer parses back to itself |
| `JsonText.ParsePrinted` | app/src/main/jni/ndpi/lib/ndpi_serializer.c:723-735 | every tree spelled the way the writers spell it parses to that tree, whatever delimiter follows |
| `Documents.PreCloses` | app/src/main/jni/ndpi/lib/ndpi_serializer.c:692-735 | taking the closers off and putting them back never shortens the text and keeps the array and list state |
| `Documents.NotEmptyExactly` | app/src/main/jni/ndpi/lib/ndpi_serializer.c:636-670 | over every run, the flag for a record that is not empty is set if and only if a value was written since the last end of record |
| `JsonMeaning.PutStep` | app/src/main/jni/ndpi/lib/ndpi_serializer.c:758-822 | a key/value call turns the text of any state into the text of the state with that member, or list element, added |
| `JsonMeaning.StartListStep` | app/src/main/jni/ndpi/lib/ndpi_serializer.c:1851-1889 | starting a list keeps text and tree in step |
| `JsonMeaning.StartBlockStep` | app/src/main/jni/ndpi/lib/ndpi_serializer.c:1926-1961 | starting a block keeps text and tree in step |
| `JsonMeaning.EndBlockStep` | app/src/main/jni/ndpi/lib/ndpi_serializer.c:1976-2005 | ending a block keeps text and tree in step |
| `JsonMeaning.EndRecordStep` | app/src/main/jni/ndpi/lib/ndpi_serializer.c:636-673 | ending a record turns the text into an array of records and keeps text and tree in step |
| `JsonMeaning.StepRepresents` | app/src/main/jni/ndpi/lib/ndpi_serializer.c:692-735 | every allowed call keeps the invariant between text, flags and tree |
| `JsonMeaning.NameExactly` | app/src/main/jni/ndpi/lib/ndpi_serializer.c:1198-1201 | a member name comes out as given if and only if it has a non-digit, or is a decimal number without leading zeros |
| `JsonMeaning.NameExample` | app/src/main/jni/ndpi/lib/ndpi_serializer.c:1198-1201 | the names 007 and 7 become one, and so do the empty name and 0 |
| `JsonMeaning.JsonMeaning` | app/src/main/jni/ndpi/lib/ndpi_serializer.c:1851-2005 | after every allowed run from an empty serializer, the text with one `}` per open block parses to exactly the tree written, less the characters the writer drops and with all-digit names renamed as `JsonMeaning.NameExactly` says |
| `JsonMeaning.RunRepresents` | app/src/main/jni/ndpi/lib/ndpi_serializer.c:636-735 | the invariant holds over whole runs from any state |
| `JsonScan.TextIsScanned` | app/src/main/jni/ndpi/lib/ndpi_serializer.c:723-735 | every JSON text (the whole grammar of RFC 8259) takes the scanner to the end of one value with nothing open |
| `JsonScan.DeadIsBroken` | app/src/main/jni/ndpi/lib/ndpi_serializer.c:692-735 | a text at which the scanner stops cannot be completed to JSON by any further bytes |
| `JsonKept.StepWrites` | app/src/main/jni/ndpi/lib/ndpi_serializer.c:692-735 | whatever the call, allowed or not, the part of the text between the first byte and the closers only grows, by bytes that depend on flags and call alone |
| `JsonLimits.LostStays` | app/src/main/jni/ndpi/lib/ndpi_serializer.c:692-735 | a lost text stays lost through every call |
| `JsonLimits.LostIsBroken` | app/src/main/jni/ndpi/lib/ndpi_serializer.c:692-735 | a lost text cannot be completed to JSON |
| `JsonTracks.ForbiddenIsLost` | app/src/main/jni/ndpi/lib/ndpi_serializer.c:692-735 | a call the flags cannot express loses the text: a name in a list, a block after the first end of record, an end of block with none open or inside an empty list, an end of record inside a block |
| `JsonTracks.LeftOpenReads` | app/src/main/jni/ndpi/lib/ndpi_serializer.c:636-673 | a record ended over its own open list still reads as the records so far |
| `JsonTracks.LeftOpenRecovers` | app/src/main/jni/ndpi/lib/ndpi_serializer.c:1904-1922 | from there an end of list or a new list brings text, flags and tree together again |
| `JsonTracks.LeftOpenLoses` | app/src/main/jni/ndpi/lib/ndpi_serializer.c:692-702 | and every other call but an end of record loses the text |
| `JsonTracks.BlockIsRepaired` | app/src/main/jni/ndpi/lib/ndpi_serializer.c:1976-2005 | an end of block inside a list with an element breaks the text, and a list started next repairs it: the text means the tree with the block closed |
| `JsonTracks.RepairableLoses` | app/src/main/jni/ndpi/lib/ndpi_serializer.c:692-719 | any other call there loses the text |
| `JsonTracks.RepairExample` | app/src/main/jni/ndpi/lib/ndpi_serializer.c:1851-1889 | one such run, call by call |
| `JsonTracks.StepFollows` | app/src/main/jni/ndpi/lib/ndpi_serializer.c:636-735 | every call takes a document along its track: fine, list left open, block left open, lost |
| `JsonTracks.EveryRun` | app/src/main/jni/ndpi/lib/ndpi_serializer.c:636-735 | for every run of calls whatsoever, the text can be completed to JSON if and only if its track is fine or has a list left open, and then it means the tree of the track |
| `JsonTracks.ForbiddenStaysBroken` | app/src/main/jni/ndpi/lib/ndpi_serializer.c:692-735 | after a call the flags cannot express the text stays broken through all later calls, but for the two cases above |
| `Rollbacks.RollbackTlv` | app/src/main/jni/ndpi/lib/ndpi_serializer.c:2009-2042 | in TLV a rollback restores bytes and flags, whatever was written since the snapshot |
| `Rollbacks.RollbackCsv` | app/src/main/jni/ndpi/lib/ndpi_serializer.c:677-688 | in CSV a rollback restores bytes, header length and flags, whatever was written since |
| `Csv.CsvExactly` | app/src/main/jni/ndpi/lib/ndpi_serializer.c:318-343 | every run of CSV records leaves one line of separated fields for each record, if and only if the first record does not start with an empty field before others; the header likewise for its names |
| `Csv.CsvExample` | app/src/main/jni/ndpi/lib/ndpi_serializer.c:677-688 | an empty field and x come out as x alone |
| `Rollbacks.StepKeeps` | app/src/main/jni/ndpi/lib/ndpi_serializer.c:692-735 | every JSON call, allowed or not, keeps the two ends of the text in order and changes nothing below the tail but the first byte |
| `Rollbacks.Reachable` | app/src/main/jni/ndpi/lib/ndpi_serializer.c:173-192 | every document reached from an empty one has those ends |
| `Rollbacks.Spoiled` | app/src/main/jni/ndpi/lib/ndpi_serializer.c:2026-2042 | from any snapshot with a longer tail, one more value is enough to make the rollback wrong |
| `Rollbacks.RollbackJsonExactly` | app/src/main/jni/ndpi/lib/ndpi_serializer.c:2026-2042 | in JSON the rollback is exact for all later calls if and only if the tail at the snapshot is one character: a record boundary, or no record ended and no list open |
| `SerializerBuffer.Serializer.Extend` | app/src/main/jni/ndpi/lib/ndpi_serializer.c:256-281 | the grown buffer keeps its bytes and has exactly the size of the growth rule |
| `Reservations.ExtendedExactly` | app/src/main/jni/ndpi/lib/ndpi_serializer.c:256-281 | the buffer grows to the next multiple of four above the room asked for, or above the lesser of 1024 and its initial size where that is more |
| `Reservations.CapacityExactly` | app/src/main/jni/ndpi/lib/ndpi_serializer.c:826-886 | a 64-bit value in [0, 2^32) asks for room twice in TLV, and all other calls once |
| `SerializerBuffer.Serializer.Escape` | app/src/main/jni/ndpi/lib/ndpi_serializer.c:94-143 | the escaping loop writes in place exactly the quoted text, and its terminator one byte behind the next inside the array |
| `SerializerBuffer.Serializer.JsonPre` | app/src/main/jni/ndpi/lib/ndpi_serializer.c:692-719 | the tail edit in place is the one of the document model |
| `SerializerBuffer.Serializer.JsonPost` | app/src/main/jni/ndpi/lib/ndpi_serializer.c:723-735 | the closing in place is the one of the document model |
| `SerializerBuffer.Serializer.Write` | app/src/main/jni/ndpi/lib/ndpi_serializer.c:1191-1259 | a key/value writer performs one step of the document and stays inside the buffer |
| `SerializerBuffer.Serializer.WriteUInt64` | app/src/main/jni/ndpi/lib/ndpi_serializer.c:1505-1568 | the unsigned 64-bit writer, with its hand-over to the 32-bit one |
| `SerializerBuffer.Serializer.WriteInt64` | app/src/main/jni/ndpi/lib/ndpi_serializer.c:1302-1364 | the signed 64-bit writer, with its hand-over to the 32-bit one |
| `SerializerBuffer.Serializer.EndOfList` | app/src/main/jni/ndpi/lib/ndpi_serializer.c:1904-1922 | ending a list is one step, given the byte it does not reserve |
| `SerializerBuffer.Serializer.EndOfRecord` | app/src/main/jni/ndpi/lib/ndpi_serializer.c:636-673 | ending a record is one step of the document |
| `SerializerBuffer.Serializer.RollbackSnapshot` | app/src/main/jni/ndpi/lib/ndpi_serializer.c:2026-2042 | the rollback in place is the one of the document model |
| `SerializerBuffer.Serializer.Perform` | app/src/main/jni/ndpi/lib/ndpi_serializer.c:758-2005 | every call that fits performs exactly one step of the document in place, never writes outside the array, terminators included, and leaves the buffer at the size of the growth rule |
| `Reservations.GrowthReached` | app/src/main/jni/ndpi/lib/ndpi_serializer.c:692-735 | the bound on what a call adds is reached, by every call in some document |
| `Reservations.SelfReservingExactly` | app/src/main/jni/ndpi/lib/ndpi_serializer.c:256-281 | a call fits every buffer at whatever size if and only if it reserves the most it can add |
| `Reservations.TlvReservations` | app/src/main/jni/ndpi/lib/ndpi_serializer.c:1904-1922 | in TLV exactly two calls write more than they reserve: end of list, and a string-key signed 64-bit value outside [0, 2^32) |
| `Reservations.TlvReservationsAre` | app/src/main/jni/ndpi/lib/ndpi_serializer.c:758-2005 | the TLV writers of numbers, floats and strings reserve the longest item they can write, with three exceptions by exact numbers of bytes |
| `Reservations.JsonReservations` | app/src/main/jni/ndpi/lib/ndpi_serializer.c:1302-1330 | in JSON, writer by writer, a call reserves what it writes if and only if an inequality in the lengths of the escaped name and the printed value holds |
| `Reservations.Int64Overruns` | app/src/main/jni/ndpi/lib/ndpi_serializer.c:1302-1330 | the lowest 64-bit number under the name `a` needs 27 bytes and reserves 25 |
| `Reservations.EscapedNameOverruns` | app/src/main/jni/ndpi/lib/ndpi_serializer.c:1851-1865 | a list named by eight quotes needs 25 bytes and reserves 24 |
| `Reservations.StringsLeaveRoom` | app/src/main/jni/ndpi/lib/ndpi_serializer.c:139-140 | a string value always leaves a byte to spare, where the terminator behind the escaped text goes |
| `Cloning.PerformAll` | app/src/main/jni/ndpi/lib/ndpi_serializer.c:256-281 | a run of calls on one growing buffer gives the document of the run, given room, in the buffer as it is by then, for the calls that reserve too little |
| `Cloning.TryAndUndo` | app/src/main/jni/ndpi/lib/ndpi_serializer.c:2009-2042 | snapshot, any calls, rollback: the buffer shows the document it showed before |
| `Cloning.CloneItem` | app/src/main/jni/ndpi/lib/ndpi_serializer.c:2544-2588 | the item under the cursor is appended byte by byte, or refused with -3 outside TLV and with -2 at the end of the source; no other error can occur |
| `Cloning.CopyIsRewriting` | app/src/main/jni/ndpi/lib/ndpi_serializer.c:2544-2588 | copying a stored item leaves the text that writing it again leaves, if and only if it is under 65536 bytes |
| `Cloning.CloneItems` | app/src/main/jni/ndpi/lib/ndpi_serializer.c:2592-2682 | the clone loop makes on the target exactly the calls stored, and ends at the end of the source |
| `Cloning.CloneAll` | app/src/main/jni/ndpi/lib/ndpi_serializer.c:2592-2682 | cloning ends with success, and into an empty TLV serializer it reproduces the buffer byte for byte |
| `Cloning.CloneIsIdentical` | app/src/main/jni/ndpi/lib/ndpi_serializer.c:2592-2682 | the stored calls written to an empty TLV document give the source buffer |
| `Cloning.CloneToJson` | app/src/main/jni/ndpi/lib/ndpi_serializer.c:2592-2682 | cloned into an empty JSON serializer, a buffer becomes a text that parses to the tree of the stored calls |
| `Tables.Engine.Register` | app/src/main/jni/ndpi/lib/ndpi_main.c:3621-3671 | registration fills the next slot, keeps the others, and leaves it empty for a disabled protocol |
| `Tables.PacketBitsExactly` | app/src/main/jni/ndpi/lib/ndpi_main.c:5675-5694 | each selection bit of a packet says one thing about it, and there are no others |
| `Tables.Engine.BuildTables` | app/src/main/jni/ndpi/lib/ndpi_main.c:4177-4236 | the four loops build the four filtered tables, in registration order |
| `Tables.TablesExactly` | app/src/main/jni/ndpi/lib/ndpi_main.c:4177-4236 | which selection masks put an entry into which table, bit by bit |
| `Tables.FilterTwice` | app/src/main/jni/ndpi/lib/ndpi_main.c:4180-4236 | filtering a filtered table is filtering once |
| `Tables.FastTablesRefine` | app/src/main/jni/ndpi/lib/ndpi_main.c:4783-4800 | for every table and packet, the fast table offers exactly the entries, in order, that the full table would select |
| `Dispatch.EmptyNeverPasses` | app/src/main/jni/ndpi/lib/ndpi_main.c:7341-7350 | an empty slot selects every packet yet never passes the detection test |
| `Dispatch.FastScanIsFullScan` | app/src/main/jni/ndpi/lib/ndpi_main.c:4783-4800 | whatever the dissectors do, scanning the fast table makes the same calls with the same outcome as scanning the full one |
| `CallsMade.ScanExactly` | app/src/main/jni/ndpi/lib/ndpi_main.c:4783-4803 | a scan calls exactly the entries that are due when their turn comes, in table order, each on what the one before left, up to the first detection |
| `CallsMade.NoneSkipped` | app/src/main/jni/ndpi/lib/ndpi_main.c:4783-4803 | if it ends without a detection, every entry still due under the final exclusions was called |
| `CallsMade.GuessExactly` | app/src/main/jni/ndpi/lib/ndpi_main.c:4760-4778 | the dissector registered for the guess is called if and only if it is due and, for a TCP packet without payload, the slot numbered like the protocol asks for none |
| `CallsMade.MisjudgedExample` | app/src/main/jni/ndpi/lib/ndpi_main.c:4771-4773 | a guess whose dissector is due and is not called, because another protocol has the slot of that number |
| `CallsMade.SubprotocolsTried` | app/src/main/jni/ndpi/lib/ndpi_main.c:4806-4829 | every call of the subprotocol loop goes to a listed subprotocol that is due, in order, and none follows a detected one |
| `CallsMade.NoSubprotocolSkipped` | app/src/main/jni/ndpi/lib/ndpi_main.c:4806-4829 | if no subprotocol is detected, every listed one still due under the final exclusions was called |
| `CallsMade.CheckExactly` | app/src/main/jni/ndpi/lib/ndpi_main.c:4746-4832 | one packet: the guess, then the table unless that detected something, then the subprotocols of what is detected by now, each making exactly the calls due |
| `CallsMade.EveryDueCallIsMade` | app/src/main/jni/ndpi/lib/ndpi_main.c:4746-4832 | if no call detects a protocol, every entry of the table still wanted at the end was called, or its function was as that of the guess |
| `CallsMade.EveryRegisteredIsServed` | app/src/main/jni/ndpi/lib/ndpi_main.c:4746-4832 | the same for every registered entry of the packet's transport |
| `CallsMade.ProcessStarts` | app/src/main/jni/ndpi/lib/ndpi_main.c:4563-4600 | a packet starts from the verdict of the last one, from nothing behind a reset, with the guess made at the first packet since |
| `CallsMade.DetectionStands` | app/src/main/jni/ndpi/lib/ndpi_main.c:5663-5664 | once a protocol is detected no later packet of the run calls or changes anything |
| `Dispatch.CheckOrderly` | app/src/main/jni/ndpi/lib/ndpi_main.c:4762-4829 | every call for one packet is to a registered function not excluded, and exclusion only grows through the calls |
| `Dispatch.RunAll` | app/src/main/jni/ndpi/lib/ndpi_main.c:5660-5700 | every run of packets keeps the discipline of calls and exclusions, reset by reset |
| `Dispatch.DispatchSafety` | app/src/main/jni/ndpi/lib/ndpi_main.c:4566-4597 | over every run of packets, each call is to a registered non-null function whose protocol is not excluded, and nothing excluded earlier is called before the next reset |
| `Dispatch.Flow.ScanTable` | app/src/main/jni/ndpi/lib/ndpi_main.c:4783-4803 | the scan loop leaves the flow and makes the calls of the specified scan |
| `Dispatch.Flow.CallSubprotocols` | app/src/main/jni/ndpi/lib/ndpi_main.c:4805-4829 | the subprotocol loop, which follows the list of whatever is detected by now, ends and makes the specified calls |
| `Dispatch.Flow.CheckDetection` | app/src/main/jni/ndpi/lib/ndpi_main.c:4762-4829 | dispatch of one packet: the calls and verdict of the specification, every call to a registered, not excluded function, exclusions only growing |
| `Dispatch.Flow.Prepare` | app/src/main/jni/ndpi/lib/ndpi_main.c:4566-4597 | the SYN reset and the guess in place |
| `Dispatch.Flow.ProcessPacket` | app/src/main/jni/ndpi/lib/ndpi_main.c:5660-5700 | one packet in place: reset, guess and dispatch |
| `Dispatch.Flow.ProcessAll` | app/src/main/jni/ndpi/lib/ndpi_main.c:5660-5700 | a whole run of packets in place makes the calls of the run theorem, and they are disciplined |
| `TcpTracker.Flow.Track` | app/src/main/jni/ndpi/lib/ndpi_main.c:4658-4720 | one packet changes the flow by exactly the step the run lemmas speak of, and is flagged exactly when they say |
| `TcpTracker.HandshakeExactly` | app/src/main/jni/ndpi/lib/ndpi_main.c:4665-4677 | over every run since a reset, the flags say exactly whether SYN, then SYN+ACK, then ACK occurred in that order |
| `TcpTracker.LearnedExactly` | app/src/main/jni/ndpi/lib/ndpi_main.c:4678-4698 | while a number is not known an ACK teaches both: the end of its segment, a SYN counting one, and the number it acknowledges; other packets teach nothing and none is flagged |
| `TcpTracker.HandshakeNumbers` | app/src/main/jni/ndpi/lib/ndpi_main.c:4678-4698 | after SYNs and the SYN+ACK that answers, both numbers are the initial sequence numbers plus one (section 3.4 of RFC 9293) |
| `TcpTracker.ConnectionNeverFlagged` | app/src/main/jni/ndpi/lib/ndpi_main.c:4658-4720 | no packet of a whole connection, handshake and a stream in order behind it, is flagged as long as neither number reaches zero |
| `TcpTracker.ResetForgets` | app/src/main/jni/ndpi/lib/ndpi_main.c:4717-4720 | after an RST both numbers are unknown and a new handshake is learned as on a new flow |
| `TcpTracker.HandshakeExample` | app/src/main/jni/ndpi/lib/ndpi_main.c:4678-4715 | SYN at 500, SYN+ACK at 1000: 501 and 1001 are expected and a byte at 1000 is flagged |
| `TcpTracker.MovesForward` | app/src/main/jni/ndpi/lib/ndpi_main.c:4697-4715 | a packet moves its own expected number forward by 0 to 131071 modulo 2^32 and leaves the other one |
| `TcpTracker.InOrderAccepted` | app/src/main/jni/ndpi/lib/ndpi_main.c:4711-4714 | an in-order segment is accepted and advances the number by its length |
| `TcpTracker.CoveredFlagged` | app/src/main/jni/ndpi/lib/ndpi_main.c:4699-4709 | a segment covered before is flagged and moves nothing |
| `TcpTracker.PartialFlagged` | app/src/main/jni/ndpi/lib/ndpi_main.c:4703-4709 | a segment that reaches past the expected number is flagged and moves it to the segment's end |
| `TcpTracker.GapFreeNumbers` | app/src/main/jni/ndpi/lib/ndpi_main.c:4697-4715 | in a gap-free run whose bytes take no expected number to zero before its last packet, the expected numbers are the initial ones plus the bytes sent |
| `TcpTracker.ThroughoutExactly` | app/src/main/jni/ndpi/lib/ndpi_main.c:4678-4715 | in a gap-free run both numbers are known throughout if and only if the initial numbers plus the bytes sent are never zero |
| `TcpTracker.GapFreeNeverFlagged` | app/src/main/jni/ndpi/lib/ndpi_main.c:4697-4715 | in such a run no packet is flagged as a retransmission |
| `TcpTracker.MisledExactly` | app/src/main/jni/ndpi/lib/ndpi_main.c:4678-4715 | after such a run two more packets in order exist of which the second is flagged, if and only if the bytes sent have just taken an expected number to zero |
| `TcpTracker.ZeroExample` | app/src/main/jni/ndpi/lib/ndpi_main.c:4678-4715 | from 2^32 - 100 a segment of 100 bytes, one packet from the other side that acknowledges 70000 bytes less, and the next segment in order is flagged |
| `TcpTracker.ResentIsFlagged` | app/src/main/jni/ndpi/lib/ndpi_main.c:4697-4715 | a segment of such a run sent again at any later time is flagged if and only if both numbers are known by then and the bytes since its first are, modulo 2^32, some and fewer than 2^32 - 65536; with so few bytes it changes no number |
| `Giveup.Tracker.SetDetected` | app/src/main/jni/ndpi/lib/ndpi_main.c:6438-6458 | the two slots, the confidence and nothing else change, as the consistency lemmas assume |
| `Giveup.ChangeExactly` | app/src/main/jni/ndpi/lib/ndpi_main.c:6438-6458 | two different protocols keep their places, one alone becomes the upper one or goes under the protocol guessed from the host, and nothing else changes |
| `Giveup.Tracker.DetectionGiveup` | app/src/main/jni/ndpi/lib/ndpi_main.c:5101-5270 | the decision in place, total; a detected protocol is returned unchanged |
| `Giveup.ChangeConsistent` | app/src/main/jni/ndpi/lib/ndpi_main.c:6438-6458 | a change never leaves a lower protocol under an empty upper slot |
| `Giveup.FallbackNeverActs` | app/src/main/jni/ndpi/lib/ndpi_main.c:5198-5217 | on every path the fallback block changes nothing |
| `Giveup.FinalIsConsistent` | app/src/main/jni/ndpi/lib/ndpi_main.c:5101-5270 | from such a flow no known master is returned with an unknown application |
| `Giveup.ConsistentExactly` | app/src/main/jni/ndpi/lib/ndpi_main.c:5101-5270 | that holds for all answers of the caches if and only if the flow passes a test on its own fields, met by every flow whose empty upper slot has an empty lower one |
| `Giveup.GuessExactly` | app/src/main/jni/ndpi/lib/ndpi_main.c:5141-5186 | the guess from the ports becomes the master and the protocol of the host, by name before address, the application; with the confidence |
| `Giveup.DecisionExactly` | app/src/main/jni/ndpi/lib/ndpi_main.c:5117-5225 | which branch decides and with which result: mining, STUN, the calls, a named client hello, the guesses |
| `Giveup.AnswerOfStack` | app/src/main/jni/ndpi/lib/ndpi_main.c:5229-5266 | Facebook and Google over STUN become their calls, and the application is reconciled |
| `Giveup.AnswerOfCaches` | app/src/main/jni/ndpi/lib/ndpi_main.c:5244-5266 | an unknown flow is looked up in the BitTorrent cache, then for UDP in the Zoom cache |
| `Slicer.ExtensionHeaders` | app/src/main/jni/ndpi/lib/ndpi_main.c:4251-4311 | the walk ends, keeps pointer plus remaining length, and succeeds if and only if the header chain (sections 4 and 4.5 of RFC 8200) is complete or is cut off, which it returns as it is |
| `Slicer.CutOffIsBad` | app/src/main/jni/ndpi/lib/ndpi_main.c:4253-4253 | a chain that is cut off has no upper-layer header |
| `Slicer.CutOffExample` | app/src/main/jni/ndpi/lib/ndpi_main.c:4251-4311 | an IPv6 header alone that announces options is passed on in a packet of 40 bytes and refused in one of 42 |
| `Slicer.ChainInside` | app/src/main/jni/ndpi/lib/ndpi_main.c:4251-4311 | the header chain stays inside the packet and ends at no extension header |
| `Slicer.GetL4` | app/src/main/jni/ndpi/lib/ndpi_main.c:4344-4415 | a layer above IP is returned if and only if the standards give one (section 3.1 of RFC 791) or the packet is a cut-off one; it lies inside the packet, and it is theirs unless cut off |
| `Slicer.UnfragmentedExactly` | app/src/main/jni/ndpi/lib/ndpi_main.c:4310-4326 | the test for fragments is that of section 3.1 of RFC 791: a whole datagram with a fragment offset of zero |
| `Slicer.FlagsDoNotMatter` | app/src/main/jni/ndpi/lib/ndpi_main.c:4310-4326 | Don't Fragment and More Fragments change neither the layer nor the payload |
| `Slicer.DontFragmentExample` | app/src/main/jni/ndpi/lib/ndpi_main.c:4545-4612 | the slice of a 40-byte TCP packet with Don't Fragment |
| `Slicer.TwoExtensionsExample` | app/src/main/jni/ndpi/lib/ndpi_main.c:4251-4311 | the slice of a UDP packet behind hop-by-hop options and a fragment header |
| `Slicer.LongExamples` | app/src/main/jni/ndpi/lib/ndpi_main.c:4340-4420 | the slices of an IPv4 packet with options and of an IPv6 packet with destination options, 300 bytes each |
| `Slicer.FragmentExamples` | app/src/main/jni/ndpi/lib/ndpi_main.c:4251-4326 | later fragments of IPv4 and of IPv6 are rejected |
| `Slicer.EchoExample` | app/src/main/jni/ndpi/lib/ndpi_main.c:4590-4612 | the slice of an ICMP message |
| `Slicer.InitPacket` | app/src/main/jni/ndpi/lib/ndpi_main.c:4545-4612 | every accepted slice lies inside the packet; it is the payload that RFC 9293 and RFC 768 give, behind the whole header, if and only if the layer is no TCP header with a data offset under 5; then the slice starts inside the header |
| `Slicer.ShortOffsetExample` | app/src/main/jni/ndpi/lib/ndpi_main.c:4552-4561 | from a 40-byte packet with data offset zero the TCP header itself is taken as payload |
| `Lines.Packet.ParseLines` | app/src/main/jni/ndpi/lib/ndpi_main.c:5983-6255 | the recorded lines and headers for every payload: none without a line end, all up to 64, the first 64 beyond |
| `Lines.SplitCounts` | app/src/main/jni/ndpi/lib/ndpi_main.c:5999-6249 | there is one line more than there are line ends |
| `Lines.CrlfExactly` | app/src/main/jni/ndpi/lib/ndpi_main.c:5999-6000 | a line end is the bytes 13 and 10 |
| `Lines.JoinSplit` | app/src/main/jni/ndpi/lib/ndpi_main.c:5999-6249 | joining the lines with CR LF gives back the payload |
| `Lines.SplitIsFree` | app/src/main/jni/ndpi/lib/ndpi_main.c:5999-6249 | no line contains CR LF |
| `Lines.SplitJoin` | app/src/main/jni/ndpi/lib/ndpi_main.c:5999-6249 | splitting undoes joining for every list of lines free of CR LF |
| `Lines.ParsedUndone` | app/src/main/jni/ndpi/lib/ndpi_main.c:5983-6255 | with 1 to 63 line ends, the recorded lines number one more, contain none, and join to the payload (section 2.1 of RFC 9112) |
| `Lines.ParsedTooMany` | app/src/main/jni/ndpi/lib/ndpi_main.c:5999-6249 | with 64 line ends or more the first 64 lines are recorded and 63 counted |
| `Lines.NotedExactly` | app/src/main/jni/ndpi/lib/ndpi_main.c:5999-6249 | headers are looked for in the lines closed by a line end, up to 64 of them |
| `Lines.FieldExactly` | app/src/main/jni/ndpi/lib/ndpi_main.c:6047-6212 | a line is taken for a field exactly if it starts with its name, so the order of the tests does not matter |
| `Lines.NamesExactly` | app/src/main/jni/ndpi/lib/ndpi_main.c:6047-6212 | a line names a field if and only if it starts with the name, in any case, and goes on for one byte, or two behind a bare colon |
| `Lines.ValueExactly` | app/src/main/jni/ndpi/lib/ndpi_main.c:6047-6212 | such a line is its name, then spaces, then the value: at most one space for three fields, all there are for two, none for the others |
| `Lines.ValuesInsideLines` | app/src/main/jni/ndpi/lib/ndpi_main.c:6025-6232 | every recorded value is a stretch of one of the lines |
| `Lines.LastNameWins` | app/src/main/jni/ndpi/lib/ndpi_main.c:6047-6175 | for every field but the content type the last line that names it decides |
| `Lines.UnnamedIsEmpty` | app/src/main/jni/ndpi/lib/ndpi_main.c:6047-6175 | a field no line names is empty |
| `Lines.StatusExactly` | app/src/main/jni/ndpi/lib/ndpi_main.c:6023-6030 | the status is recorded if and only if the first line is a status line with a code from 1 to 5, from its tenth byte on |
| `Lines.LastContentWins` | app/src/main/jni/ndpi/lib/ndpi_main.c:6180-6232 | the last line that names the content type decides, if something is left of its value |
| `Lines.FirstBareWins` | app/src/main/jni/ndpi/lib/ndpi_main.c:6213-6218 | without a space behind its colon the first line with a content type decides, if no later one names it |
| `Lines.ContentIsClean` | app/src/main/jni/ndpi/lib/ndpi_main.c:6219-6232 | a recorded content type holds no `;` and no CR |
| `Xgrams.CodeInjective` | app/src/main/jni/ndpi/lib/ndpi_main.c:744-757 | words of one length have different base-26 codes |
| `Xgrams.LettersExactly` | app/src/main/jni/ndpi/lib/ndpi_main.c:7299-7307 | the letters are a to z, at their places |
| `Xgrams.CodeOfTwo` | app/src/main/jni/ndpi/lib/ndpi_main.c:744-757 | the code of two letters is 26 times the first plus the second |
| `Xgrams.CodeOfThree` | app/src/main/jni/ndpi/lib/ndpi_main.c:744-757 | and of three letters likewise |
| `Xgrams.SetBitAdds` | app/src/main/jni/ndpi/lib/ndpi_main.c:756-756 | setting a bit adds its power of two, or nothing if it is set |
| `Xgrams.SetBitSets` | app/src/main/jni/ndpi/lib/ndpi_main.c:756-756 | setting a bit sets that bit and no other |
| `Xgrams.Init` | app/src/main/jni/ndpi/lib/ndpi_main.c:744-757 | initialization succeeds exactly on lists of lower-case words of the length, and then marks exactly their codes |
| `Xgrams.Match` | app/src/main/jni/ndpi/lib/ndpi_main.c:7299-7307 | a text matches if and only if its first letters are a listed word; a shorter text counts as padded in front with `a` |
| `Variance.Analysis.AddValue` | app/src/main/jni/ndpi/lib/ndpi_analyze.c:91-116 | adding a value keeps the counters, each at its width, and the ring in step with all values so far, and the extremes with the values since the 32-bit total was last zero |
| `Variance.Analysis.DataVariance` | app/src/main/jni/ndpi/lib/ndpi_analyze.c:144-147 | in exact arithmetic, with a total and a count below 2^32, the streaming variance is the population variance of all values, and never negative |
| `Variance.Analysis.WindowAverage` | app/src/main/jni/ndpi/lib/ndpi_analyze.c:165-179 | the window average is the mean of the last values, unless the 32-bit count wrapped to less than the window; then of its first slots |
| `Variance.Analysis.WindowVariance` | app/src/main/jni/ndpi/lib/ndpi_analyze.c:184-198 | the same for the window variance; with no more values than the window holds it is that of all values |
| `Variance.OnePassIsTwoPass` | app/src/main/jni/ndpi/lib/ndpi_analyze.c:144-147 | the one-pass formula equals the two-pass definition |
| `Variance.VarianceExample` | app/src/main/jni/ndpi/lib/ndpi_analyze.c:144-147 | of 1 and 3 the mean is 2 and the variance 1 |
| `Variance.SquaresBounded` | app/src/main/jni/ndpi/lib/ndpi_analyze.c:115-115 | the sum of squares is at most the square of the sum |
| `Variance.SquaresFit` | app/src/main/jni/ndpi/lib/ndpi_analyze.c:115-115 | while the 32-bit sum is right the 64-bit sum of squares cannot overflow |
| `Variance.RingIsRotated` | app/src/main/jni/ndpi/lib/ndpi_analyze.c:100-105 | the window holds the last values, rotated |
| `Variance.MinimumExactly` | app/src/main/jni/ndpi/lib/ndpi_analyze.c:92-97 | for every non-empty series: the recorded minimum is the minimum if and only if a smallest value occurs since the 32-bit total was last zero |
| `Variance.MaximumExactly` | app/src/main/jni/ndpi/lib/ndpi_analyze.c:92-97 | the same for the recorded maximum and a largest value |
| `Variance.MinimumExample` | app/src/main/jni/ndpi/lib/ndpi_analyze.c:92-97 | of 0 and 5 the recorded minimum is 5 |
| `Variance.WrapExample` | app/src/main/jni/ndpi/lib/ndpi_analyze.c:92-99 | of 1, 2^32 - 1 and 7 both recorded extremes are 7 |
| `KMeans.Normalize` | app/src/main/jni/ndpi/lib/ndpi_analyze.c:459-494 | normalizing gives the percentages, rounded down |
| `KMeans.PercentExactly` | app/src/main/jni/ndpi/lib/ndpi_analyze.c:459-494 | each percentage is the share of its slot, rounded down |
| `KMeans.PercentsAddUp` | app/src/main/jni/ndpi/lib/ndpi_analyze.c:459-494 | together they come to at most 100, and to more than 100 less one for each slot |
| `KMeans.ComputeCentroids` | app/src/main/jni/ndpi/lib/ndpi_analyze.c:690-705 | the centroids are the normalized sums of the bins of each cluster, slots beyond the last counting as the first; none for a cluster without a slot |
| `KMeans.CentroidConserves` | app/src/main/jni/ndpi/lib/ndpi_analyze.c:690-697 | a centroid, before it is normalized, holds every value of its bins once, and nothing else |
| `KMeans.Similarity` | app/src/main/jni/ndpi/lib/ndpi_analyze.c:552-615 | the loop computes the squared distance, or -1 for bins of different sizes |
| `KMeans.DistanceIsEuclidean` | app/src/main/jni/ndpi/lib/ndpi_analyze.c:594-609 | that distance is the Euclidean one, by an independent dot product |
| `KMeans.DistanceZero` | app/src/main/jni/ndpi/lib/ndpi_analyze.c:594-609 | only equal bins are at distance zero |
| `KMeans.SquaresDecide` | app/src/main/jni/ndpi/lib/ndpi_analyze.c:594-609 | a bin for which the squared and the plain distance choose different centroids |
| `KMeans.TieExample` | app/src/main/jni/ndpi/lib/ndpi_analyze.c:748-754 | between equal centroids a bin stays where it is in company, and goes to the first one alone |
| `KMeans.Decide` | app/src/main/jni/ndpi/lib/ndpi_analyze.c:710-757 | the search returns a nearest non-empty centroid, and the bin's own if and only if it is settled there |
| `KMeans.Reassign` | app/src/main/jni/ndpi/lib/ndpi_analyze.c:707-773 | a pass keeps counters and ids right, leaves every bin at a nearest centroid, and makes no move if and only if every bin was settled |
| `KMeans.ClusterBins` | app/src/main/jni/ndpi/lib/ndpi_analyze.c:626-827 | counters equal cluster sizes and sum to the number of bins, ids stay below the number of clusters, and an exit before the limit is a fixpoint |
| `KMeans.SizesAddUp` | app/src/main/jni/ndpi/lib/ndpi_analyze.c:661-673 | the cluster sizes add up to the number of bins |
| `Rsi.Tracker.AddValue` | app/src/main/jni/ndpi/lib/ndpi_analyze.c:873-916 | after any values the totals are the sums of the rings at 32 bits, no slot holds both a gain and a loss, and the index is reported after one round |
| `Rsi.RingStep` | app/src/main/jni/ndpi/lib/ndpi_analyze.c:876-895 | writing the next slot keeps the ring in step with the last changes |
| `Rsi.TotalsStep` | app/src/main/jni/ndpi/lib/ndpi_analyze.c:879-895 | the totals keep equal to the ring sums, and their difference to the span of the window |
| `Rsi.Telescopes` | app/src/main/jni/ndpi/lib/ndpi_analyze.c:879-895 | gains minus losses equal, modulo 2^32, the last value minus the one a window earlier or the first one |
| `Rsi.IndexIsShare` | app/src/main/jni/ndpi/lib/ndpi_analyze.c:907-915 | the index is the share of the gains in all changes |
| `Rsi.IndexExample` | app/src/main/jni/ndpi/lib/ndpi_analyze.c:907-915 | without losses the index is 100; of gains 3 and losses 1 it is 75 |
| `SpltMerge.TimesAreStamps` | app/src/main/jni/ndpi/lib/ndpi_classify.c:618-646 | comparing and subtracting times is comparing and subtracting their microseconds |
| `SpltMerge.StoredExactly` | app/src/main/jni/ndpi/lib/ndpi_classify.c:659-679 | a difference is stored in milliseconds, or microseconds under one, if and only if it is under 65536 ms |
| `SpltMerge.GapBetween` | app/src/main/jni/ndpi/lib/ndpi_classify.c:618-679 | the same for the gap between two packets in time order |
| `SpltMerge.OrderComplete` | app/src/main/jni/ndpi/lib/ndpi_classify.c:296-337 | the merge holds every packet of both sides and nothing else |
| `SpltMerge.OrderKeepsSides` | app/src/main/jni/ndpi/lib/ndpi_classify.c:296-337 | whatever the times are, each side keeps its order |
| `SpltMerge.OrderIsOrdered` | app/src/main/jni/ndpi/lib/ndpi_classify.c:316-335 | from inputs in time order the merge is in time order, the twin first among equals |
| `SpltMerge.StartExactly` | app/src/main/jni/ndpi/lib/ndpi_classify.c:277-295 | the first entry counts from the earlier start to the first packet of all, if and only if the side that started first also has the first packet |
| `SpltMerge.Merge` | app/src/main/jni/ndpi/lib/ndpi_classify.c:264-341 | the arrays filled in place: lengths in merge order, stored gaps from each packet to the one before, and the start gap in the first entry; for inputs in time order these are all packets of both sides in time order, and each entry after the first is the gap to the packet before if and only if that gap is under 65536 ms |
| `Markov.Build` | app/src/main/jni/ndpi/lib/ndpi_classify.c:345-420 | the matrix filled in place holds the transition frequencies; a lone packet marks its diagonal cell |
| `Markov.BinExactly` | app/src/main/jni/ndpi/lib/ndpi_classify.c:345-366 | the interval of values of each of the ten bins |
| `Markov.StepsExactly` | app/src/main/jni/ndpi/lib/ndpi_classify.c:361-366 | a count is the number of places at which a packet of one bin is followed by one of the other |
| `Markov.BuildExample` | app/src/main/jni/ndpi/lib/ndpi_classify.c:345-380 | three lengths and the matrix built from them |
| `Markov.StepsAddUp` | app/src/main/jni/ndpi/lib/ndpi_classify.c:361-366 | every packet but the last leaves its bin for exactly one bin |
| `Markov.LeaversExactly` | app/src/main/jni/ndpi/lib/ndpi_classify.c:361-366 | a bin has transitions exactly if a packet other than the last fell in it |
| `Markov.RowsSumToOne` | app/src/main/jni/ndpi/lib/ndpi_classify.c:367-379 | each row sums to 1 if a packet other than the last fell in its bin, and to 0 otherwise |
| `Markov.NormalizeRows` | app/src/main/jni/ndpi/lib/ndpi_classify.c:406-418 | each row is divided by its own sum unless that is zero |
| `CommunityId.PairsAreMutual` | app/src/main/jni/ndpi/lib/ndpi_community_id.c:87-158 | ICMP and ICMPv6 types are paired mutually |
| `CommunityId.PairsExactly` | app/src/main/jni/ndpi/lib/ndpi_community_id.c:87-158 | a type is paired exactly with its request or reply |
| `CommunityId.CompareIsNumeric` | app/src/main/jni/ndpi/lib/ndpi_community_id.c:162-173 | the byte order of addresses is the order of their numbers |
| `CommunityId.LesserLeads` | app/src/main/jni/ndpi/lib/ndpi_community_id.c:304-316 | the lesser address leads, and between equal ones the lesser port as the host reads it |
| `CommunityId.OneWayKeepsDirection` | app/src/main/jni/ndpi/lib/ndpi_community_id.c:283-316 | a one-way message keeps its direction |
| `CommunityId.PortsExactly` | app/src/main/jni/ndpi/lib/ndpi_community_id.c:190-213 | which protocols have ports, and for which two port fields are hashed |
| `CommunityId.InHostExactly` | app/src/main/jni/ndpi/lib/ndpi_community_id.c:300-304 | how a port in network order is read on either kind of host |
| `CommunityId.HashedExample` | app/src/main/jni/ndpi/lib/ndpi_community_id.c:190-326 | the bytes of one TCP flow |
| `CommunityId.EchoExample` | app/src/main/jni/ndpi/lib/ndpi_community_id.c:190-326 | the bytes of an echo request and of a GRE flow |
| `CommunityId.OrderIsTotal` | app/src/main/jni/ndpi/lib/ndpi_community_id.c:162-173 | the peer order is strict and total, on hosts of either byte order |
| `CommunityId.SortedExactly` | app/src/main/jni/ndpi/lib/ndpi_community_id.c:304-316 | putting the lesser peer first forgets the direction and nothing else |
| `CommunityId.LayoutExactly` | app/src/main/jni/ndpi/lib/ndpi_community_id.c:190-213 | the buffer determines protocol, addresses and ports |
| `CommunityId.HashedExactly` | app/src/main/jni/ndpi/lib/ndpi_community_id.c:261-378 | two flows of one family, of any protocol, feed SHA-1 the same bytes if and only if they are the same conversation |
| `CommunityId.PortedExactly` | app/src/main/jni/ndpi/lib/ndpi_community_id.c:261-378 | for TCP, UDP and SCTP: same protocol and same endpoints up to the direction |
| `CommunityId.IcmpExactly` | app/src/main/jni/ndpi/lib/ndpi_community_id.c:283-296 | for ICMP and ICMPv6: same message, or a request and its reply the other way |
| `CommunityId.HostsAgreeExactly` | app/src/main/jni/ndpi/lib/ndpi_community_id.c:162-173 | hosts of either byte order hash the same bytes if and only if the message is one-way, the addresses differ, or the byte-swapped ports compare as the ports do |
| `CommunityId.HostsDisagree` | app/src/main/jni/ndpi/lib/ndpi_community_id.c:162-173 | from 127.0.0.1 to itself, ports 256 and 1, they hash different bytes |
| `CommunityId.Fill` | app/src/main/jni/ndpi/lib/ndpi_community_id.c:318-326 | the buffer built in place holds those bytes and fits 40 |

## Left out

- JSON and CSV text of floats, which follows the caller's format string; in TLV floats are their four bytes.
- CSV writers in the class: CSV is modelled on values, as fields whose texts are given and header names; its rooms and `snprintf` cuts are absent.
- `string_raw` and `raw_record`, which paste the caller's text.
- Allocation failure, and buffers of 4 GiB or more, where the 32-bit sizes wrap.
- Bytes past the end of a buffer handed to the reader, which are taken as zero.
- JSON calls that do not fit the buffer: `snprintf` then cuts the text and the closers of `ndpi_serialize_json_post` are written past the array; the model only says which calls these are.
- Digit keys of the `binary_*` writers that are followed by another digit at their length, over which `atoi` reads on, and digit keys of 2^31 or more, which `atoi` does not promise to convert.
- Protocol bitmasks are sets of bits, not arrays of words; function pointers are numbers.
- User-defined protocol ids, whose guesses may lie beyond the callback table.
- The automata, trees, port tables and caches behind a guess: their answers are parameters in `Giveup` and `Dispatch`.
- The individual dissectors: only that they set the stack and exclude, and never readmit.
- The debug and category side effects of registration, dispatch and giveup.
- Connection tracking of UDP, packet counters and time stamps.
- In `Lines`: the count of headers, the HTTP status code, the position of the empty line and the bytes kept after it.
- Entropy, deviation by square root, smoothing, jitter and the other estimators of the statistics file; no rounding is modelled.
- Variance.Analysis.DataVariance: speaks of totals and counts below 2^32 only; beyond them the 32-bit counters have wrapped.
- KMeans.ClusterBins: sums, percentages and squared distances are exact, without the 32-bit wrap of very large bins; centroids without slots for bins that have some, which the source writes out of bounds, are excluded; the random start is a parameter and the optional rebalancing that is compiled out is absent.
- Xgrams.Init: a false result stands for `abort`, and word lengths whose codes need more than 32 bits are excluded.
- Rsi.Tracker.AddValue: a ring of length zero, which divides by zero, is excluded.
- The logistic score over the features, its weights, and the byte-distribution features.
- SHA-1 and Base64 of the community ID.
- The Android application, its Kotlin code and the JNI wrapper.
