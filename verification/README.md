# PicoQuant `.pt2` to `.ptu` conversion, modelled in Dafny

The repository converts legacy PicoHarp `.pt2` files to the tagged `.ptu`
format. Its core is two binary codecs over byte streams:

- the PTU tagged header (`tttr_mode_to_ptu.py`):
  - `write_ptuheader` writes a template of (identifier, index, type, value)
    entries after the "PQTTTR" / "1.0.00" preamble, replacing five Int8
    values and every DateTime value with the caller's overrides;
  - `read_ptuheader` walks the entries back, up to and including
    `Header_End`;
  - `combine_time_tags_header` appends the time-tag data to the header;
- the `.pt2` header walk in `convert_pt2_to_ptu` (`pt2_to_ptu.py`):
  - seven text fields and eighteen `<i` items;
  - the curve and repeat settings and the script name (536 bytes so far);
  - one 156-byte record per board;
  - nine T2 items, then `Imghdrsize` reserved words;
  - the rest is the event payload, which is copied unchanged behind a new PTU
    header whose overrides come from the `.pt2` fields.

Modules, in dependency order:

| file | module | contents |
|---|---|---|
| `bytes.dfy` | `Bytes` | bytes, `<i`/`<q` packing, `<Ns` fixed-width text, Python's short `read(n)` and `strip('\0')` |
| `unpack.dfy` | `Unpack` | `struct.unpack` of `<i`, `<f`, `<L` after a read that may come back short |
| `ptu_tags.dfy` | `PtuTags` | the eleven tag types, their codes, tag values and records, the writer's overrides |
| `ptu_writer.dfy` | `PtuWriter` | the writer: a byte-layout specification and `write_ptuheader`'s output loop proved equal to it |
| `ptu_reader.dfy` | `PtuReader` | the reader: a recursive specification and `read_ptuheader`'s cursor loop proved equal to it |
| `ptu_roundtrip.dfy` | `PtuRoundTrip` | write-then-read: every entry is read back as the writer meant it |
| `pt2_layout.dfy` | `Pt2Layout` | the `.pt2` layout at fixed offsets and the resulting `header_description` dictionary |
| `pt2_reader.dfy` | `Pt2Reader` | the walk as `convert_pt2_to_ptu` does it, read by read, proved to give the layout |
| `pt2_convert.dfy` | `Pt2Convert` | the conversion end to end |

The code works by changing things step by step, so the model does too. Each
loop of the Python scripts (the writer's output loop, the reader's `while True`, the
`.pt2` item, board, T2 and reserved-word loops) is a `method` with loop
invariants. Each method is proved equal to a specification function, and
the properties are proved about those functions as lemmas.

## Model

| member | source | states |
|---|---|---|
| Bytes.DecodeEncodeI32 | tttr_mode_to_ptu.py:177-178 | a `<i` packed value unpacks to itself |
| Bytes.DecodeEncodeI64 | tttr_mode_to_ptu.py:183-186 | a `<q` packed value unpacks to itself |
| Bytes.EncodeI32 | tttr_mode_to_ptu.py:177-178 | `<i` packing gives exactly four bytes |
| Bytes.EncodeDecodeI32 | tttr_mode_to_ptu.py:70-71 | any four bytes are the `<i` packing of the integer `<i` unpacks from them |
| Bytes.EncodeI64 | tttr_mode_to_ptu.py:183-186 | `<q` packing gives exactly eight bytes |
| Bytes.EncodeDecodeI64 | tttr_mode_to_ptu.py:85 | any eight bytes are the `<q` packing of the integer `<q` unpacks from them |
| Bytes.DecodeEncodeUnsigned | tttr_mode_to_ptu.py:177-178 | little-endian packing of an in-range unsigned value is undone by unpacking |
| Bytes.EncodeDecodeUnsigned | tttr_mode_to_ptu.py:70-71 | unpacking then repacking gives back the same bytes |
| Bytes.FixedWidth | tttr_mode_to_ptu.py:176 | `<Ns` packing gives exactly N bytes, whatever the length of the text |
| Bytes.FixedWidthContents | tttr_mode_to_ptu.py:176 | `<Ns` keeps the first N bytes of the text and pads with nuls after it |
| Bytes.ReadUpTo | pt2_to_ptu.py:52-58 | `read(n)` returns the next bytes of the file from the current position: n of them, or all that are left when fewer remain or n is -1; a size below -1 is never passed, since `read` refuses it |
| Bytes.StripNulRemovesEdgeNuls | tttr_mode_to_ptu.py:69 | `strip('\0')` keeps a contiguous run of the input, drops only nuls on both sides, and leaves no nul at either edge |
| Bytes.StripPadded | tttr_mode_to_ptu.py:69 | a text without edge nuls that fits the width survives `<Ns` padding followed by `strip('\0')` |
| Bytes.StripNul | tttr_mode_to_ptu.py:69 | `strip('\0')` never lengthens its input |
| Unpack.ReadInt32 | pt2_to_ptu.py:64 | unpacking `<i` succeeds exactly when four bytes remain |
| Unpack.ReadFloat32 | pt2_to_ptu.py:74-76 | unpacking `<f` succeeds exactly when four bytes remain, and gives those four bytes |
| Unpack.ReadUInt32 | pt2_to_ptu.py:130 | unpacking `<L` succeeds exactly when four bytes remain, and gives a value below 2^32 |
| PtuTags.BigEndianI32 | tttr_mode_to_ptu.py:27-37 | `>i` is the two's-complement value of the four bytes, most significant first |
| PtuTags.CodeFromHex | tttr_mode_to_ptu.py:27-37 | each tag code is its hex pattern read as a big-endian int32 |
| PtuTags.CodesDistinct | tttr_mode_to_ptu.py:27-37 | the eleven codes are pairwise distinct, so dispatch on a code is unambiguous |
| PtuTags.CodeOnWire | tttr_mode_to_ptu.py:178 | a code is written as its hex pattern reversed |
| PtuTags.KindOf | tttr_mode_to_ptu.py:79-145 | dispatch finds the kind whose code was read, and finds none exactly when no kind has that code |
| PtuTags.KindOfCode | tttr_mode_to_ptu.py:79-142 | dispatch on a kind's own code selects that kind |
| PtuTags.OverrideTargetsDistinct | tttr_mode_to_ptu.py:185-206 | the five override identifiers are pairwise distinct |
| PtuWriter.Preamble | tttr_mode_to_ptu.py:173-174 | the preamble is 16 bytes |
| PtuWriter.PreambleBytes | tttr_mode_to_ptu.py:169-174 | the output opens with "PQTTTR" and "1.0.00", each nul-padded to 8 bytes |
| PtuWriter.Int8Written | tttr_mode_to_ptu.py:184-208 | an Int8 entry is written with its template value or with one of the supplied overrides, and always with its template value when its identifier is none of the five override targets |
| PtuWriter.Payload | tttr_mode_to_ptu.py:180-242 | a payload is empty exactly for an unknown type, 8 + length bytes for a string, and 8 bytes for every other type |
| PtuWriter.EncodeRecord | tttr_mode_to_ptu.py:176-242 | an entry is its payload after a 40-byte prefix |
| PtuWriter.EncodeRecords | tttr_mode_to_ptu.py:175-242 | the entries take at least 40 bytes each |
| PtuWriter.EncodeHeader | tttr_mode_to_ptu.py:169-242 | the header takes the 16-byte preamble and at least 40 bytes per entry |
| PtuWriter.WriteHeader | tttr_mode_to_ptu.py:172-242 | the output loop writes exactly the preamble followed by every template entry's encoding, in order |
| PtuWriter.WriteRecord | tttr_mode_to_ptu.py:176-178 | one iteration appends the entry's 40-byte prefix and its payload to the output, leaving what was written before unchanged |
| PtuWriter.WritePayload | tttr_mode_to_ptu.py:180-242 | the type dispatch appends the entry's payload to the output, leaving what was written before unchanged |
| PtuWriter.RecordFraming | tttr_mode_to_ptu.py:176-240 | every entry is the identifier padded or cut to 32 bytes, the `<i` index and the `<i` type code, then 8 payload bytes, or 8 + length for the string types, or none for an unknown type |
| PtuWriter.RecordAt | tttr_mode_to_ptu.py:175-240 | entries follow one another without gaps: each sits at its offset, the next starts where it ends, and the header ends after the last |
| PtuWriter.EncodeRecordsSplit | tttr_mode_to_ptu.py:175 | the encoding of a template is the encoding of any prefix followed by that of the rest |
| PtuWriter.OverridePrecedence | tttr_mode_to_ptu.py:184-208 | an Int8 entry named after an override target gets that override when it is supplied (the acquisition time for two targets), and otherwise keeps the template value |
| PtuWriter.OthersVerbatim | tttr_mode_to_ptu.py:180-240 | overrides and the clock never change an entry's prefix, and never change any entry that is neither Int8 nor DateTime |
| PtuWriter.DateTimeRewritten | tttr_mode_to_ptu.py:217-222 | every DateTime entry gets the supplied timestamp, or the clock when none is supplied, whatever the template holds |
| PtuWriter.ClockUnusedWithTimestamp | tttr_mode_to_ptu.py:217-222 | with a timestamp supplied, the output does not depend on the clock |
| PtuWriter.Combine | tttr_mode_to_ptu.py:257-260 | the combined file is the whole header followed by the whole time-tag data |
| PtuReader.ReadWord | tttr_mode_to_ptu.py:85 | unpacking an 8-byte word succeeds exactly when eight bytes remain, and gives those bytes |
| PtuReader.WordValueKind | tttr_mode_to_ptu.py:84-142 | a one-word value has the kind it was read for |
| PtuReader.TextValue | tttr_mode_to_ptu.py:125-137 | a string whose length is at least -1 keeps that declared length, and its text ends within the data |
| PtuReader.ParseKind | tttr_mode_to_ptu.py:79-142 | a value read successfully ends at or after where it starts, within the data; a failure is either a short read or a string length below -1 |
| PtuReader.ParseKindFacts | tttr_mode_to_ptu.py:79-142 | a value read for a kind has that kind; only a non-Empty8 read can fail: with Truncated exactly when fewer than eight bytes remain, or with BadLength exactly when a string's length is below -1 |
| PtuReader.ParseEmpty | tttr_mode_to_ptu.py:79-81 | Empty8 skips eight bytes |
| PtuReader.ParseWord | tttr_mode_to_ptu.py:84-117 | a one-word kind reads exactly the next eight bytes |
| PtuReader.ParseText | tttr_mode_to_ptu.py:125-137 | a string kind reads its `<q` length; a length below -1 fails with BadLength, any other is followed by its text |
| PtuReader.ParseValue | tttr_mode_to_ptu.py:79-145 | a code of none of the eleven kinds stops the reader with that code |
| PtuReader.ParseValueCode | tttr_mode_to_ptu.py:79-145 | a value read under a code carries that code, and the reader stops with UnknownTagType exactly for unknown codes |
| PtuReader.ParseRecordAt | tttr_mode_to_ptu.py:69-74 | reading an entry consumes at least its 40-byte prefix and stays within the data |
| PtuReader.ParseRecordIdent | tttr_mode_to_ptu.py:69 | an identifier read back is at most 32 bytes with no nul at either edge |
| PtuReader.ParseRecordsFrom | tttr_mode_to_ptu.py:68-147 | the entries read take at least 40 bytes each |
| PtuReader.RecordsEndAtHeaderEnd | tttr_mode_to_ptu.py:146-147 | the entry list holds exactly one Header_End, its last entry |
| PtuReader.ParseHeader | tttr_mode_to_ptu.py:63-147 | a header read successfully takes at least 16 + 40 bytes per entry |
| PtuReader.HeaderEndsAtHeaderEnd | tttr_mode_to_ptu.py:146-147 | a header read successfully ends with its only Header_End entry |
| PtuReader.ReadRecord | tttr_mode_to_ptu.py:69-145 | one loop iteration reads the identifier, index, type code and value as the entry specification says |
| PtuReader.ParseRecordsFromStep | tttr_mode_to_ptu.py:143-147 | a read error ends the walk, Header_End closes it, any other entry is followed by the rest |
| PtuReader.WalkChain | tttr_mode_to_ptu.py:68-147 | over entries none of which is Header_End, the walk returns them followed by whatever comes after |
| PtuReader.WalkToHeaderEnd | tttr_mode_to_ptu.py:146-147 | a chain of entries ending at its first Header_End is exactly what the walk returns |
| PtuReader.WalkToFailure | tttr_mode_to_ptu.py:143-145 | a chain without Header_End followed by an unreadable entry ends with that entry's error |
| PtuReader.ReadRecords | tttr_mode_to_ptu.py:68-147 | the `while True` loop returns exactly the entries of the specification, or its error |
| PtuReader.ReadHeader | tttr_mode_to_ptu.py:63-147 | reading the header gives exactly the specified magic, version and entries, or the error |
| PtuRoundTrip.RereadValue | tttr_mode_to_ptu.py:180-240 | the value the reader should return for a written value of known type; it is never Unknown |
| PtuRoundTrip.RereadKind | tttr_mode_to_ptu.py:178 | a value read back keeps its type code |
| PtuRoundTrip.WordValueOfPayload | tttr_mode_to_ptu.py:182-216 | the 8 bytes written for a one-word value decode to the value the writer meant |
| PtuRoundTrip.TextPayload | tttr_mode_to_ptu.py:223-238 | a string payload is its `<q` length followed by its fixed-width text |
| PtuRoundTrip.TextRoundTrip | tttr_mode_to_ptu.py:125-137 | a length followed by that many text bytes is read back as both |
| PtuRoundTrip.StringBytesRoundTrip | tttr_mode_to_ptu.py:125-137 | a `<q` length and that many text bytes, found together, are read back as both, ending right after the text |
| PtuRoundTrip.RereadString | tttr_mode_to_ptu.py:223-238 | a string is read back with its declared length and its fixed-width text |
| PtuRoundTrip.PayloadRoundTrip | tttr_mode_to_ptu.py:180-240 | every written payload is read back as the value the writer meant, ending where the written bytes end |
| PtuRoundTrip.ParseValueOfKind | tttr_mode_to_ptu.py:79-142 | the dispatch on the code of a known type reads a value of that type |
| PtuRoundTrip.PrefixRoundTrip | tttr_mode_to_ptu.py:69-71 | a written identifier, index and type code are read back as such |
| PtuRoundTrip.EntryBytesRoundTrip | tttr_mode_to_ptu.py:69-142 | a prefix for a type followed by bytes that type reads back as a value is read back as one entry with that identifier, index and value |
| PtuRoundTrip.RecordParts | tttr_mode_to_ptu.py:176-178 | the prefix fields and the payload of an encoded entry sit at their offsets |
| PtuRoundTrip.RecordRoundTrip | tttr_mode_to_ptu.py:176-240 | an entry of known type is read back as the writer meant it, ending where its bytes end |
| PtuRoundTrip.UnknownRecordAborts | tttr_mode_to_ptu.py:241-242 | an entry of unknown type, written without payload, stops the reader with its code |
| PtuRoundTrip.EntryReadBack | tttr_mode_to_ptu.py:175-240 | entry i of the written header is read back at its offset |
| PtuRoundTrip.WrittenChain | tttr_mode_to_ptu.py:175-240 | the first n written entries of known type form a chain of entries read back at their offsets |
| PtuRoundTrip.PreambleRead | tttr_mode_to_ptu.py:64-65 | the written preamble is read back as the padded magic and version |
| PtuRoundTrip.HeaderRoundTrip | tttr_mode_to_ptu.py:146-147 | the written header is read back as "PQTTTR", "1.0.00" and the entries up to and including the first Header_End, whatever follows the header |
| PtuRoundTrip.UnknownAborts | tttr_mode_to_ptu.py:143-145 | the first unknown-type entry the reader reaches stops it with that entry's code |
| PtuRoundTrip.RereadCanonical | tttr_mode_to_ptu.py:223-230 | without overrides, an entry with a short ASCII identifier, of a type other than DateTime and WideString, is read back as itself |
| PtuRoundTrip.ExactRoundTrip | tttr_mode_to_ptu.py:264-268 | without overrides, such a template ending at its only Header_End is read back exactly |
| Pt2Layout.TextRegion | pt2_to_ptu.py:52-58 | the seven text fields start at 0, 16, 22, 40, 52, 70 and 72, and end at 328 |
| Pt2Layout.TextsAt | pt2_to_ptu.py:52-58 | the seven texts are those byte ranges, each stripped of nuls |
| Pt2Layout.Complete | pt2_to_ptu.py:51-130 | a file the walk can finish has at least 572 bytes; once it holds the T2 items, it is complete exactly when it also holds the reserved words |
| Pt2Layout.PayloadStart | pt2_to_ptu.py:124-131 | the payload starts after the nine T2 items, and right after them when `Imghdrsize` is zero or less |
| Pt2Layout.BoardAtValues | pt2_to_ptu.py:83-93 | a board record holds two texts of 16 and 8 bytes, six `<i`, one `<f` and two `<i`, at their offsets |
| Pt2Layout.TagIdx | pt2_to_ptu.py:63-128 | `tagIdx` holds 18 + 11 per board + 9 values |
| Pt2Layout.AssignUntouched | pt2_to_ptu.py:65 | assigning keys other than k leaves k as it was |
| Pt2Layout.AssignLast | pt2_to_ptu.py:65 | a key holds the value of its last assignment |
| Pt2Layout.AssignAppend | pt2_to_ptu.py:94-104 | assigning two runs in turn is assigning the joined run |
| Pt2Layout.AssignKeys | pt2_to_ptu.py:65 | assigning a run of keys adds exactly those keys to the dictionary |
| Pt2Layout.DescriptionKeys | pt2_to_ptu.py:56-126 | the dictionary holds File_CreatingTime and every name the walk records, and no other key |
| Pt2Layout.ItemPositions | pt2_to_ptu.py:34-37 | the leading item names are distinct and appear in no other list |
| Pt2Layout.BoardPositions | pt2_to_ptu.py:41-44 | the board names are distinct and appear in no other list |
| Pt2Layout.T2Positions | pt2_to_ptu.py:38-40 | apart from the two Reserved entries, the T2 names are distinct and appear in no other list |
| Pt2Layout.KeysAt | pt2_to_ptu.py:63-126 | which name each `tagIdx` value is recorded under: the leading items, then the board names per board, then the T2 names |
| Pt2Layout.DescriptionInRuns | pt2_to_ptu.py:59-126 | the dictionary is the file time, then the leading items, then the boards, then the T2 items, assigned in that order |
| Pt2Layout.LastBoardAssigned | pt2_to_ptu.py:94-104 | with boards present, each board name holds the value assigned with the last board |
| Pt2Layout.T2Assigned | pt2_to_ptu.py:124-126 | every T2 name except the first Reserved holds its own value |
| Pt2Layout.ItemAssigned | pt2_to_ptu.py:63-65 | every leading item name holds its own value |
| Pt2Layout.TagIdxItems | pt2_to_ptu.py:63-64 | leading item j is the `<i` at 328 + 4j |
| Pt2Layout.TagIdxT2 | pt2_to_ptu.py:124-125 | T2 item k is the `<i` at the T2 start + 4k |
| Pt2Layout.TagIdxBoard | pt2_to_ptu.py:82-93 | the board values in `tagIdx` are the board records in file order |
| Pt2Layout.LastBoardWins | pt2_to_ptu.py:94-104 | with one or more boards, each board name holds the value from the last board record |
| Pt2Layout.ReservedKeepsLater | pt2_to_ptu.py:124-126 | of the two T2 items named Reserved, the dictionary keeps the later |
| Pt2Layout.FileTimeRecorded | pt2_to_ptu.py:56-59 | File_CreatingTime holds the stripped file-time text and is never reassigned |
| Pt2Layout.AcquisitionTimeSource | pt2_to_ptu.py:136 | Acquisitiontime_ms holds leading item 9, the `<i` at 364 |
| Pt2Layout.T2Source | pt2_to_ptu.py:139-140 | Inprate0, Inprate1 and Numrecords hold T2 items 3, 4 and 7 |
| Pt2Layout.OverrideSources | pt2_to_ptu.py:136-140 | the four values handed to the writer are present and come from those offsets |
| Pt2Layout.Layout | pt2_to_ptu.py:51-132 | a complete file gives seven texts, 18 + 11 per board + 9 `tagIdx` values, and a payload of every byte after the reserved words |
| Pt2Reader.ReadText | pt2_to_ptu.py:52-58 | a text read takes up to n bytes, fewer at end of file, and strips nuls |
| Pt2Reader.ReadTexts | pt2_to_ptu.py:52-59 | the seven texts never fail; on a file of 328 bytes or more they are the texts at their offsets, and the file time is recorded |
| Pt2Reader.ReadItem | pt2_to_ptu.py:64-65 | one item read appends the `<i` to `tagIdx` and records it under its name, failing exactly when four bytes are not there |
| Pt2Reader.ReadItems | pt2_to_ptu.py:63-67 | the eighteen items succeed exactly when 72 bytes remain; they extend `tagIdx` and the dictionary, and the board count is the fourth item |
| Pt2Reader.ReadT2 | pt2_to_ptu.py:124-126 | the nine T2 items succeed exactly when 36 bytes remain, and extend `tagIdx` and the dictionary |
| Pt2Reader.SkipSettings | pt2_to_ptu.py:70-81 | the settings need 116 bytes; the script name after them is a 20-byte text read that may come back short |
| Pt2Reader.ReadBoardValues | pt2_to_ptu.py:83-93 | a board record succeeds exactly when 60 bytes remain, and gives its eleven values |
| Pt2Reader.SkipChannels | pt2_to_ptu.py:117-123 | the four channel records succeed exactly when 96 bytes remain, and take exactly those |
| Pt2Reader.ReadBoard | pt2_to_ptu.py:82-123 | a board succeeds exactly when 156 bytes remain, and gives its record's values |
| Pt2Reader.ReadBoards | pt2_to_ptu.py:82-104 | the boards succeed exactly when 156 bytes per board remain (none for a count of zero or less), extend `tagIdx` board by board, and assign the board names once per board |
| Pt2Reader.SkipReserved | pt2_to_ptu.py:129-130 | the reserved words succeed exactly when 4 bytes per word remain (none for a count of zero or less), and take exactly those |
| Pt2Reader.WalkLayout | pt2_to_ptu.py:51-132 | what the stages have built on a complete file is the layout of that file |
| Pt2Reader.ReadFront | pt2_to_ptu.py:51-81 | the fixed front succeeds exactly when the file reaches the script name, and gives the texts, the script name, the leading items and the board count |
| Pt2Reader.ReadTrailer | pt2_to_ptu.py:124-130 | the T2 items and the `Imghdrsize` reserved words succeed exactly when the file holds them, and end after them |
| Pt2Reader.ReadRest | pt2_to_ptu.py:82-130 | after the front, the rest of the header succeeds exactly on a complete file and ends where the payload starts |
| Pt2Reader.ReadPt2 | pt2_to_ptu.py:51-132 | the walk succeeds exactly on a complete file, fails with a truncation otherwise, and gives the layout: texts, script name, `tagIdx`, dictionary and the payload as the rest of the file |
| Pt2Convert.Pt2Overrides | pt2_to_ptu.py:136-140 | all four overrides and the timestamp are supplied |
| Pt2Convert.Converted | pt2_to_ptu.py:131-144 | the converted file is at least as long as the preamble, 40 bytes per template entry and the `.pt2` payload together |
| Pt2Convert.ConvertPt2 | pt2_to_ptu.py:136-144 | a truncated file fails, an unparsable file time fails, and otherwise the output is the header written with the `.pt2` overrides followed by the payload |
| Pt2Convert.PayloadPreserved | pt2_to_ptu.py:131-134 | the converted file ends with the `.pt2` payload, byte for byte |
| Pt2Convert.ConvertedReadsBack | pt2_to_ptu.py:136-144 | the converted file is read back as a PTU header holding the template entries as rewritten with the `.pt2` overrides |
| Pt2Convert.Pt2ValuesWritten | pt2_to_ptu.py:136-140 | each override target is read back with its `.pt2` source value, any other Int8 keeps its template value, and DateTime holds the file time |

## Left out

- File handling: opening, reading and writing files, the temporary header and time-tag files, and `os.remove`. The codecs work on in-memory byte sequences; the time-tag file round trip is the identity.
- Loading and saving the template with numpy (`np.load`, `np.savez`). The template is an input sequence of entries, and the reader returns its entries rather than saving them.
- The reader's four parallel lists. They are one sequence of entries, so their equal length holds by construction.
- All `print` output and the `isprint` branches.
- The numeric meaning of floats. Float8, DateTime and the `<f` fields are opaque byte patterns, so `t / 86400 + 25569`, `(t - 25569) * 86400` and `time.gmtime` are not modelled.
- PtuReader.ParseKindFacts: a DateTime entry is read as any eight bytes. `read_ptuheader` converts each one with `int((t - 25569) * 86400)` and `time.gmtime`, which raise for NaN, an infinity or a date out of range; the model does not fail there.
- The wall clock. `time.time()` becomes the `clock` parameter, already converted to an OLE date.
- PtuWriter.WriteHeader: one `clock` reading stands for every DateTime entry without a timestamp. `write_ptuheader` calls `time.time()` once per such entry, so two DateTime entries can get slightly different dates.
- PtuWriter.DateTimeRewritten: states that every DateTime entry gets the same clock reading, where `write_ptuheader` reads the clock again for each entry.
- `strptime` and `timestamp()`, which depend on the local time zone. They become the `oleDateOf` parameter of `Pt2Convert.ConvertPt2`; None stands for a time that does not parse.
- Text decoding. UTF-8 and UTF-16LE decoding are not modelled: text is bytes, and a WideString value is read back as its raw bytes. A decoding error is therefore not a failure in the model.
- The writer's encoding errors. Identifiers and strings that are not ASCII, and negative string lengths, make `write_ptuheader` raise. The writer requires that they do not occur (`PtuWriter.Writable`).
- `sys.exit(0)` on an unknown type code. The reader returns `Failure(UnknownTagType(code))` instead; nothing after it is decoded in either case.
- Python's exceptions for a short `struct.unpack`. They become `Failure(Truncated)` in both readers; the conversion reports them as `ShortFile`. The `ValueError` that `f.read` raises for a string length below -1 becomes `Failure(BadLength(length))` in the PTU reader.
- Integers wider than 64 bits. Template values are `Int64`, because `<q` packing raises for anything else.
- The `__main__` demonstration blocks and their hard-coded paths.
- Pt2Reader.ReadTexts: on a file shorter than 328 bytes it states the length of the walk and the recorded file time, not the contents of the short texts.
