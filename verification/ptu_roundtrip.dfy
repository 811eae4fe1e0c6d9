/**
 * Reading back what the writer wrote (tttr_mode_to_ptu.py, `write_ptuheader`
 * then `read_ptuheader`): every entry comes back with its identifier and
 * strings as they survive fixed-width packing and nul stripping, its index,
 * and the value the writer substituted; an entry of unknown type stops the
 * reader.
 */
module PtuRoundTrip {
  import opened Bytes
  import opened PtuTags
  import opened PtuWriter
  import opened PtuReader
  import opened Unpack

  /** No entry is of an unknown type. */
  predicate Known(t: seq<TagRecord>) {
    forall k :: 0 <= k < |t| ==> !t[k].value.Unknown?
  }

  /** The value the reader returns for a value the writer wrote; its type is always known. */
  function RereadValue(r: TagRecord, ov: Overrides, clock: Bits64): (v: TagValue)
    requires Writable(r) && !r.value.Unknown?
    ensures !v.Unknown?
  {
    match r.value
    case Int8(n) => Int8(Int8Written(r.ident, n, ov))
    case TDateTime(_) => TDateTime(DateTimeWritten(ov, clock))
    case AnsiString(len, text) => AnsiString(len, StripNul(FixedWidth(text, len)))
    case WideString(len, text) => WideString(len, FixedWidth(text, len))
    case _ => r.value
  }

  /** The entry the reader returns for an entry the writer wrote. */
  function Reread(r: TagRecord, ov: Overrides, clock: Bits64): TagRecord
    requires Writable(r) && !r.value.Unknown?
  {
    TagRecord(StripNul(FixedWidth(r.ident, 32)), r.index, RereadValue(r, ov, clock))
  }

  function RereadAll(t: seq<TagRecord>, ov: Overrides, clock: Bits64): (q: seq<TagRecord>)
    requires WritableAll(t) && Known(t)
    ensures |q| == |t|
  {
    seq(|t|, k requires 0 <= k < |t| => Reread(t[k], ov, clock))
  }

  /** Re-reading keeps the type of every value. */
  lemma RereadKind(r: TagRecord, ov: Overrides, clock: Bits64)
    requires Writable(r) && !r.value.Unknown?
    ensures TypeCode(RereadValue(r, ov, clock)) == TypeCode(r.value)
  {
  }

  /** Slicing a slice. */
  lemma SliceOfSlice(data: seq<Byte>, pos: nat, e: seq<Byte>, i: nat, j: nat)
    requires pos + |e| <= |data| && data[pos..pos + |e|] == e && i <= j <= |e|
    ensures data[pos + i..pos + j] == e[i..j]
  {
    forall m | 0 <= m < j - i
      ensures data[pos + i..pos + j][m] == e[i..j][m]
    {
      assert data[pos..pos + |e|][i + m] == e[i + m];
    }
  }

  /** The integer the writer packs with `<q` for an entry of one of the six integer types; 0 for the others. */
  function IntegerWritten(r: TagRecord, ov: Overrides): Int64 {
    match r.value
    case Bool8(n) => n
    case Int8(n) => Int8Written(r.ident, n, ov)
    case BitSet64(n) => n
    case Color8(n) => n
    case Float8Array(n) => n
    case BinaryBlob(n) => n
    case _ => 0
  }

  /** The eight bytes the writer emits for a one-word value decode to the value it meant. */
  lemma WordValueOfPayload(r: TagRecord, ov: Overrides, clock: Bits64)
    requires Writable(r) && !r.value.Unknown? && IsWordKind(Kind(r.value))
    ensures |Payload(r, ov, clock)| == 8
    ensures WordValue(Kind(r.value), Payload(r, ov, clock)) == RereadValue(r, ov, clock)
  {
    DecodeEncodeI64(IntegerWritten(r, ov));
  }

  /** A string payload is its `<q` length followed by its fixed-width text. */
  lemma TextPayload(r: TagRecord, ov: Overrides, clock: Bits64)
    requires Writable(r) && (r.value.AnsiString? || r.value.WideString?)
    ensures r.value.length >= 0
    ensures Payload(r, ov, clock) == EncodeI64(r.value.length) + FixedWidth(r.value.text, r.value.length)
  {
  }

  /** A length followed by that many bytes of text is read back as both. */
  lemma TextRoundTrip(data: seq<Byte>, pos: nat, len: Int64, text: seq<Byte>, k: TagKind)
    requires k == TyAnsiString || k == TyWideString
    requires len >= 0 && |text| == len && pos + 8 + len <= |data|
    requires data[pos..pos + 8] == EncodeI64(len) && data[pos + 8..pos + 8 + len] == text
    ensures ParseKind(data, pos, k)
         == Success((if k == TyAnsiString then AnsiString(len, StripNul(text)) else WideString(len, text), pos + 8 + len))
  {
    DecodeEncodeI64(len);
    ParseText(data, pos, k);
    assert ReadUpTo(data, pos + 8, len) == text;
  }

  /** The value re-read for a string is its declared length and its fixed-width text. */
  lemma RereadString(r: TagRecord, ov: Overrides, clock: Bits64)
    requires Writable(r) && (r.value.AnsiString? || r.value.WideString?)
    ensures var text := FixedWidth(r.value.text, r.value.length);
      RereadValue(r, ov, clock)
      == if r.value.AnsiString? then AnsiString(r.value.length, StripNul(text)) else WideString(r.value.length, text)
  {
  }

  /** The two parts of a concatenation found in `data` at `pos` sit at their offsets. */
  lemma SplitTwo(data: seq<Byte>, pos: nat, a: seq<Byte>, b: seq<Byte>)
    requires pos + |a + b| <= |data| && data[pos..pos + |a + b|] == a + b
    ensures data[pos..pos + |a|] == a
    ensures data[pos + |a|..pos + |a| + |b|] == b
  {
    var all := a + b;
    var n := |all|;
    var m := |a|;
    SliceOfSlice(data, pos, all, 0, m);
    SliceOfSlice(data, pos, all, m, n);
    assert all[..m] == a;
    assert all[m..n] == b;
  }

  /** A length word followed by its text, found together at `pos`, is read back as both. */
  lemma StringBytesRoundTrip(data: seq<Byte>, pos: nat, len: Int64, text: seq<Byte>, k: TagKind)
    requires k == TyAnsiString || k == TyWideString
    requires len >= 0 && |text| == len && pos + 8 + len <= |data|
    requires data[pos..pos + 8 + len] == EncodeI64(len) + text
    ensures ParseKind(data, pos, k)
         == Success((if k == TyAnsiString then AnsiString(len, StripNul(text)) else WideString(len, text), pos + 8 + len))
  {
    SplitTwo(data, pos, EncodeI64(len), text);
    TextRoundTrip(data, pos, len, text, k);
  }

  lemma StringPayloadRoundTrip(data: seq<Byte>, pos: nat, r: TagRecord, ov: Overrides, clock: Bits64)
    requires Writable(r) && (r.value.AnsiString? || r.value.WideString?)
    requires pos + |Payload(r, ov, clock)| <= |data|
    requires data[pos..pos + |Payload(r, ov, clock)|] == Payload(r, ov, clock)
    ensures !r.value.Unknown?
    ensures ParseKind(data, pos, Kind(r.value)) == Success((RereadValue(r, ov, clock), pos + |Payload(r, ov, clock)|))
  {
    var p := Payload(r, ov, clock);
    var k := Kind(r.value);
    StringKind(r.value);
    TextPayload(r, ov, clock);
    RereadString(r, ov, clock);
    var len: Int64 := r.value.length;
    var text := FixedWidth(r.value.text, len);
    assert p == EncodeI64(len) + text;
    StringBytesRoundTrip(data, pos, len, text, k);
    var v := if k == TyAnsiString then AnsiString(len, StripNul(text)) else WideString(len, text);
    assert RereadValue(r, ov, clock) == v;
    assert |p| == 8 + len;
  }

  lemma EmptyPayloadRoundTrip(data: seq<Byte>, pos: nat, r: TagRecord, ov: Overrides, clock: Bits64)
    requires Writable(r) && r.value.Empty8?
    requires pos + |Payload(r, ov, clock)| <= |data|
    ensures !r.value.Unknown?
    ensures ParseKind(data, pos, Kind(r.value)) == Success((RereadValue(r, ov, clock), pos + |Payload(r, ov, clock)|))
  {
    assert |Payload(r, ov, clock)| == 8;
    ParseEmpty(data, pos);
  }

  lemma WordPayloadRoundTrip(data: seq<Byte>, pos: nat, r: TagRecord, ov: Overrides, clock: Bits64)
    requires Writable(r) && !r.value.Unknown? && IsWordKind(Kind(r.value))
    requires pos + |Payload(r, ov, clock)| <= |data|
    requires data[pos..pos + |Payload(r, ov, clock)|] == Payload(r, ov, clock)
    ensures ParseKind(data, pos, Kind(r.value)) == Success((RereadValue(r, ov, clock), pos + |Payload(r, ov, clock)|))
  {
    WordValueOfPayload(r, ov, clock);
    ParseWord(data, pos, Kind(r.value));
  }

  /** A payload is read back as the value the writer meant, ending where the writer's bytes end. */
  lemma PayloadRoundTrip(data: seq<Byte>, pos: nat, r: TagRecord, ov: Overrides, clock: Bits64)
    requires Writable(r) && !r.value.Unknown?
    requires pos + |Payload(r, ov, clock)| <= |data|
    requires data[pos..pos + |Payload(r, ov, clock)|] == Payload(r, ov, clock)
    ensures ParseKind(data, pos, Kind(r.value)) == Success((RereadValue(r, ov, clock), pos + |Payload(r, ov, clock)|))
  {
    if r.value.AnsiString? || r.value.WideString? {
      StringPayloadRoundTrip(data, pos, r, ov, clock);
    } else if r.value.Empty8? {
      EmptyPayloadRoundTrip(data, pos, r, ov, clock);
    } else {
      WordPayloadRoundTrip(data, pos, r, ov, clock);
    }
  }

  /** The dispatch on a known type's code reads that type. */
  lemma ParseValueOfKind(data: seq<Byte>, pos: nat, k: TagKind)
    requires pos <= |data|
    ensures ParseValue(data, pos, Code(k)) == ParseKind(data, pos, k)
  {
    KindOfCode(k);
  }

  /**
   * An identifier field, an index and a type code at `pos` are read back as
   * such, followed by whatever the value dispatch on that code gives.
   */
  lemma PrefixRoundTrip(data: seq<Byte>, pos: nat, identField: seq<Byte>, index: Int32, code: Int32)
    requires |identField| == 32 && pos + 40 <= |data|
    requires data[pos..pos + 32] == identField
    requires data[pos + 32..pos + 36] == EncodeI32(index)
    requires data[pos + 36..pos + 40] == EncodeI32(code)
    ensures var pv := ParseValue(data, pos + 40, code);
      && (pv.Failure? ==> ParseRecordAt(data, pos) == Failure(pv.error))
      && (pv.Success? ==> ParseRecordAt(data, pos)
                          == Success((TagRecord(StripNul(identField), index, pv.value.0), pv.value.1)))
  {
    DecodeEncodeI32(index);
    DecodeEncodeI32(code);
    assert ReadUpTo(data, pos, 32) == identField;
    assert ReadInt32(data, pos + 32) == Success(index);
    assert ReadInt32(data, pos + 36) == Success(code);
  }

  /** A prefix for kind `k` followed by a value that kind reads back is read back as one entry. */
  lemma EntryBytesRoundTrip(data: seq<Byte>, pos: nat, identField: seq<Byte>, index: Int32, k: TagKind, v: TagValue, end: nat)
    requires |identField| == 32 && pos + 40 <= |data|
    requires data[pos..pos + 32] == identField
    requires data[pos + 32..pos + 36] == EncodeI32(index)
    requires data[pos + 36..pos + 40] == EncodeI32(Code(k))
    requires ParseKind(data, pos + 40, k) == Success((v, end))
    ensures ParseRecordAt(data, pos) == Success((TagRecord(StripNul(identField), index, v), end))
  {
    ParseValueOfKind(data, pos + 40, k);
    PrefixRoundTrip(data, pos, identField, index, Code(k));
  }

  /** The prefix and payload of an encoded record sit at their offsets in `data`. */
  lemma RecordParts(data: seq<Byte>, pos: nat, r: TagRecord, ov: Overrides, clock: Bits64)
    requires Writable(r)
    requires pos + |EncodeRecord(r, ov, clock)| <= |data|
    requires data[pos..pos + |EncodeRecord(r, ov, clock)|] == EncodeRecord(r, ov, clock)
    ensures |EncodeRecord(r, ov, clock)| == 40 + |Payload(r, ov, clock)|
    ensures data[pos..pos + 32] == FixedWidth(r.ident, 32)
    ensures data[pos + 32..pos + 36] == EncodeI32(r.index)
    ensures data[pos + 36..pos + 40] == EncodeI32(TypeCode(r.value))
    ensures data[pos + 40..pos + 40 + |Payload(r, ov, clock)|] == Payload(r, ov, clock)
  {
    var e := EncodeRecord(r, ov, clock);
    RecordFraming(r, ov, clock);
    SliceOfSlice(data, pos, e, 0, 32);
    SliceOfSlice(data, pos, e, 32, 36);
    SliceOfSlice(data, pos, e, 36, 40);
    SliceOfSlice(data, pos, e, 40, |e|);
  }

  /** A written entry of a known type at `pos` is read back as `Reread`, ending where the writer's bytes end. */
  lemma RecordRoundTrip(data: seq<Byte>, pos: nat, r: TagRecord, ov: Overrides, clock: Bits64)
    requires Writable(r) && !r.value.Unknown?
    requires pos + |EncodeRecord(r, ov, clock)| <= |data|
    requires data[pos..pos + |EncodeRecord(r, ov, clock)|] == EncodeRecord(r, ov, clock)
    ensures ParseRecordAt(data, pos) == Success((Reread(r, ov, clock), pos + |EncodeRecord(r, ov, clock)|))
  {
    var k := Kind(r.value);
    var q := pos + 40;
    var p := Payload(r, ov, clock);
    var v := RereadValue(r, ov, clock);
    var end: nat := q + |p|;
    RecordParts(data, pos, r, ov, clock);
    assert TypeCode(r.value) == Code(k);
    PayloadRoundTrip(data, q, r, ov, clock);
    EntryBytesRoundTrip(data, pos, FixedWidth(r.ident, 32), r.index, k, v, end);
    assert Reread(r, ov, clock) == TagRecord(StripNul(FixedWidth(r.ident, 32)), r.index, v);
    assert end == pos + |EncodeRecord(r, ov, clock)|;
  }

  /** A written entry of unknown type stops the reader with the code it carries. */
  lemma UnknownRecordAborts(data: seq<Byte>, pos: nat, r: TagRecord, ov: Overrides, clock: Bits64)
    requires Writable(r) && r.value.Unknown?
    requires pos + |EncodeRecord(r, ov, clock)| <= |data|
    requires data[pos..pos + |EncodeRecord(r, ov, clock)|] == EncodeRecord(r, ov, clock)
    ensures ParseRecordAt(data, pos) == Failure(UnknownTagType(r.value.code))
  {
    RecordParts(data, pos, r, ov, clock);
    PrefixRoundTrip(data, pos, FixedWidth(r.ident, 32), r.index, r.value.code);
  }

  /** The offsets at which the writer places the entries of `t`, and the end of the last. */
  function Offsets(t: seq<TagRecord>, ov: Overrides, clock: Bits64): (at: seq<nat>)
    requires WritableAll(t)
    ensures |at| == |t| + 1
  {
    seq(|t| + 1, k requires 0 <= k <= |t| => RecordOffset(t, k, ov, clock))
  }

  /** Entry `i` of the written header, of a known type, is read back at its offset as `Reread`. */
  lemma EntryReadBack(t: seq<TagRecord>, i: nat, ov: Overrides, clock: Bits64, tags: seq<Byte>)
    requires WritableAll(t) && i < |t| && !t[i].value.Unknown?
    ensures RecordOffset(t, i, ov, clock) + 40 <= RecordOffset(t, i + 1, ov, clock) <= |EncodeHeader(t, ov, clock)|
    ensures ParseRecordAt(Combine(EncodeHeader(t, ov, clock), tags), RecordOffset(t, i, ov, clock))
         == Success((Reread(t[i], ov, clock), RecordOffset(t, i + 1, ov, clock)))
  {
    var data := Combine(EncodeHeader(t, ov, clock), tags);
    var off := RecordOffset(t, i, ov, clock);
    var next := RecordOffset(t, i + 1, ov, clock);
    EntryInData(t, i, ov, clock, tags);
    assert off + |EncodeRecord(t[i], ov, clock)| == next;
    RecordRoundTrip(data, off, t[i], ov, clock);
  }

  /** The bytes of entry `i` sit at its offset in the header followed by the time tags. */
  lemma EntryInData(t: seq<TagRecord>, i: nat, ov: Overrides, clock: Bits64, tags: seq<Byte>)
    requires WritableAll(t) && i < |t|
    ensures var data := Combine(EncodeHeader(t, ov, clock), tags);
      var off := RecordOffset(t, i, ov, clock);
      var e := EncodeRecord(t[i], ov, clock);
      && off + |e| == RecordOffset(t, i + 1, ov, clock) <= |EncodeHeader(t, ov, clock)| <= |data|
      && data[off..off + |e|] == e
  {
    var h := EncodeHeader(t, ov, clock);
    var data := Combine(h, tags);
    var off := RecordOffset(t, i, ov, clock);
    var e := EncodeRecord(t[i], ov, clock);
    RecordAt(t, i, ov, clock);
    assert data[..|h|][off..off + |e|] == data[off..off + |e|];
  }

  /** The first `n` written entries, all of known types, form a chain of re-read entries at their offsets. */
  lemma WrittenChain(t: seq<TagRecord>, n: nat, ov: Overrides, clock: Bits64, tags: seq<Byte>)
    requires WritableAll(t) && n <= |t| && Known(t[..n])
    ensures Chained(Combine(EncodeHeader(t, ov, clock), tags), RereadAll(t[..n], ov, clock), Offsets(t, ov, clock)[..n + 1])
  {
    var h := EncodeHeader(t, ov, clock);
    var data := Combine(h, tags);
    var q := RereadAll(t[..n], ov, clock);
    var at := Offsets(t, ov, clock)[..n + 1];
    forall k | 0 <= k < n + 1
      ensures at[k] <= |data|
    {
      assert at[k] == RecordOffset(t, k, ov, clock);
      if k == 0 {
        assert t[..0] == [];
        PreambleBytes(t, ov, clock);
      } else {
        EntryInData(t, k - 1, ov, clock, tags);
      }
    }
    forall i | 0 <= i < n
      ensures ParseRecordAt(data, at[i]) == Success((q[i], at[i + 1]))
    {
      assert t[..n][i] == t[i];
      assert q[i] == Reread(t[i], ov, clock);
      assert at[i] == RecordOffset(t, i, ov, clock) && at[i + 1] == RecordOffset(t, i + 1, ov, clock);
      EntryReadBack(t, i, ov, clock, tags);
    }
  }

  /** The written preamble reads back as the padded magic and version. */
  lemma PreambleRead(t: seq<TagRecord>, ov: Overrides, clock: Bits64, tags: seq<Byte>)
    requires WritableAll(t)
    ensures var data := Combine(EncodeHeader(t, ov, clock), tags);
      && |data| >= 16
      && ReadUpTo(data, 0, 8) == FixedWidth(Magic, 8)
      && ReadUpTo(data, 8, 8) == FixedWidth(Version, 8)
  {
    var h := EncodeHeader(t, ov, clock);
    var data := Combine(h, tags);
    assert h[..16] == Preamble();
    assert data[..16] == Preamble() by {
      assert data[..|h|][..16] == data[..16];
    }
    assert data[0..8] == data[..16][0..8];
    assert data[8..16] == data[..16][8..16];
  }

  /**
   * The header the writer produces is read back as the magic "PQTTTR", the
   * version "1.0.00" and the re-read entries up to and including the first
   * one named Header_End; later template entries and the time-tag data
   * that follows are not read.
   */
  lemma HeaderRoundTrip(t: seq<TagRecord>, n: nat, ov: Overrides, clock: Bits64, tags: seq<Byte>)
    requires WritableAll(t) && n <= |t| && Known(t[..n])
    requires EndsAtHeaderEnd(RereadAll(t[..n], ov, clock))
    ensures ParseHeader(Combine(EncodeHeader(t, ov, clock), tags))
         == Success(PtuHeader(Magic, Version, RereadAll(t[..n], ov, clock)))
  {
    var data := Combine(EncodeHeader(t, ov, clock), tags);
    var at := Offsets(t, ov, clock)[..n + 1];
    WrittenChain(t, n, ov, clock, tags);
    WalkToHeaderEnd(data, RereadAll(t[..n], ov, clock), at);
    assert at[0] == 16 by { assert t[..0] == []; }
    PreambleRead(t, ov, clock, tags);
    StripPadded(Magic, 8);
    StripPadded(Version, 8);
  }

  /**
   * An entry of unknown type that the reader reaches (every earlier entry is
   * of a known type and none is named Header_End) stops it with that
   * entry's type code.
   */
  lemma UnknownAborts(t: seq<TagRecord>, k: nat, ov: Overrides, clock: Bits64, tags: seq<Byte>)
    requires WritableAll(t) && k < |t| && t[k].value.Unknown? && Known(t[..k])
    requires NoHeaderEnd(RereadAll(t[..k], ov, clock))
    ensures ParseHeader(Combine(EncodeHeader(t, ov, clock), tags)) == Failure(UnknownTagType(t[k].value.code))
  {
    var data := Combine(EncodeHeader(t, ov, clock), tags);
    var at := Offsets(t, ov, clock)[..k + 1];
    var off := RecordOffset(t, k, ov, clock);
    WrittenChain(t, k, ov, clock, tags);
    EntryInData(t, k, ov, clock, tags);
    UnknownRecordAborts(data, off, t[k], ov, clock);
    assert at[k] == off;
    WalkToFailure(data, RereadAll(t[..k], ov, clock), at);
    assert at[0] == 16 by { assert t[..0] == []; }
    PreambleRead(t, ov, clock, tags);
  }

  /**
   * An entry that survives writing and reading unchanged: an identifier of
   * at most 32 ASCII bytes without edge nuls, a known type other than
   * DateTime (always rewritten) and WideString (read back as UTF-16), and
   * for AnsiString a text without edge nuls that fits its declared length.
   */
  predicate Canonical(r: TagRecord) {
    && Writable(r) && |r.ident| <= 32 && NoEdgeNul(r.ident)
    && !r.value.Unknown? && !r.value.TDateTime? && !r.value.WideString?
    && (r.value.AnsiString? ==> NoEdgeNul(r.value.text) && |r.value.text| <= r.value.length)
  }

  /** Without overrides a canonical entry is re-read as itself. */
  lemma RereadCanonical(r: TagRecord, clock: Bits64)
    requires Canonical(r)
    ensures Reread(r, NoOverrides, clock) == r
  {
    StripPadded(r.ident, 32);
    if r.value.AnsiString? {
      StripPadded(r.value.text, r.value.length);
    }
  }

  /**
   * Write-then-read: without overrides, a template of canonical entries
   * whose only Header_End is its last entry is read back exactly, whatever
   * time-tag data follows the header.
   */
  lemma ExactRoundTrip(t: seq<TagRecord>, clock: Bits64, tags: seq<Byte>)
    requires forall i :: 0 <= i < |t| ==> Canonical(t[i])
    requires EndsAtHeaderEnd(t)
    ensures WritableAll(t)
    ensures ParseHeader(Combine(EncodeHeader(t, NoOverrides, clock), tags)) == Success(PtuHeader(Magic, Version, t))
  {
    assert t[..|t|] == t;
    var q := RereadAll(t, NoOverrides, clock);
    forall i | 0 <= i < |t|
      ensures q[i] == t[i]
    {
      RereadCanonical(t[i], clock);
    }
    assert q == t;
    HeaderRoundTrip(t, |t|, NoOverrides, clock, tags);
  }
}
