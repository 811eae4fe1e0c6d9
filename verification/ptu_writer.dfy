/**
 * `write_ptuheader` (tttr_mode_to_ptu.py): serialise a template tag sequence
 * into a PTU header, substituting the supplied overrides. The functions give
 * the byte layout record by record; `WriteHeader` is `write_ptuheader`'s loop that
 * appends to the output stream, proved to produce exactly that layout.
 */
module PtuWriter {
  import opened Bytes
  import opened PtuTags

  const Magic := Ascii("PQTTTR")
  const Version := Ascii("1.0.00")

  /** `<8s` magic then `<8s` version. */
  function Preamble(): (p: seq<Byte>)
    ensures |p| == 16
  {
    FixedWidth(Magic, 8) + FixedWidth(Version, 8)
  }

  /**
   * What `write_ptuheader` can pack: identifiers and string texts encode as ASCII,
   * and a string's declared length is a valid `<Ns` width. Any other entry
   * makes `write_ptuheader` raise before the entry is complete. An entry of
   * unknown type carries a code that is none of the eleven.
   */
  predicate Writable(r: TagRecord) {
    && IsAscii(r.ident)
    && match r.value
       case AnsiString(len, text) => len >= 0 && IsAscii(text)
       case WideString(len, text) => len >= 0 && IsAscii(text)
       case Unknown(code) => KindOf(code).None?
       case _ => true
  }

  predicate WritableAll(t: seq<TagRecord>) {
    forall k :: 0 <= k < |t| ==> Writable(t[k])
  }

  /** The integer written for an Int8 entry: the first matching supplied override, else the template's. */
  function Int8Written(ident: seq<Byte>, v: Int64, ov: Overrides): (w: Int64)
    ensures w == v || Some(w) in {ov.acquisitionTimeMs, ov.counts0, ov.counts1, ov.totalRecords}
    ensures ident !in {AcquisitionTimeIdent, StopAfterIdent, SyncRateIdent, InputRateIdent, NumberOfRecordsIdent}
      ==> w == v
  {
    if ident == AcquisitionTimeIdent && ov.acquisitionTimeMs.Some? then ov.acquisitionTimeMs.value
    else if ident == StopAfterIdent && ov.acquisitionTimeMs.Some? then ov.acquisitionTimeMs.value
    else if ident == SyncRateIdent && ov.counts0.Some? then ov.counts0.value
    else if ident == InputRateIdent && ov.counts1.Some? then ov.counts1.value
    else if ident == NumberOfRecordsIdent && ov.totalRecords.Some? then ov.totalRecords.value
    else v
  }

  /** The OLE date written for every DateTime entry: the supplied timestamp, else the clock. */
  function DateTimeWritten(ov: Overrides, clock: Bits64): Bits64 {
    if ov.timestamp.None? then clock else ov.timestamp.value
  }

  /** The bytes written after an entry's 40-byte prefix. */
  function Payload(r: TagRecord, ov: Overrides, clock: Bits64): (p: seq<Byte>)
    requires Writable(r)
    ensures r.value.Unknown? <==> |p| == 0
    ensures r.value.AnsiString? || r.value.WideString? ==> |p| == 8 + r.value.length
    ensures !r.value.AnsiString? && !r.value.WideString? && !r.value.Unknown? ==> |p| == 8
  {
    match r.value
    case Empty8 => FixedWidth([], 8)
    case Bool8(v) => EncodeI64(v)
    case Int8(v) => EncodeI64(Int8Written(r.ident, v, ov))
    case BitSet64(v) => EncodeI64(v)
    case Color8(v) => EncodeI64(v)
    case Float8(bits) => bits
    case Float8Array(v) => EncodeI64(v)
    case TDateTime(_) => DateTimeWritten(ov, clock)
    case AnsiString(len, text) => EncodeI64(len) + FixedWidth(text, len)
    case WideString(len, text) => EncodeI64(len) + FixedWidth(text, len)
    case BinaryBlob(v) => EncodeI64(v)
    case Unknown(_) => []
  }

  /** One entry: `<32s` identifier, `<i` index, `<i` type code, payload. */
  function EncodeRecord(r: TagRecord, ov: Overrides, clock: Bits64): (e: seq<Byte>)
    requires Writable(r)
    ensures |e| == 40 + |Payload(r, ov, clock)|
  {
    FixedWidth(r.ident, 32) + EncodeI32(r.index) + EncodeI32(TypeCode(r.value)) + Payload(r, ov, clock)
  }

  /** The records one after another; each takes at least its 40-byte prefix. */
  function EncodeRecords(t: seq<TagRecord>, ov: Overrides, clock: Bits64): (e: seq<Byte>)
    requires WritableAll(t)
    ensures |e| >= 40 * |t|
  {
    if t == [] then [] else EncodeRecord(t[0], ov, clock) + EncodeRecords(t[1..], ov, clock)
  }

  /** The whole header file the writer produces. */
  function EncodeHeader(t: seq<TagRecord>, ov: Overrides, clock: Bits64): (h: seq<Byte>)
    requires WritableAll(t)
    ensures |h| >= 16 + 40 * |t|
  {
    Preamble() + EncodeRecords(t, ov, clock)
  }

  lemma {:induction false} EncodeRecordsSnoc(t: seq<TagRecord>, r: TagRecord, ov: Overrides, clock: Bits64)
    requires WritableAll(t) && Writable(r)
    ensures WritableAll(t + [r])
    ensures EncodeRecords(t + [r], ov, clock) == EncodeRecords(t, ov, clock) + EncodeRecord(r, ov, clock)
  {
    var last := EncodeRecord(r, ov, clock);
    if t == [] {
      assert [] + [r] == [r];
      assert EncodeRecords([r], ov, clock) == last + [];
    } else {
      var first := EncodeRecord(t[0], ov, clock);
      assert (t + [r])[0] == t[0];
      assert (t + [r])[1..] == t[1..] + [r];
      EncodeRecordsSnoc(t[1..], r, ov, clock);
      var rest := EncodeRecords(t[1..], ov, clock);
      calc {
        EncodeRecords(t + [r], ov, clock);
        first + EncodeRecords(t[1..] + [r], ov, clock);
        first + (rest + last);
        { AppendAssociates3(first, rest, last); }
        first + rest + last;
      }
    }
  }

  lemma EncodeRecordsPrefix(t: seq<TagRecord>, j: nat, ov: Overrides, clock: Bits64)
    requires WritableAll(t) && j < |t|
    ensures EncodeRecords(t[..j + 1], ov, clock) == EncodeRecords(t[..j], ov, clock) + EncodeRecord(t[j], ov, clock)
  {
    assert t[..j + 1] == t[..j] + [t[j]];
    EncodeRecordsSnoc(t[..j], t[j], ov, clock);
  }

  /**
   * `write_ptuheader`'s loop: write the preamble, then for every template entry
   * its prefix and its type-dependent payload, appending to the output.
   * `clock` is the OLE date the wall clock would give.
   */
  method WriteHeader(template: seq<TagRecord>, ov: Overrides, clock: Bits64) returns (out: seq<Byte>)
    requires WritableAll(template)
    ensures out == EncodeHeader(template, ov, clock)
  {
    out := FixedWidth(Magic, 8);
    out := out + FixedWidth(Version, 8);
    assert template[..0] == [];
    for j := 0 to |template|
      invariant out == Preamble() + EncodeRecords(template[..j], ov, clock)
    {
      var r := template[j];
      ghost var done := EncodeRecords(template[..j], ov, clock);
      out := WriteRecord(out, r, ov, clock);
      EncodeRecordsPrefix(template, j, ov, clock);
      AppendAssociates3(Preamble(), done, EncodeRecord(r, ov, clock));
    }
    assert template[..|template|] == template;
  }

  /** One iteration of the loop: append the prefix and the payload of `r` to `out0`. */
  method WriteRecord(out0: seq<Byte>, r: TagRecord, ov: Overrides, clock: Bits64) returns (out: seq<Byte>)
    requires Writable(r)
    ensures out == out0 + EncodeRecord(r, ov, clock)
  {
    out := out0 + FixedWidth(r.ident, 32);
    out := out + EncodeI32(r.index);
    out := out + EncodeI32(TypeCode(r.value));
    out := WritePayload(out, r, ov, clock);
    AppendAssociates(out0, FixedWidth(r.ident, 32), EncodeI32(r.index), EncodeI32(TypeCode(r.value)),
      Payload(r, ov, clock));
  }

  lemma AppendAssociates3(s: seq<Byte>, a: seq<Byte>, b: seq<Byte>)
    ensures s + a + b == s + (a + b)
  {
  }

  lemma AppendAssociates(s: seq<Byte>, a: seq<Byte>, b: seq<Byte>, c: seq<Byte>, d: seq<Byte>)
    ensures s + a + b + c + d == s + (a + b + c + d)
  {
  }

  /** The type dispatch of the loop body: append the payload of `r` to `out0`. */
  method WritePayload(out0: seq<Byte>, r: TagRecord, ov: Overrides, clock: Bits64) returns (out: seq<Byte>)
    requires Writable(r)
    ensures out == out0 + Payload(r, ov, clock)
  {
    match r.value {
      case Empty8 =>
        out := out0 + FixedWidth([], 8);
      case Bool8(v) =>
        out := out0 + EncodeI64(v);
      case Int8(v) =>
        if r.ident == AcquisitionTimeIdent && ov.acquisitionTimeMs.Some? {
          out := out0 + EncodeI64(ov.acquisitionTimeMs.value);
        } else if r.ident == StopAfterIdent && ov.acquisitionTimeMs.Some? {
          out := out0 + EncodeI64(ov.acquisitionTimeMs.value);
        } else if r.ident == SyncRateIdent && ov.counts0.Some? {
          out := out0 + EncodeI64(ov.counts0.value);
        } else if r.ident == InputRateIdent && ov.counts1.Some? {
          out := out0 + EncodeI64(ov.counts1.value);
        } else if r.ident == NumberOfRecordsIdent && ov.totalRecords.Some? {
          out := out0 + EncodeI64(ov.totalRecords.value);
        } else {
          out := out0 + EncodeI64(v);
        }
      case BitSet64(v) =>
        out := out0 + EncodeI64(v);
      case Color8(v) =>
        out := out0 + EncodeI64(v);
      case Float8(bits) =>
        out := out0 + bits;
      case Float8Array(v) =>
        out := out0 + EncodeI64(v);
      case TDateTime(_) =>
        var curTime := if ov.timestamp.None? then clock else ov.timestamp.value;
        out := out0 + curTime;
      case AnsiString(len, text) =>
        out := out0 + EncodeI64(len);
        out := out + FixedWidth(text, len);
      case WideString(len, text) =>
        out := out0 + EncodeI64(len);
        out := out + FixedWidth(text, len);
      case BinaryBlob(v) =>
        out := out0 + EncodeI64(v);
      case Unknown(_) =>
        out := out0;
    }
  }

  /** The output opens with "PQTTTR" and "1.0.00", each nul-padded to 8 bytes. */
  lemma PreambleBytes(t: seq<TagRecord>, ov: Overrides, clock: Bits64)
    requires WritableAll(t)
    ensures |EncodeHeader(t, ov, clock)| >= 16
    ensures EncodeHeader(t, ov, clock)[..16]
         == [0x50, 0x51, 0x54, 0x54, 0x54, 0x52, 0, 0, 0x31, 0x2E, 0x30, 0x2E, 0x30, 0x30, 0, 0]
  {
    PreambleValue();
  }

  lemma PreambleValue()
    ensures Preamble() == [0x50, 0x51, 0x54, 0x54, 0x54, 0x52, 0, 0, 0x31, 0x2E, 0x30, 0x2E, 0x30, 0x30, 0, 0]
  {
    assert FixedWidth(Magic, 8) == Magic + [0, 0];
    assert FixedWidth(Version, 8) == Version + [0, 0];
  }

  /**
   * Every record is a 40-byte prefix (identifier padded or truncated to 32
   * bytes, little-endian index, little-endian type code) and a payload of 8
   * bytes, or of 8 + length bytes for the two string types.
   */
  lemma RecordFraming(r: TagRecord, ov: Overrides, clock: Bits64)
    requires Writable(r)
    ensures var e := EncodeRecord(r, ov, clock);
      && |e| >= 40
      && e[..32] == FixedWidth(r.ident, 32)
      && e[32..36] == EncodeI32(r.index)
      && e[36..40] == EncodeI32(TypeCode(r.value))
      && e[40..] == Payload(r, ov, clock)
      && (r.value.AnsiString? || r.value.WideString? ==>
            |e| == 48 + r.value.length && e[40..48] == EncodeI64(r.value.length))
      && (r.value.Unknown? ==> |e| == 40)
      && (!r.value.AnsiString? && !r.value.WideString? && !r.value.Unknown? ==> |e| == 48)
  {
    var e := EncodeRecord(r, ov, clock);
    var p := Payload(r, ov, clock);
    assert e[40..] == p;
    match r.value {
      case AnsiString(len, text) =>
        assert p[..8] == EncodeI64(len);
      case WideString(len, text) =>
        assert p[..8] == EncodeI64(len);
      case _ =>
    }
  }

  lemma {:induction false} EncodeRecordsSplit(t: seq<TagRecord>, k: nat, ov: Overrides, clock: Bits64)
    requires WritableAll(t) && k <= |t|
    ensures EncodeRecords(t, ov, clock) == EncodeRecords(t[..k], ov, clock) + EncodeRecords(t[k..], ov, clock)
  {
    if k == 0 {
      assert t[..0] == [] && t[0..] == t;
    } else {
      EncodeRecordsSplit(t[1..], k - 1, ov, clock);
      assert t[..k][1..] == t[1..][..k - 1];
      assert t[1..][k - 1..] == t[k..];
      var first := EncodeRecord(t[0], ov, clock);
      AppendAssociates3(first, EncodeRecords(t[1..][..k - 1], ov, clock), EncodeRecords(t[k..], ov, clock));
    }
  }

  /** Byte offset in the header at which the `k`-th record starts. */
  function RecordOffset(t: seq<TagRecord>, k: nat, ov: Overrides, clock: Bits64): nat
    requires WritableAll(t) && k <= |t|
  {
    16 + |EncodeRecords(t[..k], ov, clock)|
  }

  /**
   * Records follow one another without gaps: the `k`-th record's bytes sit at
   * its offset, the next record starts right after it, and the header ends
   * right after the last one.
   */
  lemma RecordAt(t: seq<TagRecord>, k: nat, ov: Overrides, clock: Bits64)
    requires WritableAll(t) && k < |t|
    ensures var h := EncodeHeader(t, ov, clock);
      var off := RecordOffset(t, k, ov, clock);
      var e := EncodeRecord(t[k], ov, clock);
      && off + |e| == RecordOffset(t, k + 1, ov, clock) <= |h|
      && h[off..off + |e|] == e
    ensures |EncodeHeader(t, ov, clock)| == RecordOffset(t, |t|, ov, clock)
  {
    var e := EncodeRecord(t[k], ov, clock);
    var before := Preamble() + EncodeRecords(t[..k], ov, clock);
    var rest := EncodeRecords(t[k + 1..], ov, clock);
    EncodeRecordsSplit(t, k + 1, ov, clock);
    EncodeRecordsPrefix(t, k, ov, clock);
    AppendAssociates3(Preamble(), EncodeRecords(t[..k], ov, clock), e);
    AppendAssociates3(Preamble(), EncodeRecords(t[..k + 1], ov, clock), rest);
    SliceOfMiddle(before, e, rest);
    assert t[..|t|] == t;
  }

  /** The middle part of a three-way concatenation is found at its offset. */
  lemma SliceOfMiddle(a: seq<Byte>, b: seq<Byte>, c: seq<Byte>)
    ensures (a + b + c)[|a|..|a| + |b|] == b
  {
  }

  /**
   * Override precedence for Int8 records: each target identifier receives its
   * override when that override is supplied (MeasDesc_AcquisitionTime and
   * TTResult_StopAfter both the acquisition time); any other Int8 record, or
   * a target whose override is absent, keeps the template value.
   */
  lemma OverridePrecedence(r: TagRecord, ov: Overrides, clock: Bits64)
    requires Writable(r) && r.value.Int8?
    ensures (r.ident == AcquisitionTimeIdent || r.ident == StopAfterIdent) && ov.acquisitionTimeMs.Some?
            ==> Payload(r, ov, clock) == EncodeI64(ov.acquisitionTimeMs.value)
    ensures r.ident == SyncRateIdent && ov.counts0.Some?
            ==> Payload(r, ov, clock) == EncodeI64(ov.counts0.value)
    ensures r.ident == InputRateIdent && ov.counts1.Some?
            ==> Payload(r, ov, clock) == EncodeI64(ov.counts1.value)
    ensures r.ident == NumberOfRecordsIdent && ov.totalRecords.Some?
            ==> Payload(r, ov, clock) == EncodeI64(ov.totalRecords.value)
    ensures !((r.ident == AcquisitionTimeIdent || r.ident == StopAfterIdent) && ov.acquisitionTimeMs.Some?)
            && !(r.ident == SyncRateIdent && ov.counts0.Some?)
            && !(r.ident == InputRateIdent && ov.counts1.Some?)
            && !(r.ident == NumberOfRecordsIdent && ov.totalRecords.Some?)
            ==> Payload(r, ov, clock) == EncodeI64(r.value.number)
  {
    OverrideTargetsDistinct();
  }

  /**
   * Overrides touch nothing but Int8 and DateTime payloads: every other
   * record is written from its own index, type and value whatever the
   * overrides and the clock, and its prefix never depends on them.
   */
  lemma OthersVerbatim(r: TagRecord, ov: Overrides, clock: Bits64, ov': Overrides, clock': Bits64)
    requires Writable(r)
    ensures EncodeRecord(r, ov, clock)[..40] == EncodeRecord(r, ov', clock')[..40]
    ensures !r.value.Int8? && !r.value.TDateTime? ==> EncodeRecord(r, ov, clock) == EncodeRecord(r, ov', clock')
  {
    RecordFraming(r, ov, clock);
    RecordFraming(r, ov', clock');
  }

  /**
   * Every DateTime record is rewritten, whatever the template holds: with the
   * supplied timestamp, otherwise with the clock.
   */
  lemma DateTimeRewritten(r: TagRecord, ov: Overrides, clock: Bits64)
    requires Writable(r) && r.value.TDateTime?
    ensures ov.timestamp.Some? ==> Payload(r, ov, clock) == ov.timestamp.value
    ensures ov.timestamp.None? ==> Payload(r, ov, clock) == clock
    ensures Payload(r, ov, clock) == Payload(r.(value := TDateTime(clock)), ov, clock)
  {
  }

  /** With a timestamp supplied, the output does not depend on the clock. */
  lemma {:induction false} ClockUnusedWithTimestamp(t: seq<TagRecord>, ov: Overrides, clock: Bits64, clock': Bits64)
    requires WritableAll(t) && ov.timestamp.Some?
    ensures EncodeRecords(t, ov, clock) == EncodeRecords(t, ov, clock')
  {
    if t != [] {
      ClockUnusedWithTimestamp(t[1..], ov, clock, clock');
      assert EncodeRecord(t[0], ov, clock) == EncodeRecord(t[0], ov, clock');
    }
  }

  /**
   * `combine_time_tags_header`: the output file is the whole header file
   * followed by the whole time-tag file.
   */
  function Combine(header: seq<Byte>, tags: seq<Byte>): (out: seq<Byte>)
    ensures |out| == |header| + |tags|
    ensures out[..|header|] == header && out[|header|..] == tags
  {
    header + tags
  }
}
