/**
 * `convert_pt2_to_ptu` (pt2_to_ptu.py) end to end: walk the `.pt2` header,
 * hand four of its values and its file time to the PTU writer as
 * overrides, and append the untouched event payload to the new header.
 */
module Pt2Convert {
  import opened Bytes
  import opened Unpack
  import opened PtuTags
  import opened PtuWriter
  import opened PtuReader
  import opened PtuRoundTrip
  import opened Pt2Layout
  import opened Pt2Reader

  /** Why a conversion stops: the file ends inside a field the walker unpacks, or its file time does not parse. */
  datatype ConvertError = ShortFile | BadFileTime

  /**
   * The overrides the converter passes to `write_ptuheader`:
   * Acquisitiontime_ms as the acquisition time, Numrecords as the total
   * records, Inprate0 and Inprate1 as the two counts, and the file time.
   */
  function Pt2Overrides(data: seq<Byte>, stamp: Bits64): (ov: Overrides)
    requires Complete(data)
    ensures ov.acquisitionTimeMs.Some? && ov.totalRecords.Some? && ov.timestamp == Some(stamp)
    ensures ov.counts0.Some? && ov.counts1.Some?
  {
    var t2 := T2Start(Boards(data));
    Overrides(
      Some(I32At(data, ItemsStart + 36)),
      Some(I32At(data, t2 + 28)),
      Some(stamp),
      Some(I32At(data, t2 + 12)),
      Some(I32At(data, t2 + 16)))
  }

  /** The converted file: the rewritten PTU header, then the `.pt2` payload byte for byte. */
  function Converted(data: seq<Byte>, template: seq<TagRecord>, stamp: Bits64, clock: Bits64): (c: seq<Byte>)
    requires Complete(data) && WritableAll(template)
    ensures |c| >= 16 + 40 * |template| + |data| - PayloadStart(data)
  {
    Combine(EncodeHeader(template, Pt2Overrides(data, stamp), clock), data[PayloadStart(data)..])
  }

  /**
   * The conversion. `oleDateOf` stands for `strptime` with the format
   * "%d/%m/%y %H:%M:%S", `timestamp()` in the local time zone and the
   * writer's conversion to an OLE date; it gives None where `strptime`
   * raises. `clock` is the OLE date the wall clock would give.
   */
  method ConvertPt2(data: seq<Byte>, template: seq<TagRecord>, oleDateOf: seq<Byte> -> Option<Bits64>, clock: Bits64)
    returns (r: Result<seq<Byte>, ConvertError>)
    requires WritableAll(template)
    ensures !Complete(data) ==> r == Failure(ShortFile)
    ensures Complete(data) && oleDateOf(TextField(data, 4)).None? ==> r == Failure(BadFileTime)
    ensures Complete(data) && oleDateOf(TextField(data, 4)).Some? ==>
      r == Success(Converted(data, template, oleDateOf(TextField(data, 4)).value, clock))
  {
    var f := ReadPt2(data);
    if f.Failure? {
      return Failure(ShortFile);
    }
    var d := f.value.description;
    OverrideSources(data);
    FileTimeRecorded(data);
    var stamp := oleDateOf(d[File_CreatingTime].text);
    if stamp.None? {
      return Failure(BadFileTime);
    }
    var ov := Overrides(
      Some(d[Acquisitiontime_ms].value),
      Some(d[Numrecords].value),
      Some(stamp.value),
      Some(d[Inprate0].value),
      Some(d[Inprate1].value));
    assert ov == Pt2Overrides(data, stamp.value);
    var header := WriteHeader(template, ov, clock);
    return Success(Combine(header, f.value.payload));
  }

  /** The converted file ends with everything after the reserved words of the `.pt2` file, unchanged. */
  lemma PayloadPreserved(data: seq<Byte>, template: seq<TagRecord>, stamp: Bits64, clock: Bits64)
    requires Complete(data) && WritableAll(template)
    ensures var out := Converted(data, template, stamp, clock);
      |out| >= |data| - PayloadStart(data)
      && out[|out| - (|data| - PayloadStart(data))..] == data[PayloadStart(data)..]
  {
    var header := EncodeHeader(template, Pt2Overrides(data, stamp), clock);
    assert |Converted(data, template, stamp, clock)| - (|data| - PayloadStart(data)) == |header|;
  }

  /**
   * Reading the converted file back as PTU gives the magic, the version and
   * the template entries up to Header_End as the writer rewrote them with
   * the `.pt2` overrides; the payload is never mistaken for header entries.
   */
  lemma ConvertedReadsBack(data: seq<Byte>, template: seq<TagRecord>, n: nat, stamp: Bits64, clock: Bits64)
    requires Complete(data) && WritableAll(template) && n <= |template| && Known(template[..n])
    requires EndsAtHeaderEnd(RereadAll(template[..n], Pt2Overrides(data, stamp), clock))
    ensures ParseHeader(Converted(data, template, stamp, clock))
         == Success(PtuHeader(Magic, Version, RereadAll(template[..n], Pt2Overrides(data, stamp), clock)))
  {
    HeaderRoundTrip(template, n, Pt2Overrides(data, stamp), clock, data[PayloadStart(data)..]);
  }

  /**
   * Where each written value comes from: an Int8 entry named after an
   * override target is read back with the `.pt2` value that feeds it
   * (Acquisitiontime_ms for the acquisition time and the stop time,
   * Inprate0 for the sync rate, Inprate1 for the input rate, Numrecords
   * for the record count), any other Int8 entry with its template value,
   * and every DateTime entry with the file time.
   */
  lemma Pt2ValuesWritten(data: seq<Byte>, r: TagRecord, stamp: Bits64, clock: Bits64)
    requires Complete(data) && Writable(r) && !r.value.Unknown?
    ensures var v := Reread(r, Pt2Overrides(data, stamp), clock).value; var t2 := T2Start(Boards(data));
      && (r.value.Int8? && (r.ident == AcquisitionTimeIdent || r.ident == StopAfterIdent)
          ==> v == Int8(I32At(data, ItemsStart + 36)))
      && (r.value.Int8? && r.ident == SyncRateIdent ==> v == Int8(I32At(data, t2 + 12)))
      && (r.value.Int8? && r.ident == InputRateIdent ==> v == Int8(I32At(data, t2 + 16)))
      && (r.value.Int8? && r.ident == NumberOfRecordsIdent ==> v == Int8(I32At(data, t2 + 28)))
      && (r.value.Int8? && r.ident !in {AcquisitionTimeIdent, StopAfterIdent, SyncRateIdent, InputRateIdent, NumberOfRecordsIdent}
          ==> v == r.value)
      && (r.value.TDateTime? ==> v == TDateTime(stamp))
  {
    OverrideTargetsDistinct();
  }
}
