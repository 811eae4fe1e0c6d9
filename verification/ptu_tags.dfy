/**
 * The vocabulary of the PTU tagged header (tttr_mode_to_ptu.py): the eleven
 * tag types and their wire codes, the value carried by each type, tag
 * records and the values the writer may substitute.
 */
module PtuTags {
  import opened Bytes

  /** The tag types, named as the `ty...` constants of tttr_mode_to_ptu. */
  datatype TagKind =
    | TyEmpty8 | TyBool8 | TyInt8 | TyBitSet64 | TyColor8 | TyFloat8
    | TyTDateTime | TyFloat8Array | TyAnsiString | TyWideString | TyBinaryBlob

  /** The hex pattern tttr_mode_to_ptu writes down for each `ty...` constant. */
  function Hex(k: TagKind): seq<Byte> {
    match k
    case TyEmpty8 => [0xFF, 0xFF, 0x00, 0x08]
    case TyBool8 => [0x00, 0x00, 0x00, 0x08]
    case TyInt8 => [0x10, 0x00, 0x00, 0x08]
    case TyBitSet64 => [0x11, 0x00, 0x00, 0x08]
    case TyColor8 => [0x12, 0x00, 0x00, 0x08]
    case TyFloat8 => [0x20, 0x00, 0x00, 0x08]
    case TyTDateTime => [0x21, 0x00, 0x00, 0x08]
    case TyFloat8Array => [0x20, 0x01, 0xFF, 0xFF]
    case TyAnsiString => [0x40, 0x01, 0xFF, 0xFF]
    case TyWideString => [0x40, 0x02, 0xFF, 0xFF]
    case TyBinaryBlob => [0xFF, 0xFF, 0xFF, 0xFF]
  }

  /** `struct.unpack(">i", b)`: the signed value of four bytes, most significant first. */
  function BigEndianI32(b: seq<Byte>): (x: Int32)
    requires |b| == 4
    ensures var u := 0x100_0000 * (b[0] as int) + 0x1_0000 * (b[1] as int) + 0x100 * (b[2] as int) + b[3];
            x == if u < 0x8000_0000 then u else u - 0x1_0000_0000
  {
    var le := [b[3], b[2], b[1], b[0]];
    assert DecodeUnsigned(le[3..]) == b[0] by { assert le[3..][1..] == []; }
    assert DecodeUnsigned(le[2..]) == b[1] as int + 0x100 * (b[0] as int) by { assert le[2..][1..] == le[3..]; }
    assert DecodeUnsigned(le[1..]) == b[2] as int + 0x100 * (b[1] as int) + 0x1_0000 * (b[0] as int) by { assert le[1..][1..] == le[2..]; }
    Pow256Facts();
    DecodeI32(le)
  }

  /** The numeric type code of each tag type. */
  function Code(k: TagKind): Int32 {
    match k
    case TyEmpty8 => -0xFFF8
    case TyBool8 => 0x0000_0008
    case TyInt8 => 0x1000_0008
    case TyBitSet64 => 0x1100_0008
    case TyColor8 => 0x1200_0008
    case TyFloat8 => 0x2000_0008
    case TyTDateTime => 0x2100_0008
    case TyFloat8Array => 0x2001_FFFF
    case TyAnsiString => 0x4001_FFFF
    case TyWideString => 0x4002_FFFF
    case TyBinaryBlob => -1
  }

  /** Each code is its `ty...` constant's hex pattern read as a big-endian signed 32-bit integer. */
  lemma CodeFromHex(k: TagKind)
    ensures Code(k) == BigEndianI32(Hex(k))
  {
  }

  /** No two tag types share a code, so dispatch on the code is unambiguous. */
  lemma CodesDistinct(j: TagKind, k: TagKind)
    ensures Code(j) == Code(k) ==> j == k
  {
  }

  /** On the wire (`struct.pack("<i", code)`) a code appears as its hex pattern reversed. */
  lemma CodeOnWire(k: TagKind)
    ensures EncodeI32(Code(k)) == [Hex(k)[3], Hex(k)[2], Hex(k)[1], Hex(k)[0]]
  {
    var h := Hex(k);
    var le := [h[3], h[2], h[1], h[0]];
    CodeFromHex(k);
    Pow256Facts();
    EncodeDecodeUnsigned(le);
  }

  /** The reader's dispatch on a type code read from the stream. */
  function KindOf(code: Int32): (r: Option<TagKind>)
    ensures r.Some? ==> Code(r.value) == code
    ensures r.None? ==> forall k: TagKind :: Code(k) != code
  {
    if code == Code(TyEmpty8) then Some(TyEmpty8)
    else if code == Code(TyBool8) then Some(TyBool8)
    else if code == Code(TyInt8) then Some(TyInt8)
    else if code == Code(TyBitSet64) then Some(TyBitSet64)
    else if code == Code(TyColor8) then Some(TyColor8)
    else if code == Code(TyFloat8) then Some(TyFloat8)
    else if code == Code(TyFloat8Array) then Some(TyFloat8Array)
    else if code == Code(TyTDateTime) then Some(TyTDateTime)
    else if code == Code(TyAnsiString) then Some(TyAnsiString)
    else if code == Code(TyWideString) then Some(TyWideString)
    else if code == Code(TyBinaryBlob) then Some(TyBinaryBlob)
    else None
  }

  /** Dispatch on a kind's own code selects that kind. */
  lemma KindOfCode(k: TagKind)
    ensures KindOf(Code(k)) == Some(k)
  {
    if KindOf(Code(k)).Some? {
      CodesDistinct(KindOf(Code(k)).value, k);
    }
  }

  /**
   * The value of a tag, one constructor per tag type. Integer-like values
   * are 64-bit (`<q`); Float8 and DateTime are opaque 8-byte doubles;
   * strings carry the declared length and the text bytes. `Unknown` stands
   * for a template entry whose type code is none of the eleven.
   */
  datatype TagValue =
    | Empty8
    | Bool8(flag: Int64)
    | Int8(number: Int64)
    | BitSet64(bits: Int64)
    | Color8(color: Int64)
    | Float8(float: Bits64)
    | Float8Array(size: Int64)
    | TDateTime(oleDate: Bits64)
    | AnsiString(length: Int64, text: seq<Byte>)
    | WideString(length: Int64, text: seq<Byte>)
    | BinaryBlob(size: Int64)
    | Unknown(code: Int32)

  /** The tag type of a value of one of the eleven known types. */
  function Kind(v: TagValue): TagKind
    requires !v.Unknown?
  {
    match v
    case Empty8 => TyEmpty8
    case Bool8(_) => TyBool8
    case Int8(_) => TyInt8
    case BitSet64(_) => TyBitSet64
    case Color8(_) => TyColor8
    case Float8(_) => TyFloat8
    case Float8Array(_) => TyFloat8Array
    case TDateTime(_) => TyTDateTime
    case AnsiString(_, _) => TyAnsiString
    case WideString(_, _) => TyWideString
    case BinaryBlob(_) => TyBinaryBlob
  }

  /** The type code stored beside a value. */
  function TypeCode(v: TagValue): Int32 {
    if v.Unknown? then v.code else Code(Kind(v))
  }

  /** One header entry: identifier, index (-1 for none) and typed value. */
  datatype TagRecord = TagRecord(ident: seq<Byte>, index: Int32, value: TagValue)

  /** What the reader returns: magic, version and the entries in file order. */
  datatype PtuHeader = PtuHeader(magic: seq<Byte>, version: seq<Byte>, records: seq<TagRecord>)

  /**
   * The writer's optional arguments. `timestamp` is the OLE date the writer
   * stores for DateTime records, already converted from Unix seconds.
   */
  datatype Overrides = Overrides(
    acquisitionTimeMs: Option<Int64>,
    totalRecords: Option<Int64>,
    timestamp: Option<Bits64>,
    counts0: Option<Int64>,
    counts1: Option<Int64>)

  const NoOverrides := Overrides(None, None, None, None, None)

  const HeaderEnd := Ascii("Header_End")
  const AcquisitionTimeIdent := Ascii("MeasDesc_AcquisitionTime")
  const StopAfterIdent := Ascii("TTResult_StopAfter")
  const SyncRateIdent := Ascii("TTResult_SyncRate")
  const InputRateIdent := Ascii("TTResult_InputRate")
  const NumberOfRecordsIdent := Ascii("TTResult_NumberOfRecords")

  /** The five override targets are distinct identifiers. */
  lemma OverrideTargetsDistinct()
    ensures AcquisitionTimeIdent != StopAfterIdent && AcquisitionTimeIdent != SyncRateIdent
    ensures AcquisitionTimeIdent != InputRateIdent && AcquisitionTimeIdent != NumberOfRecordsIdent
    ensures StopAfterIdent != SyncRateIdent && StopAfterIdent != InputRateIdent
    ensures StopAfterIdent != NumberOfRecordsIdent && SyncRateIdent != InputRateIdent
    ensures SyncRateIdent != NumberOfRecordsIdent && InputRateIdent != NumberOfRecordsIdent
  {
    assert AcquisitionTimeIdent[0] != NumberOfRecordsIdent[0];
    assert StopAfterIdent[9] != InputRateIdent[9];
  }
}
