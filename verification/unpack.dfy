/**
 * `struct.unpack` on what a file read returned: the unpack fails when the
 * read came back short. Both readers share the error type.
 */
module Unpack {
  import opened Bytes

  datatype ReadError =
    | Truncated                    // `struct.unpack` on a short read
    | UnknownTagType(code: Int32)  // `read_ptuheader` meets a type code it does not know, prints an error and exits
    | BadLength(length: Int64)     // `f.read` refuses a string length below -1 (ValueError)

  /** `struct.unpack("<i", f.read(4))` at `pos`. */
  function ReadInt32(data: seq<Byte>, pos: nat): (r: Result<Int32, ReadError>)
    requires pos <= |data|
    ensures r.Success? <==> pos + 4 <= |data|
  {
    if |data| - pos < 4 then Failure(Truncated) else Success(DecodeI32(data[pos..pos + 4]))
  }

  /** `struct.unpack("<f", f.read(4))` at `pos`, the float kept as its four bytes. */
  function ReadFloat32(data: seq<Byte>, pos: nat): (r: Result<Bits32, ReadError>)
    requires pos <= |data|
    ensures r.Success? <==> pos + 4 <= |data|
    ensures r.Success? ==> r.value == data[pos..pos + 4]
  {
    if |data| - pos < 4 then Failure(Truncated)
    else
      var bits: Bits32 := data[pos..pos + 4];
      Success(bits)
  }

  /** `struct.unpack("<L", f.read(4))` at `pos`. */
  function ReadUInt32(data: seq<Byte>, pos: nat): (r: Result<nat, ReadError>)
    requires pos <= |data|
    ensures r.Success? <==> pos + 4 <= |data|
    ensures r.Success? ==> r.value < 0x1_0000_0000
  {
    Pow256Facts();
    if |data| - pos < 4 then Failure(Truncated) else Success(DecodeUnsigned(data[pos..pos + 4]))
  }
}
