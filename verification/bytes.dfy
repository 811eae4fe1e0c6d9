/**
 * Byte-level vocabulary shared by both codecs: bytes, fixed-width integers,
 * little-endian two's-complement packing (Python's `struct` formats `<i`,
 * `<q`, `<L`), fixed-width nul-padded text (`<Ns`), Python's short `read(n)`
 * and `strip('\0')`.
 */
module Bytes {

  type Byte = b: int | 0 <= b < 0x100
  type Int32 = x: int | -0x8000_0000 <= x < 0x8000_0000
  type Int64 = x: int | -0x8000_0000_0000_0000 <= x < 0x8000_0000_0000_0000

  /** An opaque 4-byte pattern (an IEEE-754 single, never interpreted here). */
  type Bits32 = s: seq<Byte> | |s| == 4 witness [0, 0, 0, 0]
  /** An opaque 8-byte pattern (an IEEE-754 double, never interpreted here). */
  type Bits64 = s: seq<Byte> | |s| == 8 witness [0, 0, 0, 0, 0, 0, 0, 0]

  datatype Option<T> = None | Some(value: T)
  datatype Result<T, E> = Success(value: T) | Failure(error: E) {
    predicate IsFailure() { Failure? }
    function PropagateFailure<U>(): Result<U, E> requires Failure? { Failure(error) }
    function Extract(): T requires Success? { value }
  }

  function Min(a: int, b: int): int { if a <= b then a else b }
  function Max(a: int, b: int): int { if a <= b then b else a }

  function Pow256(n: nat): (p: nat)
    ensures p >= 1
  {
    if n == 0 then 1 else 0x100 * Pow256(n - 1)
  }

  /** The `n` least significant base-256 digits of `u`, least significant first. */
  function EncodeUnsigned(u: nat, n: nat): (s: seq<Byte>)
    ensures |s| == n
  {
    if n == 0 then [] else [u % 0x100] + EncodeUnsigned(u / 0x100, n - 1)
  }

  /** The unsigned value of a little-endian byte string. */
  function DecodeUnsigned(s: seq<Byte>): (u: nat)
    ensures u < Pow256(|s|)
  {
    if s == [] then 0 else s[0] + 0x100 * DecodeUnsigned(s[1..])
  }

  lemma {:induction false} DecodeEncodeUnsigned(u: nat, n: nat)
    requires u < Pow256(n)
    ensures DecodeUnsigned(EncodeUnsigned(u, n)) == u
  {
    if n > 0 {
      var s := EncodeUnsigned(u, n);
      assert s[1..] == EncodeUnsigned(u / 0x100, n - 1);
      DecodeEncodeUnsigned(u / 0x100, n - 1);
    }
  }

  lemma {:induction false} EncodeDecodeUnsigned(s: seq<Byte>)
    ensures EncodeUnsigned(DecodeUnsigned(s), |s|) == s
  {
    if s != [] {
      var u := DecodeUnsigned(s);
      assert u % 0x100 == s[0] && u / 0x100 == DecodeUnsigned(s[1..]);
      EncodeDecodeUnsigned(s[1..]);
    }
  }

  lemma Pow256Facts()
    ensures Pow256(4) == 0x1_0000_0000
    ensures Pow256(8) == 0x1_0000_0000_0000_0000
  {
    assert Pow256(2) == 0x1_0000;
    assert Pow256(4) == 0x1_0000_0000;
  }

  /** `struct.pack("<i", x)` */
  function EncodeI32(x: Int32): (s: seq<Byte>)
    ensures |s| == 4
  {
    EncodeUnsigned(if x < 0 then x + 0x1_0000_0000 else x, 4)
  }

  /** `struct.unpack("<i", s)` */
  function DecodeI32(s: seq<Byte>): Int32
    requires |s| == 4
  {
    Pow256Facts();
    var u := DecodeUnsigned(s);
    if u < 0x8000_0000 then u else u - 0x1_0000_0000
  }

  /** `struct.pack("<q", x)` */
  function EncodeI64(x: Int64): (s: seq<Byte>)
    ensures |s| == 8
  {
    EncodeUnsigned(if x < 0 then x + 0x1_0000_0000_0000_0000 else x, 8)
  }

  /** `struct.unpack("<q", s)` */
  function DecodeI64(s: seq<Byte>): Int64
    requires |s| == 8
  {
    Pow256Facts();
    var u := DecodeUnsigned(s);
    if u < 0x8000_0000_0000_0000 then u else u - 0x1_0000_0000_0000_0000
  }

  lemma DecodeEncodeI32(x: Int32)
    ensures DecodeI32(EncodeI32(x)) == x
  {
    Pow256Facts();
    DecodeEncodeUnsigned(if x < 0 then x + 0x1_0000_0000 else x, 4);
  }

  lemma DecodeEncodeI64(x: Int64)
    ensures DecodeI64(EncodeI64(x)) == x
  {
    Pow256Facts();
    DecodeEncodeUnsigned(if x < 0 then x + 0x1_0000_0000_0000_0000 else x, 8);
  }

  /** Every four bytes are the packing of the integer they unpack to. */
  lemma EncodeDecodeI32(s: seq<Byte>)
    requires |s| == 4
    ensures EncodeI32(DecodeI32(s)) == s
  {
    Pow256Facts();
    EncodeDecodeUnsigned(s);
  }

  /** Every eight bytes are the packing of the integer they unpack to. */
  lemma EncodeDecodeI64(s: seq<Byte>)
    requires |s| == 8
    ensures EncodeI64(DecodeI64(s)) == s
  {
    Pow256Facts();
    EncodeDecodeUnsigned(s);
  }

  /** `n` nul bytes. */
  function Zeros(n: nat): (z: seq<Byte>)
    ensures |z| == n
  {
    seq(n, _ => 0)
  }

  /**
   * `struct.pack("<Ns", s)`: `s` truncated to `n` bytes, or padded to `n`
   * bytes with nuls.
   */
  function FixedWidth(s: seq<Byte>, n: nat): (r: seq<Byte>)
    ensures |r| == n
  {
    if |s| >= n then s[..n] else s + Zeros(n - |s|)
  }

  /** A fixed-width field keeps the first `n` bytes of `s` and is nul after the end of `s`. */
  lemma FixedWidthContents(s: seq<Byte>, n: nat)
    ensures FixedWidth(s, n)[..Min(|s|, n)] == s[..Min(|s|, n)]
    ensures forall i :: |s| <= i < n ==> FixedWidth(s, n)[i] == 0
  {
    if |s| < n {
      assert FixedWidth(s, n)[..|s|] == s;
    }
  }

  /**
   * Python's `f.read(n)` on a file positioned at `pos`: at most `n` bytes,
   * fewer at end of file (never an error), everything left when `n` is -1.
   * A size below -1 raises ValueError, so callers check for it first.
   */
  function ReadUpTo(data: seq<Byte>, pos: nat, n: int): (r: seq<Byte>)
    requires pos <= |data| && n >= -1
    ensures pos + |r| <= |data|
    ensures n >= 0 ==> |r| == Min(n, |data| - pos)
    ensures n == -1 ==> |r| == |data| - pos
    ensures r == data[pos..pos + |r|]
  {
    if n == -1 then data[pos..] else data[pos..Min(pos + n, |data|)]
  }

  predicate AllZero(s: seq<Byte>) {
    forall i :: 0 <= i < |s| ==> s[i] == 0
  }

  /** Neither the first nor the last byte is a nul. */
  predicate NoEdgeNul(s: seq<Byte>) {
    s == [] || (s[0] != 0 && s[|s| - 1] != 0)
  }

  predicate IsAscii(s: seq<Byte>) {
    forall i :: 0 <= i < |s| ==> s[i] < 0x80
  }

  function StripLeadingNul(s: seq<Byte>): (r: seq<Byte>)
    ensures |r| <= |s|
  {
    if s != [] && s[0] == 0 then StripLeadingNul(s[1..]) else s
  }

  /** `lstrip('\0')` removes a run of nuls from the front and nothing else. */
  lemma {:induction false} StripLeadingNulRemovesNuls(s: seq<Byte>)
    ensures var r := StripLeadingNul(s);
      && r == s[|s| - |r|..]
      && AllZero(s[..|s| - |r|])
      && (r == [] || r[0] != 0)
  {
    if s != [] && s[0] == 0 {
      var r := StripLeadingNul(s[1..]);
      StripLeadingNulRemovesNuls(s[1..]);
      assert s[1..][..|s| - 1 - |r|] == s[1..|s| - |r|];
    }
  }

  function StripTrailingNul(s: seq<Byte>): (r: seq<Byte>)
    ensures |r| <= |s|
  {
    if s != [] && s[|s| - 1] == 0 then StripTrailingNul(s[..|s| - 1]) else s
  }

  /** `rstrip('\0')` removes a run of nuls from the back and nothing else. */
  lemma {:induction false} StripTrailingNulRemovesNuls(s: seq<Byte>)
    ensures var r := StripTrailingNul(s);
      && r == s[..|r|]
      && AllZero(s[|r|..])
      && (r == [] || r[|r| - 1] != 0)
  {
    if s != [] && s[|s| - 1] == 0 {
      var r := StripTrailingNul(s[..|s| - 1]);
      StripTrailingNulRemovesNuls(s[..|s| - 1]);
      assert s[..|s| - 1][|r|..] == s[|r|..|s| - 1];
    }
  }

  /**
   * Python's `strip('\0')` on the text of `s`: the bytes of `s` between its
   * leading and its trailing run of nuls.
   */
  function StripNul(s: seq<Byte>): (r: seq<Byte>)
    ensures |r| <= |s|
  {
    StripTrailingNul(StripLeadingNul(s))
  }

  /**
   * What `strip('\0')` removes is nuls only, from both ends, and what it
   * keeps neither starts nor ends with a nul.
   */
  lemma StripNulRemovesEdgeNuls(s: seq<Byte>)
    ensures NoEdgeNul(StripNul(s))
    ensures var r := StripNul(s);
      exists i ::
        && 0 <= i <= |s| - |r| && r == s[i..i + |r|]
        && AllZero(s[..i]) && AllZero(s[i + |r|..])
  {
    var lead := StripLeadingNul(s);
    var r := StripTrailingNul(lead);
    StripLeadingNulRemovesNuls(s);
    StripTrailingNulRemovesNuls(lead);
    var i := |s| - |lead|;
    assert r == s[i..i + |r|];
    assert s[i + |r|..] == lead[|r|..];
  }

  lemma {:induction false} StripLeadingNoNul(s: seq<Byte>, n: nat)
    requires NoEdgeNul(s)
    ensures StripLeadingNul(s + Zeros(n)) == (if s == [] then [] else s + Zeros(n))
  {
    if s == [] {
      if n > 0 {
        assert (s + Zeros(n))[1..] == [] + Zeros(n - 1);
        StripLeadingNoNul(s, n - 1);
      }
    }
  }

  lemma {:induction false} StripTrailingZeros(s: seq<Byte>, n: nat)
    requires s == [] || s[|s| - 1] != 0
    ensures StripTrailingNul(s + Zeros(n)) == s
  {
    if n > 0 {
      assert (s + Zeros(n))[..|s| + n - 1] == s + Zeros(n - 1);
      StripTrailingZeros(s, n - 1);
    }
  }

  /** Nul padding added by a fixed-width write is removed again by `strip('\0')`. */
  lemma StripPadded(s: seq<Byte>, n: nat)
    requires NoEdgeNul(s) && |s| <= n
    ensures StripNul(FixedWidth(s, n)) == s
  {
    assert FixedWidth(s, n) == s + Zeros(n - |s|);
    StripLeadingNoNul(s, n - |s|);
    if s == [] {
      assert StripLeadingNul(FixedWidth(s, n)) == [];
    }
    StripTrailingZeros(s, n - |s|);
  }

  /** The bytes of an ASCII string literal. */
  function Ascii(s: string): seq<Byte>
    requires forall i :: 0 <= i < |s| ==> s[i] as int < 0x80
  {
    seq(|s|, i requires 0 <= i < |s| => s[i] as int)
  }
}
