/**
 * `read_ptuheader` (tttr_mode_to_ptu.py): walk a PTU tagged header from the
 * start of a byte stream. Reads follow Python's file semantics: a short
 * `read(n)` is not an error, but unpacking a `<i` or `<q` from too few bytes
 * is. The walk stops after the first entry named Header_End; an unknown type
 * code ends it with an error.
 */
module PtuReader {
  import opened Bytes
  import opened PtuTags
  import opened Unpack

  /** `f.read(8)` at `pos` when it is then unpacked: fewer than eight bytes fail. */
  function ReadWord(data: seq<Byte>, pos: nat): (r: Result<Bits64, ReadError>)
    requires pos <= |data|
    ensures r.Success? <==> pos + 8 <= |data|
    ensures r.Success? ==> r.value == data[pos..pos + 8]
  {
    if |data| - pos < 8 then Failure(Truncated)
    else
      var word: Bits64 := data[pos..pos + 8];
      Success(word)
  }

  /** The kinds whose value is one eight-byte word. */
  predicate IsWordKind(k: TagKind) {
    k != TyEmpty8 && k != TyAnsiString && k != TyWideString
  }

  /** The value of a one-word kind: `<q` unpacked, or `<d` kept as its raw bytes. */
  function WordValue(k: TagKind, w: Bits64): TagValue
    requires IsWordKind(k)
  {
    match k
    case TyBool8 => Bool8(DecodeI64(w))
    case TyInt8 => Int8(DecodeI64(w))
    case TyBitSet64 => BitSet64(DecodeI64(w))
    case TyColor8 => Color8(DecodeI64(w))
    case TyFloat8 => Float8(w)
    case TyFloat8Array => Float8Array(DecodeI64(w))
    case TyTDateTime => TDateTime(w)
    case TyBinaryBlob => BinaryBlob(DecodeI64(w))
    case _ => Empty8
  }

  /** A one-word value has the kind it was read for. */
  lemma WordValueKind(k: TagKind, w: Bits64)
    requires IsWordKind(k)
    ensures !WordValue(k, w).Unknown? && Kind(WordValue(k, w)) == k
  {
    var v := WordValue(k, w);
    match k {
      case TyBool8 => assert v.Bool8?;
      case TyInt8 => assert v.Int8?;
      case TyBitSet64 => assert v.BitSet64?;
      case TyColor8 => assert v.Color8?;
      case TyFloat8 => assert v.Float8?;
      case TyFloat8Array => assert v.Float8Array?;
      case TyTDateTime => assert v.TDateTime?;
      case TyBinaryBlob => assert v.BinaryBlob?;
    }
  }

  /**
   * A string after its `<q` length: `f.read(len)` from `start`, which gives
   * fewer bytes at end of file and everything left for a length of -1.
   * AnsiString text is stripped of nuls; WideString text is kept as read.
   */
  function TextValue(data: seq<Byte>, start: nat, ansi: bool, len: Int64): (r: (TagValue, nat))
    requires start <= |data| && len >= -1
    ensures start <= r.1 <= |data|
    ensures ansi ==> r.0.AnsiString? && r.0.length == len
    ensures !ansi ==> r.0.WideString? && r.0.length == len
  {
    var text := ReadUpTo(data, start, len);
    if ansi then (AnsiString(len, StripNul(text)), start + |text|)
    else (WideString(len, text), start + |text|)
  }

  /**
   * The value of a tag of kind `k` at `pos` and the position after it. An
   * Empty8 entry skips up to eight bytes; every other kind unpacks an
   * eight-byte word, a string's length followed by its text. A string
   * length below -1 is refused by `f.read`.
   */
  function ParseKind(data: seq<Byte>, pos: nat, k: TagKind): (r: Result<(TagValue, nat), ReadError>)
    requires pos <= |data|
    ensures r.Success? ==> pos <= r.value.1 <= |data|
    ensures r.Failure? ==> r.error == Truncated || (r.error.BadLength? && r.error.length < -1)
  {
    if k == TyEmpty8 then Success((Empty8, pos + |ReadUpTo(data, pos, 8)|))
    else
      var w :- ReadWord(data, pos);
      if k == TyAnsiString || k == TyWideString then
        var len := DecodeI64(w);
        if len < -1 then Failure(BadLength(len)) else Success(TextValue(data, pos + 8, k == TyAnsiString, len))
      else Success((WordValue(k, w), pos + 8))
  }

  lemma StringKind(v: TagValue)
    requires v.AnsiString? || v.WideString?
    ensures !v.Unknown? && Kind(v) == (if v.AnsiString? then TyAnsiString else TyWideString)
  {
  }

  lemma ParseStringKind(data: seq<Byte>, pos: nat, k: TagKind)
    requires pos <= |data| && (k == TyAnsiString || k == TyWideString)
    ensures var r := ParseKind(data, pos, k);
      r.Success? ==> if k == TyAnsiString then r.value.0.AnsiString? else r.value.0.WideString?
  {
  }

  /**
   * A value read for kind `k` has that kind; only a kind other than Empty8
   * can fail: with Truncated exactly when fewer than eight bytes remain, or
   * with BadLength exactly when a string's length is below -1. A kind other
   * than Empty8 consumes at least eight bytes when it succeeds.
   */
  lemma ParseKindFacts(data: seq<Byte>, pos: nat, k: TagKind)
    requires pos <= |data|
    ensures var r := ParseKind(data, pos, k);
      && (r.Success? ==> !r.value.0.Unknown? && Kind(r.value.0) == k)
      && (r.Success? && k != TyEmpty8 ==> pos + 8 <= r.value.1)
      && (r.Failure? <==> k != TyEmpty8 && (|data| < pos + 8 || ((k == TyAnsiString || k == TyWideString) && DecodeI64(data[pos..pos + 8]) < -1)))
      && (r.Failure? && |data| < pos + 8 ==> r.error == Truncated)
      && (r.Failure? && pos + 8 <= |data| ==> r.error == BadLength(DecodeI64(data[pos..pos + 8])))
  {
    var r := ParseKind(data, pos, k);
    if r.Success? {
      if k == TyAnsiString || k == TyWideString {
        ParseStringKind(data, pos, k);
        StringKind(r.value.0);
      } else if k != TyEmpty8 {
        WordValueKind(k, data[pos..pos + 8]);
      }
    }
  }

  /** Empty8 skips eight bytes when they are there. */
  lemma ParseEmpty(data: seq<Byte>, pos: nat)
    requires pos + 8 <= |data|
    ensures ParseKind(data, pos, TyEmpty8) == Success((Empty8, pos + 8))
  {
  }

  /** A one-word kind with eight bytes available reads exactly those bytes. */
  lemma ParseWord(data: seq<Byte>, pos: nat, k: TagKind)
    requires pos + 8 <= |data| && IsWordKind(k)
    ensures ParseKind(data, pos, k) == Success((WordValue(k, data[pos..pos + 8]), pos + 8))
  {
    var w: Bits64 := data[pos..pos + 8];
    assert ReadWord(data, pos) == Success(w);
  }

  /** A string kind with eight bytes available reads its length there; a length below -1 is refused, any other is followed by its text. */
  lemma ParseText(data: seq<Byte>, pos: nat, k: TagKind)
    requires pos + 8 <= |data| && (k == TyAnsiString || k == TyWideString)
    ensures var len := DecodeI64(data[pos..pos + 8]);
      ParseKind(data, pos, k)
         == if len < -1 then Failure(BadLength(len)) else Success(TextValue(data, pos + 8, k == TyAnsiString, len))
  {
    var w: Bits64 := data[pos..pos + 8];
    assert ReadWord(data, pos) == Success(w);
  }

  /** `read_ptuheader`'s dispatch on the type code: one of the eleven kinds, else an error. */
  function ParseValue(data: seq<Byte>, pos: nat, code: Int32): (r: Result<(TagValue, nat), ReadError>)
    requires pos <= |data|
    ensures r.Success? ==> pos <= r.value.1 <= |data|
    ensures KindOf(code).None? ==> r == Failure(UnknownTagType(code))
  {
    match KindOf(code)
    case None => Failure(UnknownTagType(code))
    case Some(k) => ParseKind(data, pos, k)
  }

  /**
   * Dispatch is faithful: a value read under a code carries that code, and
   * the walk stops with UnknownTagType exactly for codes of none of the
   * eleven types.
   */
  lemma ParseValueCode(data: seq<Byte>, pos: nat, code: Int32)
    requires pos <= |data|
    ensures ParseValue(data, pos, code).Success? ==> TypeCode(ParseValue(data, pos, code).value.0) == code
    ensures ParseValue(data, pos, code) == Failure(UnknownTagType(code)) <==> KindOf(code).None?
  {
    if KindOf(code).Some? {
      ParseKindFacts(data, pos, KindOf(code).value);
    }
  }

  /**
   * One entry at `pos`: up to 32 identifier bytes stripped of nuls, `<i`
   * index, `<i` type code, then the value. A successful read consumes at
   * least the 40-byte prefix.
   */
  function ParseRecordAt(data: seq<Byte>, pos: nat): (r: Result<(TagRecord, nat), ReadError>)
    requires pos <= |data|
    ensures r.Success? ==> pos + 40 <= r.value.1 <= |data|
  {
    var raw := ReadUpTo(data, pos, 32);
    var index :- ReadInt32(data, pos + |raw|);
    var code :- ReadInt32(data, pos + |raw| + 4);
    var pv :- ParseValue(data, pos + |raw| + 8, code);
    Success((TagRecord(StripNul(raw), index, pv.0), pv.1))
  }

  /** An identifier read back is at most 32 bytes and neither starts nor ends with a nul. */
  lemma ParseRecordIdent(data: seq<Byte>, pos: nat)
    requires pos <= |data|
    ensures var r := ParseRecordAt(data, pos);
      r.Success? ==> NoEdgeNul(r.value.0.ident) && |r.value.0.ident| <= 32
  {
    StripNulRemovesEdgeNuls(ReadUpTo(data, pos, 32));
  }

  /** The entry list holds exactly one Header_End, at its end. */
  predicate EndsAtHeaderEnd(records: seq<TagRecord>) {
    && |records| > 0
    && records[|records| - 1].ident == HeaderEnd
    && forall i :: 0 <= i < |records| - 1 ==> records[i].ident != HeaderEnd
  }

  /** Entries from `pos` up to and including the first one named Header_End. */
  function ParseRecordsFrom(data: seq<Byte>, pos: nat): (r: Result<seq<TagRecord>, ReadError>)
    requires pos <= |data|
    ensures r.Success? ==> pos + 40 * |r.value| <= |data|
    decreases |data| - pos
  {
    match ParseRecordAt(data, pos)
    case Failure(e) => Failure(e)
    case Success((rec, next)) =>
      if rec.ident == HeaderEnd then Success([rec])
      else
        match ParseRecordsFrom(data, next)
        case Failure(e) => Failure(e)
        case Success(rest) => Success([rec] + rest)
  }

  lemma ConsEndsAtHeaderEnd(rec: TagRecord, rest: seq<TagRecord>)
    requires rec.ident != HeaderEnd && EndsAtHeaderEnd(rest)
    ensures EndsAtHeaderEnd([rec] + rest)
  {
    var all := [rec] + rest;
    forall i | 0 <= i < |all| - 1
      ensures all[i].ident != HeaderEnd
    {
      if i > 0 { assert all[i] == rest[i - 1]; }
    }
  }

  /** The walk stops right after the first entry named Header_End, and includes it. */
  lemma {:induction false} RecordsEndAtHeaderEnd(data: seq<Byte>, pos: nat)
    requires pos <= |data|
    ensures ParseRecordsFrom(data, pos).Success? ==> EndsAtHeaderEnd(ParseRecordsFrom(data, pos).value)
    decreases |data| - pos
  {
    var step := ParseRecordAt(data, pos);
    if step.Success? && step.value.0.ident != HeaderEnd {
      var next := step.value.1;
      RecordsEndAtHeaderEnd(data, next);
      var rest := ParseRecordsFrom(data, next);
      if rest.Success? {
        ConsEndsAtHeaderEnd(step.value.0, rest.value);
      }
    }
  }

  /** The whole header: magic, version, then the entries. */
  function ParseHeader(data: seq<Byte>): (r: Result<PtuHeader, ReadError>)
    ensures r.Success? ==> |data| >= 16 + 40 * |r.value.records|
  {
    var rawMagic := ReadUpTo(data, 0, 8);
    var rawVersion := ReadUpTo(data, |rawMagic|, 8);
    var records :- ParseRecordsFrom(data, |rawMagic| + |rawVersion|);
    Success(PtuHeader(StripNul(rawMagic), StripNul(rawVersion), records))
  }

  /** A header read successfully holds exactly one Header_End entry, its last. */
  lemma HeaderEndsAtHeaderEnd(data: seq<Byte>)
    ensures ParseHeader(data).Success? ==> EndsAtHeaderEnd(ParseHeader(data).value.records)
  {
    var m := |ReadUpTo(data, 0, 8)|;
    RecordsEndAtHeaderEnd(data, m + |ReadUpTo(data, m, 8)|);
  }

  /** The entries already read, followed by those still to come, or the error that ends the walk. */
  function Prepend(done: seq<TagRecord>, rest: Result<seq<TagRecord>, ReadError>): Result<seq<TagRecord>, ReadError> {
    match rest
    case Success(more) => Success(done + more)
    case Failure(e) => Failure(e)
  }

  lemma PrependTwice(a: seq<TagRecord>, b: seq<TagRecord>, rest: Result<seq<TagRecord>, ReadError>)
    ensures Prepend(a, Prepend(b, rest)) == Prepend(a + b, rest)
  {
    if rest.Success? {
      assert a + (b + rest.value) == a + b + rest.value;
    }
  }

  /** The reads of one loop iteration: identifier, index, type code, then the value. */
  method ReadRecord(data: seq<Byte>, pos: nat) returns (r: Result<(TagRecord, nat), ReadError>)
    requires pos <= |data|
    ensures r == ParseRecordAt(data, pos)
  {
    var ident := ReadUpTo(data, pos, 32);
    var index := ReadInt32(data, pos + |ident|);
    if index.Failure? {
      return Failure(Truncated);
    }
    var code := ReadInt32(data, pos + |ident| + 4);
    if code.Failure? {
      return Failure(Truncated);
    }
    var parsed := ParseValue(data, pos + |ident| + 8, code.value);
    if parsed.Failure? {
      return Failure(parsed.error);
    }
    return Success((TagRecord(StripNul(ident), index.value, parsed.value.0), parsed.value.1));
  }

  /** One step of the walk: an error ends it, Header_End closes it, any other entry is followed by the rest. */
  lemma ParseRecordsFromStep(data: seq<Byte>, pos: nat)
    requires pos <= |data|
    ensures ParseRecordAt(data, pos).Failure? ==>
              ParseRecordsFrom(data, pos) == Failure(ParseRecordAt(data, pos).error)
    ensures ParseRecordAt(data, pos).Success? && ParseRecordAt(data, pos).value.0.ident == HeaderEnd ==>
              ParseRecordsFrom(data, pos) == Success([ParseRecordAt(data, pos).value.0])
    ensures ParseRecordAt(data, pos).Success? && ParseRecordAt(data, pos).value.0.ident != HeaderEnd ==>
              ParseRecordsFrom(data, pos)
              == Prepend([ParseRecordAt(data, pos).value.0], ParseRecordsFrom(data, ParseRecordAt(data, pos).value.1))
  {
  }

  /** An entry not named Header_End is followed by the walk from where that entry ends. */
  lemma StepCons(data: seq<Byte>, pos: nat, rec: TagRecord, next: nat)
    requires pos <= |data| && ParseRecordAt(data, pos) == Success((rec, next)) && rec.ident != HeaderEnd
    ensures next <= |data|
    ensures ParseRecordsFrom(data, pos) == Prepend([rec], ParseRecordsFrom(data, next))
  {
  }

  lemma PrependNothing(rest: Result<seq<TagRecord>, ReadError>)
    ensures Prepend([], rest) == rest
  {
    if rest.Success? {
      assert [] + rest.value == rest.value;
    }
  }

  /** No entry is named Header_End. */
  predicate NoHeaderEnd(records: seq<TagRecord>) {
    forall i :: 0 <= i < |records| ==> records[i].ident != HeaderEnd
  }

  /** Entry `i` of `records` is read at `at[i]` and ends where entry `i + 1` starts, at `at[i + 1]`. */
  predicate Chained(data: seq<Byte>, records: seq<TagRecord>, at: seq<nat>) {
    && |at| == |records| + 1
    && (forall i :: 0 <= i < |at| ==> at[i] <= |data|)
    && forall i :: 0 <= i < |records| ==> ParseRecordAt(data, at[i]) == Success((records[i], at[i + 1]))
  }

  lemma ChainedTail(data: seq<Byte>, records: seq<TagRecord>, at: seq<nat>)
    requires Chained(data, records, at) && records != []
    ensures Chained(data, records[1..], at[1..])
  {
    forall i | 0 <= i < |records| - 1
      ensures ParseRecordAt(data, at[1..][i]) == Success((records[1..][i], at[1..][i + 1]))
    {
      assert ParseRecordAt(data, at[i + 1]) == Success((records[i + 1], at[i + 2]));
    }
  }

  lemma ChainedPrefix(data: seq<Byte>, records: seq<TagRecord>, at: seq<nat>, n: nat)
    requires Chained(data, records, at) && n <= |records|
    ensures Chained(data, records[..n], at[..n + 1])
  {
    forall i | 0 <= i < n
      ensures ParseRecordAt(data, at[..n + 1][i]) == Success((records[..n][i], at[..n + 1][i + 1]))
    {
      assert ParseRecordAt(data, at[i]) == Success((records[i], at[i + 1]));
    }
  }

  /**
   * Over a chain of entries none of which is named Header_End, the walk
   * returns those entries, followed by whatever it finds after the last.
   */
  lemma {:induction false} WalkChain(data: seq<Byte>, records: seq<TagRecord>, at: seq<nat>)
    requires Chained(data, records, at) && NoHeaderEnd(records)
    ensures ParseRecordsFrom(data, at[0]) == Prepend(records, ParseRecordsFrom(data, at[|records|]))
    decreases |records|
  {
    if records == [] {
      PrependNothing(ParseRecordsFrom(data, at[0]));
    } else {
      var first := records[0];
      assert first.ident != HeaderEnd;
      StepCons(data, at[0], first, at[1]);
      ChainedTail(data, records, at);
      assert NoHeaderEnd(records[1..]) by {
        forall i | 0 <= i < |records| - 1 ensures records[1..][i].ident != HeaderEnd {
          assert records[1..][i] == records[i + 1];
        }
      }
      WalkChain(data, records[1..], at[1..]);
      PrependTwice([first], records[1..], ParseRecordsFrom(data, at[|records|]));
      assert [first] + records[1..] == records;
    }
  }

  /** A chain that ends at its first Header_End is exactly what the walk returns. */
  lemma WalkToHeaderEnd(data: seq<Byte>, records: seq<TagRecord>, at: seq<nat>)
    requires Chained(data, records, at) && EndsAtHeaderEnd(records)
    ensures ParseRecordsFrom(data, at[0]) == Success(records)
  {
    var n := |records| - 1;
    ChainedPrefix(data, records, at, n);
    assert NoHeaderEnd(records[..n]);
    WalkChain(data, records[..n], at[..n + 1]);
    assert ParseRecordAt(data, at[n]) == Success((records[n], at[n + 1]));
    ParseRecordsFromStep(data, at[n]);
    assert records[..n] + [records[n]] == records;
  }

  /** A chain without Header_End followed by an entry that cannot be read ends the walk with that entry's error. */
  lemma WalkToFailure(data: seq<Byte>, records: seq<TagRecord>, at: seq<nat>)
    requires Chained(data, records, at) && NoHeaderEnd(records)
    requires ParseRecordAt(data, at[|records|]).Failure?
    ensures ParseRecordsFrom(data, at[0]) == Failure(ParseRecordAt(data, at[|records|]).error)
  {
    WalkChain(data, records, at);
    ParseRecordsFromStep(data, at[|records|]);
  }

  /** `read_ptuheader`'s `while True` loop: entry after entry, until one is named Header_End. */
  method ReadRecords(data: seq<Byte>, start: nat) returns (r: Result<seq<TagRecord>, ReadError>)
    requires start <= |data|
    ensures r == ParseRecordsFrom(data, start)
  {
    var pos := start;
    var records: seq<TagRecord> := [];
    assert Prepend([], ParseRecordsFrom(data, pos)) == ParseRecordsFrom(data, pos) by {
      if ParseRecordsFrom(data, pos).Success? { assert [] + ParseRecordsFrom(data, pos).value == ParseRecordsFrom(data, pos).value; }
    }
    while true
      invariant start <= pos <= |data|
      invariant ParseRecordsFrom(data, start) == Prepend(records, ParseRecordsFrom(data, pos))
      decreases |data| - pos
    {
      var next := ReadRecord(data, pos);
      ParseRecordsFromStep(data, pos);
      if next.Failure? {
        return Failure(next.error);
      }
      var rec := next.value.0;
      if rec.ident == HeaderEnd {
        records := records + [rec];
        return Success(records);
      }
      PrependTwice(records, [rec], ParseRecordsFrom(data, next.value.1));
      records := records + [rec];
      pos := next.value.1;
    }
  }

  /** `read_ptuheader`: magic and version, each up to eight bytes stripped of nuls, then the entries. */
  method ReadHeader(data: seq<Byte>) returns (r: Result<PtuHeader, ReadError>)
    ensures r == ParseHeader(data)
  {
    var raw := ReadUpTo(data, 0, 8);
    var magic := StripNul(raw);
    var pos := |raw|;
    raw := ReadUpTo(data, pos, 8);
    var version := StripNul(raw);
    pos := pos + |raw|;
    var records := ReadRecords(data, pos);
    if records.Failure? {
      return Failure(records.error);
    }
    return Success(PtuHeader(magic, version, records.value));
  }
}
