/**
 * The walk `convert_pt2_to_ptu` (pt2_to_ptu.py) makes over a `.pt2` file,
 * read by read: short text reads are tolerated, a `struct.unpack` on a
 * short read fails. Each stage is proved against the fixed-offset layout
 * in `Pt2Layout`, and the whole walk succeeds exactly on complete files,
 * where it gives `Layout`.
 */
module Pt2Reader {
  import opened Bytes
  import opened Unpack
  import opened Pt2Layout

  /** The walker's running state: file position, the `tagIdx` list and the `header_description` dictionary. */
  datatype Walk = Walk(pos: nat, tagIdx: seq<Field>, description: map<Name, Field>)

  /** `f.read(n).decode().strip('\0')` at `pos`: at most `n` bytes, fewer at end of file. */
  method ReadText(data: seq<Byte>, pos: nat, n: nat) returns (text: seq<Byte>, next: nat)
    requires pos <= |data|
    ensures next == Min(pos + n, |data|)
    ensures text == StripNul(data[pos..next])
  {
    var raw := ReadUpTo(data, pos, n);
    text := StripNul(raw);
    next := pos + |raw|;
  }

  /**
   * The seven leading text fields (a short file gives short texts, not an
   * error); the file time is recorded as File_CreatingTime.
   */
  method ReadTexts(data: seq<Byte>) returns (texts: seq<seq<Byte>>, w: Walk)
    ensures |texts| == 7
    ensures w == Walk(Min(ItemsStart, |data|), [], map[File_CreatingTime := Text(texts[4])])
    ensures |data| >= ItemsStart ==> texts == Texts(data)
  {
    var ident, pos := ReadText(data, 0, 16);
    var formatVersion, creatorName, creatorVersion, fileTime, crlf, comment;
    formatVersion, pos := ReadText(data, pos, 6);
    creatorName, pos := ReadText(data, pos, 18);
    creatorVersion, pos := ReadText(data, pos, 12);
    fileTime, pos := ReadText(data, pos, 18);
    crlf, pos := ReadText(data, pos, 2);
    comment, pos := ReadText(data, pos, 256);
    texts := [ident, formatVersion, creatorName, creatorVersion, fileTime, crlf, comment];
    w := Walk(pos, [], map[File_CreatingTime := Text(fileTime)]);
    if |data| >= ItemsStart {
      TextsAt(data);
    }
  }

  /** Reading value `j` extends the values read so far and their assignments by one. */
  lemma IntStep(data: seq<Byte>, s: nat, m: map<Name, Field>, names: seq<Name>, j: nat)
    requires j < |names| && s + 4 * (j + 1) <= |data|
    ensures IntFields(data, s, j + 1) == IntFields(data, s, j) + [Int(I32At(data, s + 4 * j))]
    ensures Assign(m, names[..j + 1], IntFields(data, s, j + 1))
         == Assign(m, names[..j], IntFields(data, s, j))[names[j] := Int(I32At(data, s + 4 * j))]
  {
    var x := Int(I32At(data, s + 4 * j));
    assert IntFields(data, s, j + 1) == IntFields(data, s, j) + [x];
    assert names[..j + 1] == names[..j] + [names[j]];
    AssignSnoc(m, names[..j], IntFields(data, s, j), names[j], x);
  }

  /** One `<i` item: appended to `tagIdx` and recorded under `name`. */
  method ReadItem(data: seq<Byte>, w: Walk, name: Name) returns (r: Result<Walk, ReadError>)
    requires w.pos <= |data|
    ensures r.Success? <==> w.pos + 4 <= |data|
    ensures r.Failure? ==> r.error == Truncated
    ensures r.Success? ==> var x := Int(I32At(data, w.pos));
      r.value == Walk(w.pos + 4, w.tagIdx + [x], w.description[name := x])
  {
    var x :- ReadInt32(data, w.pos);
    return Success(Walk(w.pos + 4, w.tagIdx + [Int(x)], w.description[name := Int(x)]));
  }

  /**
   * The eighteen leading `<i` items, each appended to `tagIdx` and recorded
   * under its name from `names`; the one named Numberofboards, the fourth,
   * is kept as the board count. The file must hold all eighteen.
   */
  method ReadItems(data: seq<Byte>, w: Walk, names: seq<Name>) returns (r: Result<Walk, ReadError>, boards: Int32)
    requires w.pos <= |data| && |names| == 18
    requires names[3] == Numberofboards
    requires forall j :: 0 <= j < 18 && j != 3 ==> names[j] != Numberofboards
    ensures r.Success? <==> w.pos + 72 <= |data|
    ensures r.Failure? ==> r.error == Truncated
    ensures r.Success? ==>
      r.value == Walk(w.pos + 72, w.tagIdx + IntFields(data, w.pos, 18), Assign(w.description, names, IntFields(data, w.pos, 18)))
    ensures r.Success? ==> boards == I32At(data, w.pos + 12)
  {
    var v := w;
    boards := 0;
    for j := 0 to |names|
      invariant w.pos + 4 * j <= |data|
      invariant v == Walk(w.pos + 4 * j, w.tagIdx + IntFields(data, w.pos, j),
        Assign(w.description, names[..j], IntFields(data, w.pos, j)))
      invariant boards == if j > 3 then I32At(data, w.pos + 12) else 0
    {
      ghost var before := v;
      v :- ReadItem(data, v, names[j]);
      IntStep(data, w.pos, w.description, names, j);
      if names[j] == Numberofboards {
        boards := v.tagIdx[|v.tagIdx| - 1].value;
        assert boards == I32At(data, before.pos) by {
          assert v.tagIdx == before.tagIdx + [Int(I32At(data, before.pos))];
        }
      }
    }
    assert names[..18] == names;
    return Success(v), boards;
  }

  /** The nine T2 items, each appended to `tagIdx` and recorded under its name from `names`. */
  method ReadT2(data: seq<Byte>, w: Walk, names: seq<Name>) returns (r: Result<Walk, ReadError>)
    requires w.pos <= |data| && |names| == 9
    ensures r.Success? <==> w.pos + 36 <= |data|
    ensures r.Failure? ==> r.error == Truncated
    ensures r.Success? ==>
      r.value == Walk(w.pos + 36, w.tagIdx + IntFields(data, w.pos, 9), Assign(w.description, names, IntFields(data, w.pos, 9)))
  {
    var v := w;
    for j := 0 to |names|
      invariant w.pos + 4 * j <= |data|
      invariant v == Walk(w.pos + 4 * j, w.tagIdx + IntFields(data, w.pos, j),
        Assign(w.description, names[..j], IntFields(data, w.pos, j)))
    {
      v :- ReadItem(data, v, names[j]);
      IntStep(data, w.pos, w.description, names, j);
    }
    assert names[..9] == names;
    return Success(v);
  }

  /**
   * The curve and repeat settings, unpacked and discarded: eight pairs of
   * `<i`, three triples of `<f` and four `<i`; then the script name, a
   * 20-byte text read that may come back short.
   */
  method SkipSettings(data: seq<Byte>, start: nat) returns (r: Result<(seq<Byte>, nat), ReadError>)
    requires start <= |data|
    ensures r.Success? <==> start + 116 <= |data|
    ensures r.Failure? ==> r.error == Truncated
    ensures r.Success? ==> r.value.1 == Min(start + 136, |data|)
    ensures r.Success? ==> r.value.0 == StripNul(data[start + 116..r.value.1])
  {
    var pos := start;
    for j := 0 to 8
      invariant pos == start + 8 * j <= |data|
    {
      var mapTo :- ReadInt32(data, pos);
      pos := pos + 4;
      var displayCurve :- ReadInt32(data, pos);
      pos := pos + 4;
    }
    for j := 0 to 3
      invariant pos == start + 64 + 12 * j <= |data|
    {
      var first :- ReadFloat32(data, pos);
      pos := pos + 4;
      var step :- ReadFloat32(data, pos);
      pos := pos + 4;
      var last :- ReadFloat32(data, pos);
      pos := pos + 4;
    }
    var repeatMode :- ReadInt32(data, pos);
    pos := pos + 4;
    var repeatsPerCurve :- ReadInt32(data, pos);
    pos := pos + 4;
    var repeatTime :- ReadInt32(data, pos);
    pos := pos + 4;
    var repeatWaitTime :- ReadInt32(data, pos);
    pos := pos + 4;
    var scriptName;
    scriptName, pos := ReadText(data, pos, 20);
    return Success((scriptName, pos));
  }

  /**
   * The eleven kept values of a board record: two texts (16 and 8 bytes),
   * six `<i`, a `<f` and two `<i`. The file must hold all 60 bytes.
   */
  method ReadBoardValues(data: seq<Byte>, s: nat) returns (r: Result<seq<Field>, ReadError>)
    requires s <= |data|
    ensures r.Success? <==> s + 60 <= |data|
    ensures r.Failure? ==> r.error == Truncated
    ensures r.Success? ==> r.value == BoardAt(data, s)
  {
    var hardwareIdent, pos := ReadText(data, s, 16);
    var hardwareVersion;
    hardwareVersion, pos := ReadText(data, pos, 8);
    var i0 :- ReadInt32(data, pos);
    var i1 :- ReadInt32(data, pos + 4);
    var i2 :- ReadInt32(data, pos + 8);
    var i3 :- ReadInt32(data, pos + 12);
    var i4 :- ReadInt32(data, pos + 16);
    var i5 :- ReadInt32(data, pos + 20);
    var resolution :- ReadFloat32(data, pos + 24);
    var i7 :- ReadInt32(data, pos + 28);
    var i8 :- ReadInt32(data, pos + 32);
    BoardAtValues(data, s);
    var fields := [
      Text(hardwareIdent), Text(hardwareVersion),
      Int(i0), Int(i1), Int(i2), Int(i3), Int(i4), Int(i5),
      Float(resolution), Int(i7), Int(i8)];
    return Success(fields);
  }

  /** The four channel records of a board, six `<i` each, unpacked and discarded. */
  method SkipChannels(data: seq<Byte>, start: nat) returns (r: Result<nat, ReadError>)
    requires start <= |data|
    ensures r.Success? <==> start + 96 <= |data|
    ensures r.Failure? ==> r.error == Truncated
    ensures r.Success? ==> r.value == start + 96
  {
    var pos := start;
    for j := 0 to 4
      invariant pos == start + 24 * j <= |data|
    {
      var inputType :- ReadInt32(data, pos);
      var inputLevel :- ReadInt32(data, pos + 4);
      var inputEdge :- ReadInt32(data, pos + 8);
      var cfdPresent :- ReadInt32(data, pos + 12);
      var cfdLevel :- ReadInt32(data, pos + 16);
      var cfdZeroCross :- ReadInt32(data, pos + 20);
      pos := pos + 24;
    }
    return Success(pos);
  }

  /** One board: its record of kept values, then its channel records. The file must hold all 156 bytes. */
  method ReadBoard(data: seq<Byte>, s: nat) returns (r: Result<seq<Field>, ReadError>)
    requires s <= |data|
    ensures r.Success? <==> s + 156 <= |data|
    ensures r.Failure? ==> r.error == Truncated
    ensures r.Success? ==> r.value == BoardAt(data, s)
  {
    var fields :- ReadBoardValues(data, s);
    var pos :- SkipChannels(data, s + 60);
    return Success(fields);
  }

  /** Reading board `j` extends the board values read so far and their assignments by one board. */
  lemma BoardStep(data: seq<Byte>, s: nat, m: map<Name, Field>, names: seq<Name>, j: nat)
    requires |names| == 11 && s + 156 * (j + 1) <= |data|
    ensures BoardFields(data, s, j + 1) == BoardFields(data, s, j) + BoardAt(data, s + 156 * j)
    ensures Assign(m, Repeat(names, j + 1), BoardFields(data, s, j + 1))
         == Assign(Assign(m, Repeat(names, j), BoardFields(data, s, j)), names, BoardAt(data, s + 156 * j))
  {
    AssignAppend(m, Repeat(names, j), BoardFields(data, s, j), names, BoardAt(data, s + 156 * j));
  }

  /**
   * `for j in range(numberofboards)`: each board's values appended to
   * `tagIdx` and recorded under the board names, so that a later board's
   * values replace an earlier one's: `names` are the eleven board names. A count of zero or less reads
   * nothing.
   */
  method ReadBoards(data: seq<Byte>, w: Walk, boards: Int32, names: seq<Name>) returns (r: Result<Walk, ReadError>)
    requires w.pos <= |data| && |names| == 11
    ensures r.Success? <==> w.pos + 156 * Max(boards, 0) <= |data|
    ensures r.Failure? ==> r.error == Truncated
    ensures r.Success? ==> r.value == Walk(
      w.pos + 156 * Max(boards, 0),
      w.tagIdx + BoardFields(data, w.pos, Max(boards, 0)),
      Assign(w.description, Repeat(names, Max(boards, 0)), BoardFields(data, w.pos, Max(boards, 0))))
  {
    var pos := w.pos;
    var tagIdx := w.tagIdx;
    var description := w.description;
    var j: int := 0;
    while j < boards
      invariant 0 <= j <= Max(boards, 0)
      invariant pos == w.pos + 156 * j <= |data|
      invariant tagIdx == w.tagIdx + BoardFields(data, w.pos, j)
      invariant description == Assign(w.description, Repeat(names, j), BoardFields(data, w.pos, j))
    {
      var board :- ReadBoard(data, pos);
      BoardStep(data, w.pos, w.description, names, j);
      tagIdx := tagIdx + board;
      description := Assign(description, names, board);
      pos := pos + 156;
      j := j + 1;
    }
    return Success(Walk(pos, tagIdx, description));
  }

  /** `for j in range(Imghdrsize)`: reserved `<L` words, unpacked and discarded; a count of zero or less reads none. */
  method SkipReserved(data: seq<Byte>, start: nat, count: Int32) returns (r: Result<nat, ReadError>)
    requires start <= |data|
    ensures r.Success? <==> start + 4 * Max(count, 0) <= |data|
    ensures r.Failure? ==> r.error == Truncated
    ensures r.Success? ==> r.value == start + 4 * Max(count, 0)
  {
    var pos := start;
    var j: int := 0;
    while j < count
      invariant 0 <= j <= Max(count, 0)
      invariant pos == start + 4 * j <= |data|
    {
      var reserved :- ReadUInt32(data, pos);
      pos := pos + 4;
      j := j + 1;
    }
    return Success(pos);
  }

  /** What the stages give on a complete file, assembled, is its layout. */
  lemma WalkLayout(data: seq<Byte>, texts: seq<seq<Byte>>, scriptName: seq<Byte>, w: Walk)
    requires Complete(data) && |texts| == 7
    requires texts == Texts(data) && scriptName == StripNul(data[ScriptStart..BoardsStart])
    requires var n: nat := Max(Boards(data), 0);
      && w.tagIdx == [] + IntFields(data, ItemsStart, 18) + BoardFields(data, BoardsStart, n)
                        + IntFields(data, T2Start(Boards(data)), 9)
      && w.description == Assign(Assign(Assign(
           map[File_CreatingTime := Text(texts[4])],
           DataItems, IntFields(data, ItemsStart, 18)),
           Repeat(BoardItems, n), BoardFields(data, BoardsStart, n)),
           T2Items, IntFields(data, T2Start(Boards(data)), 9))
    requires w.pos == PayloadStart(data)
    ensures Pt2File(texts, scriptName, w.tagIdx, w.description, data[w.pos..]) == Layout(data)
  {
    DescriptionInRuns(data);
    assert [] + IntFields(data, ItemsStart, 18) == IntFields(data, ItemsStart, 18);
  }

  /**
   * The fixed-size front of the file: the texts, the leading items, the
   * settings and the script name. It needs the file to reach the script
   * name; the script name itself may be cut short.
   */
  method ReadFront(data: seq<Byte>, names: seq<Name>) returns (r: Result<(seq<seq<Byte>>, seq<Byte>, Walk, Int32), ReadError>)
    requires |names| == 18
    requires names[3] == Numberofboards
    requires forall j :: 0 <= j < 18 && j != 3 ==> names[j] != Numberofboards
    ensures r.Success? <==> |data| >= ScriptStart
    ensures r.Failure? ==> r.error == Truncated
    ensures r.Success? ==> var (texts, scriptName, w, boards) := r.value;
      && texts == Texts(data)
      && scriptName == StripNul(data[ScriptStart..Min(BoardsStart, |data|)])
      && w == Walk(
           Min(BoardsStart, |data|),
           [] + IntFields(data, ItemsStart, 18),
           Assign(map[File_CreatingTime := Text(texts[4])], names, IntFields(data, ItemsStart, 18)))
      && boards == Boards(data)
  {
    var texts, w := ReadTexts(data);
    var items, boards := ReadItems(data, w, names);
    if items.Failure? {
      return Failure(items.error);
    }
    w := items.value;
    var settings :- SkipSettings(data, w.pos);
    w := w.(pos := settings.1);
    return Success((texts, settings.0, w, boards));
  }

  /**
   * The T2 items, then as many reserved words as the last of them,
   * `Imghdrsize`, says.
   */
  method ReadTrailer(data: seq<Byte>, w: Walk, names: seq<Name>) returns (r: Result<Walk, ReadError>)
    requires w.pos <= |data| && |names| == 9
    ensures r.Success? <==>
      w.pos + 36 <= |data| && w.pos + 36 + 4 * Max(I32At(data, w.pos + 32), 0) <= |data|
    ensures r.Failure? ==> r.error == Truncated
    ensures r.Success? ==>
      && r.value.pos == w.pos + 36 + 4 * Max(I32At(data, w.pos + 32), 0)
      && r.value.tagIdx == w.tagIdx + IntFields(data, w.pos, 9)
      && r.value.description == Assign(w.description, names, IntFields(data, w.pos, 9))
  {
    var v :- ReadT2(data, w, names);
    assert v.tagIdx[|v.tagIdx| - 1] == IntFields(data, w.pos, 9)[8];
    var imghdrsize := v.tagIdx[|v.tagIdx| - 1].value;
    var pos :- SkipReserved(data, v.pos, imghdrsize);
    return Success(v.(pos := pos));
  }

  /**
   * The variable-size rest of the header: the boards, then the trailer.
   * With the front read, it succeeds exactly on a complete file, and then
   * ends where the payload starts.
   */
  method ReadRest(data: seq<Byte>, w: Walk, boards: Int32) returns (r: Result<Walk, ReadError>)
    requires |data| >= ScriptStart && w.pos == Min(BoardsStart, |data|) && boards == Boards(data)
    ensures r.Success? <==> Complete(data)
    ensures r.Failure? ==> r.error == Truncated
    ensures r.Success? ==> var n: nat := Max(boards, 0);
      && r.value.pos == PayloadStart(data)
      && r.value.tagIdx == w.tagIdx + BoardFields(data, BoardsStart, n) + IntFields(data, T2Start(boards), 9)
      && r.value.description == Assign(Assign(w.description,
           Repeat(BoardItems, n), BoardFields(data, BoardsStart, n)),
           T2Items, IntFields(data, T2Start(boards), 9))
  {
    if |data| < BoardsStart {
      var v := ReadBoards(data, w, boards, BoardItems);
      if v.Failure? { return Failure(v.error); }
      r := ReadTrailer(data, v.value, T2Items);
      return;
    }
    var v :- ReadBoards(data, w, boards, BoardItems);
    assert v.pos == T2Start(boards);
    r := ReadTrailer(data, v, T2Items);
  }

  /**
   * `convert_pt2_to_ptu` up to the payload: the front and the rest of the
   * header, then the rest of the file as the payload. The walk succeeds
   * exactly on a complete file, and then gives its layout.
   */
  method ReadPt2(data: seq<Byte>) returns (r: Result<Pt2File, ReadError>)
    ensures r.Success? <==> Complete(data)
    ensures r.Failure? ==> r.error == Truncated
    ensures r.Success? ==> r.value == Layout(data)
  {
    ItemPositions();
    var front :- ReadFront(data, DataItems);
    var (texts, scriptName, w, boards) := front;
    w :- ReadRest(data, w, boards);
    var timetags := ReadUpTo(data, w.pos, -1);
    WalkLayout(data, texts, scriptName, w);
    return Success(Pt2File(texts, scriptName, w.tagIdx, w.description, timetags));
  }
}
