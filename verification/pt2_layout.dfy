/**
 * The layout of a legacy PicoHarp `.pt2` file as `convert_pt2_to_ptu`
 * (pt2_to_ptu.py) walks it, stated at fixed offsets: seven text fields
 * (328 bytes), eighteen `<i` items, the curve and repeat settings and the
 * script name (536 bytes in all), then one 156-byte record per board, nine
 * `<i` T2 items (36 bytes), `Imghdrsize` reserved 4-byte words, and the
 * event payload, which is the rest of the file.
 */
module Pt2Layout {
  import opened Bytes

  /** A value the walker records: stripped text, a `<i` integer or an opaque `<f` float. */
  datatype Field = Text(text: seq<Byte>) | Int(value: Int32) | Float(bits: Bits32)

  /**
   * The keys of `convert_pt2_to_ptu`'s `header_description` dictionary, one
   * constructor per distinct key string (`SyncDivider` is "Sync divider").
   */
  datatype Name =
    | File_CreatingTime
    | Numberofcurves | Bitsperrecord | Routingchannels | Numberofboards
    | Activecurve | Measurementmode | Submode | Rangeno | Offset | Acquisitiontime_ms
    | Stopat | Stoponovfl | Restart | Displaylinlog | Displaytimeaxisfrom
    | Displaytimeaxisto | Displaycountaxisfrom | Displaycountaxisto
    | Extdevices | Reserved | Inprate0 | Inprate1 | Stopafter_ms | Stopreason | Numrecords | Imghdrsize
    | Hardwareident | Hardwareversion | Hardwareserial | SyncDivider | CFDzerocross0 | CFDlevel0
    | CFDzerocross1 | CFDlevel1 | Resolution_ns | Routermodelcode | Routermodelenabled

  /** The names under which the eighteen leading `<i` items are recorded. */
  const DataItems: seq<Name> := [
    Numberofcurves, Bitsperrecord, Routingchannels, Numberofboards,
    Activecurve, Measurementmode, Submode, Rangeno, Offset, Acquisitiontime_ms,
    Stopat, Stoponovfl, Restart, Displaylinlog, Displaytimeaxisfrom,
    Displaytimeaxisto, Displaycountaxisfrom, Displaycountaxisto]

  /** The names of the nine T2 items; Reserved occurs twice. */
  const T2Items: seq<Name> := [
    Extdevices, Reserved, Reserved, Inprate0,
    Inprate1, Stopafter_ms, Stopreason, Numrecords, Imghdrsize]

  /** The names of the eleven values recorded for a board. */
  const BoardItems: seq<Name> := [
    Hardwareident, Hardwareversion, Hardwareserial,
    SyncDivider, CFDzerocross0, CFDlevel0,
    CFDzerocross1, CFDlevel1, Resolution_ns,
    Routermodelcode, Routermodelenabled]

  /** Widths of the seven leading text fields: ident, format version, creator name and version, file time, CR/LF, comment. */
  const TextWidths: seq<nat> := [16, 6, 18, 12, 18, 2, 256]

  /** Where text field `i` starts; `TextOffset(7)` is where the texts end. */
  function TextOffset(i: nat): nat
    requires i <= 7
  {
    if i == 0 then 0 else TextOffset(i - 1) + TextWidths[i - 1]
  }

  const ItemsStart: nat := 328
  /** Eight (map-to, display) pairs, three (start, step, end) float triples and four repeat settings. */
  const SettingsStart: nat := 400
  const ScriptStart: nat := 516
  const BoardsStart: nat := 536

  /** Where each text field starts; the seven fill 328 bytes. */
  lemma TextRegion()
    ensures TextOffset(1) == 16 && TextOffset(2) == 22 && TextOffset(3) == 40
    ensures TextOffset(4) == 52 && TextOffset(5) == 70 && TextOffset(6) == 72
    ensures TextOffset(7) == ItemsStart
  {
    assert TextOffset(4) == 52;
  }

  /** `struct.unpack("<i", ...)` at a known-good offset. */
  function I32At(data: seq<Byte>, off: nat): Int32
    requires off + 4 <= |data|
  {
    DecodeI32(data[off..off + 4])
  }

  /** The board count is the fourth leading item. */
  function Boards(data: seq<Byte>): Int32
    requires |data| >= ItemsStart + 16
  {
    I32At(data, ItemsStart + 12)
  }

  /**
   * Where the T2 items start: each board takes 156 bytes (a 60-byte board
   * record and four 24-byte channel records), and a negative board count
   * gives no board records.
   */
  function T2Start(boards: int): nat {
    BoardsStart + 156 * Max(boards, 0)
  }

  /** `Imghdrsize`, the last T2 item. */
  function Imghdr(data: seq<Byte>): Int32
    requires |data| >= BoardsStart && |data| >= T2Start(Boards(data)) + 36
  {
    I32At(data, T2Start(Boards(data)) + 32)
  }

  /** Where the event payload starts: after the T2 items and the reserved words, of which a negative count gives none. */
  function PayloadStart(data: seq<Byte>): (p: nat)
    requires |data| >= BoardsStart && |data| >= T2Start(Boards(data)) + 36
    ensures p >= T2Start(Boards(data)) + 36
    ensures Imghdr(data) <= 0 ==> p == T2Start(Boards(data)) + 36
  {
    T2Start(Boards(data)) + 36 + 4 * Max(Imghdr(data), 0)
  }

  /** The file holds every region the walker unpacks. */
  predicate Complete(data: seq<Byte>): (b: bool)
    ensures b ==> |data| >= BoardsStart + 36
    ensures |data| >= BoardsStart && |data| >= T2Start(Boards(data)) + 36 ==> (b <==> PayloadStart(data) <= |data|)
  {
    && |data| >= BoardsStart
    && |data| >= T2Start(Boards(data)) + 36
    && |data| >= PayloadStart(data)
  }

  /** Text field `i`, stripped of nuls. */
  function TextField(data: seq<Byte>, i: nat): seq<Byte>
    requires i < 7 && TextOffset(i + 1) <= |data|
  {
    StripNul(data[TextOffset(i)..TextOffset(i + 1)])
  }

  function Texts(data: seq<Byte>): (texts: seq<seq<Byte>>)
    requires |data| >= ItemsStart
    ensures |texts| == 7
  {
    TextRegion();
    seq(7, i requires 0 <= i < 7 => TextField(data, i))
  }

  /** The seven texts at their offsets. */
  lemma TextsAt(data: seq<Byte>)
    requires |data| >= ItemsStart
    ensures Texts(data) == [
      StripNul(data[0..16]), StripNul(data[16..22]), StripNul(data[22..40]), StripNul(data[40..52]),
      StripNul(data[52..70]), StripNul(data[70..72]), StripNul(data[72..328])]
  {
    TextRegion();
  }

  /** `n` consecutive `<i` values from `s`: the leading items and the T2 items. */
  function IntFields(data: seq<Byte>, s: nat, n: nat): (fields: seq<Field>)
    requires s + 4 * n <= |data|
    ensures |fields| == n
  {
    seq(n, k requires 0 <= k < n => Int(I32At(data, s + 4 * k)))
  }

  /**
   * Value `k` of the board record at `s`: two texts (16 and 8 bytes), six
   * `<i`, one `<f`, two `<i`.
   */
  function BoardValue(data: seq<Byte>, s: nat, k: nat): Field
    requires s + 60 <= |data| && k < 11
  {
    if k == 0 then Text(StripNul(data[s..s + 16]))
    else if k == 1 then Text(StripNul(data[s + 16..s + 24]))
    else if k == 8 then Float(data[s + 48..s + 52])
    else Int(I32At(data, s + 16 + 4 * k))
  }

  /** The eleven values of the board record at `s`. */
  function BoardAt(data: seq<Byte>, s: nat): (fields: seq<Field>)
    requires s + 60 <= |data|
    ensures |fields| == 11
  {
    seq(11, k requires 0 <= k < 11 => BoardValue(data, s, k))
  }

  /** The board record at `s`, value by value. */
  lemma BoardAtValues(data: seq<Byte>, s: nat)
    requires s + 60 <= |data|
    ensures BoardAt(data, s) == [
      Text(StripNul(data[s..s + 16])), Text(StripNul(data[s + 16..s + 24])),
      Int(I32At(data, s + 24)), Int(I32At(data, s + 28)), Int(I32At(data, s + 32)),
      Int(I32At(data, s + 36)), Int(I32At(data, s + 40)), Int(I32At(data, s + 44)),
      Float(data[s + 48..s + 52]), Int(I32At(data, s + 52)), Int(I32At(data, s + 56))]
  {
  }

  /** The values of `n` boards from `s`, board by board. */
  function BoardFields(data: seq<Byte>, s: nat, n: nat): (fields: seq<Field>)
    requires s + 156 * n <= |data|
    ensures |fields| == 11 * n
  {
    if n == 0 then [] else BoardFields(data, s, n - 1) + BoardAt(data, s + 156 * (n - 1))
  }

  /** `n` copies of `s`, one after the other. */
  function Repeat<T>(s: seq<T>, n: nat): (r: seq<T>)
    ensures |r| == |s| * n
  {
    if n == 0 then [] else Repeat(s, n - 1) + s
  }

  /** Dictionary assignments `m[keys[i]] = vals[i]`, in order. */
  function Assign(m: map<Name, Field>, keys: seq<Name>, vals: seq<Field>): map<Name, Field>
    requires |keys| == |vals|
    decreases keys
  {
    if keys == [] then m else Assign(m[keys[0] := vals[0]], keys[1..], vals[1..])
  }

  /** The values the walker appends to its `tagIdx` list, in file order. */
  function TagIdx(data: seq<Byte>): (vals: seq<Field>)
    requires Complete(data)
    ensures |vals| == 18 + 11 * Max(Boards(data), 0) + 9
  {
    IntFields(data, ItemsStart, 18) + BoardFields(data, BoardsStart, Max(Boards(data), 0)) + IntFields(data, T2Start(Boards(data)), 9)
  }

  /** The names under which those values are recorded, in the same order. */
  function Keys(boards: nat): (keys: seq<Name>)
    ensures |keys| == 18 + 11 * boards + 9
  {
    DataItems + Repeat(BoardItems, boards) + T2Items
  }

  /**
   * The `header_description` dictionary of a complete file: the file time,
   * then every `tagIdx` value under its name, later assignments replacing
   * earlier ones.
   */
  function Description(data: seq<Byte>): map<Name, Field>
    requires Complete(data)
  {
    Assign(map[File_CreatingTime := Text(TextField(data, 4))], Keys(Max(Boards(data), 0)), TagIdx(data))
  }

  /** What the walk of a complete file gives. */
  datatype Pt2File = Pt2File(
    texts: seq<seq<Byte>>,
    scriptName: seq<Byte>,
    tagIdx: seq<Field>,
    description: map<Name, Field>,
    payload: seq<Byte>)

  /**
   * The walk of a complete file at the fixed offsets: the texts, the script
   * name, the `tagIdx` values, the `header_description` dictionary and the
   * payload.
   */
  function Layout(data: seq<Byte>): (f: Pt2File)
    requires Complete(data)
    ensures |f.texts| == 7 && |f.tagIdx| == 27 + 11 * Max(Boards(data), 0)
    ensures |f.payload| == |data| - PayloadStart(data)
  {
    Pt2File(
      Texts(data),
      StripNul(data[ScriptStart..BoardsStart]),
      TagIdx(data),
      Description(data),
      data[PayloadStart(data)..])
  }

  /** Assigning a run of keys adds exactly those keys. */
  lemma {:induction false} AssignKeys(m: map<Name, Field>, keys: seq<Name>, vals: seq<Field>)
    requires |keys| == |vals|
    ensures Assign(m, keys, vals).Keys == m.Keys + (set k | k in keys)
    decreases keys
  {
    if keys != [] {
      AssignKeys(m[keys[0] := vals[0]], keys[1..], vals[1..]);
      assert (set k | k in keys) == {keys[0]} + (set k | k in keys[1..]) by {
        forall k | k in keys ensures k == keys[0] || k in keys[1..] {
          var i :| 0 <= i < |keys| && keys[i] == k;
          if i > 0 { assert keys[1..][i - 1] == k; }
        }
      }
    }
  }

  /** The dictionary holds the file time and every name the walker records, and nothing else. */
  lemma DescriptionKeys(data: seq<Byte>)
    requires Complete(data)
    ensures Description(data).Keys == {File_CreatingTime} + (set k | k in Keys(Max(Boards(data), 0)))
  {
    AssignKeys(map[File_CreatingTime := Text(TextField(data, 4))], Keys(Max(Boards(data), 0)), TagIdx(data));
  }

  /** Assigning a run of keys none of which is `k` leaves `k` as it was. */
  lemma {:induction false} AssignUntouched(m: map<Name, Field>, keys: seq<Name>, vals: seq<Field>, k: Name)
    requires |keys| == |vals| && forall j :: 0 <= j < |keys| ==> keys[j] != k
    ensures k in Assign(m, keys, vals) <==> k in m
    ensures k in m ==> Assign(m, keys, vals)[k] == m[k]
    decreases keys
  {
    if keys != [] {
      assert k != keys[0];
      assert forall j :: 0 <= j < |keys| - 1 ==> keys[1..][j] == keys[j + 1];
      AssignUntouched(m[keys[0] := vals[0]], keys[1..], vals[1..], k);
    }
  }

  /** A key holds the value of its last assignment. */
  lemma {:induction false} AssignLast(m: map<Name, Field>, keys: seq<Name>, vals: seq<Field>, i: nat)
    requires |keys| == |vals| && i < |keys|
    requires forall j :: i < j < |keys| ==> keys[j] != keys[i]
    ensures keys[i] in Assign(m, keys, vals) && Assign(m, keys, vals)[keys[i]] == vals[i]
    decreases keys
  {
    var m' := m[keys[0] := vals[0]];
    assert forall j :: 0 <= j < |keys| - 1 ==> keys[1..][j] == keys[j + 1];
    if i == 0 {
      AssignUntouched(m', keys[1..], vals[1..], keys[0]);
    } else {
      assert vals[1..][i - 1] == vals[i];
      AssignLast(m', keys[1..], vals[1..], i - 1);
    }
  }

  /** Assignments in two runs are the assignments of the joined run. */
  lemma {:induction false} AssignAppend(m: map<Name, Field>, keys: seq<Name>, vals: seq<Field>, keys': seq<Name>, vals': seq<Field>)
    requires |keys| == |vals| && |keys'| == |vals'|
    ensures Assign(m, keys + keys', vals + vals') == Assign(Assign(m, keys, vals), keys', vals')
    decreases keys
  {
    if keys != [] {
      assert (keys + keys')[1..] == keys[1..] + keys';
      assert (vals + vals')[1..] == vals[1..] + vals';
      AssignAppend(m[keys[0] := vals[0]], keys[1..], vals[1..], keys', vals');
    } else {
      assert keys + keys' == keys' && vals + vals' == vals';
    }
  }

  /** One more assignment at the end of a run. */
  lemma AssignSnoc(m: map<Name, Field>, keys: seq<Name>, vals: seq<Field>, k: Name, v: Field)
    requires |keys| == |vals|
    ensures Assign(m, keys + [k], vals + [v]) == Assign(m, keys, vals)[k := v]
  {
    AssignAppend(m, keys, vals, [k], [v]);
    assert Assign(Assign(m, keys, vals), [k], [v]) == Assign(Assign(m, keys, vals)[k := v], [], []);
  }

  /** Which list a name comes from: 0 the file time, 1 the leading items, 2 the board values, 3 the T2 items. */
  function Group(x: Name): nat {
    match x
    case File_CreatingTime => 0
    case Numberofcurves | Bitsperrecord | Routingchannels | Numberofboards
       | Activecurve | Measurementmode | Submode | Rangeno | Offset | Acquisitiontime_ms
       | Stopat | Stoponovfl | Restart | Displaylinlog | Displaytimeaxisfrom
       | Displaytimeaxisto | Displaycountaxisfrom | Displaycountaxisto => 1
    case Hardwareident | Hardwareversion | Hardwareserial | SyncDivider | CFDzerocross0 | CFDlevel0
       | CFDzerocross1 | CFDlevel1 | Resolution_ns | Routermodelcode | Routermodelenabled => 2
    case _ => 3
  }

  /** The position of a name in its list; for Reserved, its later position. */
  function Position(x: Name): nat {
    match x
    case File_CreatingTime => 0
    case Numberofcurves => 0
    case Bitsperrecord => 1
    case Routingchannels => 2
    case Numberofboards => 3
    case Activecurve => 4
    case Measurementmode => 5
    case Submode => 6
    case Rangeno => 7
    case Offset => 8
    case Acquisitiontime_ms => 9
    case Stopat => 10
    case Stoponovfl => 11
    case Restart => 12
    case Displaylinlog => 13
    case Displaytimeaxisfrom => 14
    case Displaytimeaxisto => 15
    case Displaycountaxisfrom => 16
    case Displaycountaxisto => 17
    case Hardwareident => 0
    case Hardwareversion => 1
    case Hardwareserial => 2
    case SyncDivider => 3
    case CFDzerocross0 => 4
    case CFDlevel0 => 5
    case CFDzerocross1 => 6
    case CFDlevel1 => 7
    case Resolution_ns => 8
    case Routermodelcode => 9
    case Routermodelenabled => 10
    case Extdevices => 0
    case Reserved => 2
    case Inprate0 => 3
    case Inprate1 => 4
    case Stopafter_ms => 5
    case Stopreason => 6
    case Numrecords => 7
    case Imghdrsize => 8
  }

  /** The leading item names are distinct and belong to no other list. */
  lemma ItemPositions()
    ensures forall j :: 0 <= j < 18 ==> Group(DataItems[j]) == 1 && Position(DataItems[j]) == j
  {
  }

  /** The board names are distinct and belong to no other list. */
  lemma BoardPositions()
    ensures forall k :: 0 <= k < 11 ==> Group(BoardItems[k]) == 2 && Position(BoardItems[k]) == k
  {
  }

  /** Apart from the two Reserved entries, the T2 names are distinct and belong to no other list. */
  lemma T2Positions()
    ensures forall k :: 0 <= k < 9 ==> Group(T2Items[k]) == 3 && (k != 1 ==> Position(T2Items[k]) == k)
  {
  }

  /** Every name's list and position. */
  lemma NamePositions()
    ensures forall j :: 0 <= j < 18 ==> Group(DataItems[j]) == 1 && Position(DataItems[j]) == j
    ensures forall k :: 0 <= k < 11 ==> Group(BoardItems[k]) == 2 && Position(BoardItems[k]) == k
    ensures forall k :: 0 <= k < 9 ==> Group(T2Items[k]) == 3 && (k != 1 ==> Position(T2Items[k]) == k)
  {
    ItemPositions();
    BoardPositions();
    T2Positions();
  }

  lemma {:induction false} RepeatGroup(n: nat)
    ensures forall j :: 0 <= j < |Repeat(BoardItems, n)| ==> Group(Repeat(BoardItems, n)[j]) == 2
  {
    NamePositions();
    if n > 0 {
      RepeatGroup(n - 1);
    }
  }

  /** What stands at each index of the key list. */
  lemma KeysAt(n: nat, i: nat)
    requires i < |Keys(n)|
    ensures i < 18 ==> Keys(n)[i] == DataItems[i]
    ensures 18 <= i < 18 + 11 * n ==> Group(Keys(n)[i]) == 2
    ensures 18 + 11 * n <= i ==> Keys(n)[i] == T2Items[i - 18 - 11 * n]
    ensures n > 0 && 18 + 11 * (n - 1) <= i < 18 + 11 * n ==> Keys(n)[i] == BoardItems[i - 18 - 11 * (n - 1)]
  {
    RepeatGroup(n);
    if n > 0 {
      var keys := Keys(n);
      assert keys == DataItems + Repeat(BoardItems, n - 1) + BoardItems + T2Items;
    }
  }

  /** The dictionary is built in three runs: the leading items, the boards, the T2 items. */
  lemma DescriptionInRuns(data: seq<Byte>)
    requires Complete(data)
    ensures var n: nat := Max(Boards(data), 0);
      Description(data) == Assign(Assign(Assign(
        map[File_CreatingTime := Text(TextField(data, 4))],
        DataItems, IntFields(data, ItemsStart, 18)),
        Repeat(BoardItems, n), BoardFields(data, BoardsStart, n)),
        T2Items, IntFields(data, T2Start(Boards(data)), 9))
  {
    var n: nat := Max(Boards(data), 0);
    var m := map[File_CreatingTime := Text(TextField(data, 4))];
    var items := IntFields(data, ItemsStart, 18);
    var boards := BoardFields(data, BoardsStart, n);
    var t2 := IntFields(data, T2Start(Boards(data)), 9);
    AssignAppend(m, DataItems + Repeat(BoardItems, n), items + boards, T2Items, t2);
    AssignAppend(m, DataItems, items, Repeat(BoardItems, n), boards);
  }

  /** With `n > 0` boards, each board name ends up holding the value assigned with the last board. */
  lemma LastBoardAssigned(m: map<Name, Field>, n: nat, vals: seq<Field>, k: nat)
    requires n > 0 && |vals| == |Keys(n)| && k < 11
    ensures BoardItems[k] in Assign(m, Keys(n), vals)
    ensures Assign(m, Keys(n), vals)[BoardItems[k]] == vals[18 + 11 * (n - 1) + k]
  {
    var keys := Keys(n);
    var i := 18 + 11 * (n - 1) + k;
    NamePositions();
    KeysAt(n, i);
    forall j | i < j < |keys|
      ensures keys[j] != keys[i]
    {
      KeysAt(n, j);
    }
    AssignLast(m, keys, vals, i);
  }

  /** T2 item `k`, other than the first Reserved, ends up holding its own value. */
  lemma T2Assigned(m: map<Name, Field>, n: nat, vals: seq<Field>, k: nat)
    requires |vals| == |Keys(n)| && k < 9 && k != 1
    ensures T2Items[k] in Assign(m, Keys(n), vals)
    ensures Assign(m, Keys(n), vals)[T2Items[k]] == vals[18 + 11 * n + k]
  {
    var keys := Keys(n);
    var i := 18 + 11 * n + k;
    NamePositions();
    KeysAt(n, i);
    forall j | i < j < |keys|
      ensures keys[j] != keys[i]
    {
      KeysAt(n, j);
    }
    AssignLast(m, keys, vals, i);
  }

  /** Leading item `j` ends up holding its own value: no later name repeats it. */
  lemma ItemAssigned(m: map<Name, Field>, n: nat, vals: seq<Field>, j: nat)
    requires |vals| == |Keys(n)| && j < 18
    ensures DataItems[j] in Assign(m, Keys(n), vals)
    ensures Assign(m, Keys(n), vals)[DataItems[j]] == vals[j]
  {
    var keys := Keys(n);
    NamePositions();
    KeysAt(n, j);
    forall i | j < i < |keys|
      ensures keys[i] != keys[j]
    {
      KeysAt(n, i);
    }
    AssignLast(m, keys, vals, j);
  }

  lemma TagIdxItems(data: seq<Byte>, j: nat)
    requires Complete(data) && j < 18
    ensures TagIdx(data)[j] == Int(I32At(data, ItemsStart + 4 * j))
  {
    var items := IntFields(data, ItemsStart, 18);
    assert TagIdx(data)[j] == items[j];
  }

  lemma TagIdxT2(data: seq<Byte>, k: nat)
    requires Complete(data) && k < 9
    ensures TagIdx(data)[18 + 11 * Max(Boards(data), 0) + k] == Int(I32At(data, T2Start(Boards(data)) + 4 * k))
  {
    var t2 := IntFields(data, T2Start(Boards(data)), 9);
    var before := IntFields(data, ItemsStart, 18) + BoardFields(data, BoardsStart, Max(Boards(data), 0));
    assert TagIdx(data) == before + t2;
    assert TagIdx(data)[|before| + k] == t2[k];
  }

  lemma {:induction false} BoardFieldsLast(data: seq<Byte>, n: nat, k: nat)
    requires BoardsStart + 156 * n <= |data| && n > 0 && k < 11
    ensures BoardFields(data, BoardsStart, n)[11 * (n - 1) + k] == BoardAt(data, BoardsStart + 156 * (n - 1))[k]
  {
    var before := BoardFields(data, BoardsStart, n - 1);
    var last := BoardAt(data, BoardsStart + 156 * (n - 1));
    assert BoardFields(data, BoardsStart, n) == before + last;
    assert (before + last)[|before| + k] == last[k];
  }

  lemma TagIdxBoard(data: seq<Byte>, i: nat)
    requires Complete(data) && i < 11 * Max(Boards(data), 0)
    ensures TagIdx(data)[18 + i] == BoardFields(data, BoardsStart, Max(Boards(data), 0))[i]
  {
    var items := IntFields(data, ItemsStart, 18);
    var boards := BoardFields(data, BoardsStart, Max(Boards(data), 0));
    var t2 := IntFields(data, T2Start(Boards(data)), 9);
    assert TagIdx(data) == items + boards + t2;
    assert (items + boards + t2)[|items| + i] == boards[i];
  }

  /**
   * With one or more boards, each board name holds the value of the last
   * board: every board assigns the same eleven names.
   */
  lemma LastBoardWins(data: seq<Byte>, k: nat)
    requires Complete(data) && Boards(data) > 0 && k < 11
    ensures var d := Description(data);
      && BoardItems[k] in d
      && d[BoardItems[k]] == BoardAt(data, BoardsStart + 156 * (Boards(data) - 1))[k]
  {
    var n: nat := Boards(data);
    var i := 11 * (n - 1) + k;
    assert i < 11 * n;
    TagIdxBoard(data, i);
    BoardFieldsLast(data, n, k);
    LastBoardAssigned(map[File_CreatingTime := Text(TextField(data, 4))], Boards(data), TagIdx(data), k);
  }

  /** Of the two T2 items named Reserved, the dictionary keeps the later one. */
  lemma ReservedKeepsLater(data: seq<Byte>)
    requires Complete(data)
    ensures var d := Description(data);
      Reserved in d && d[Reserved] == Int(I32At(data, T2Start(Boards(data)) + 8))
  {
    TagIdxT2(data, 2);
    T2Assigned(map[File_CreatingTime := Text(TextField(data, 4))], Max(Boards(data), 0), TagIdx(data), 2);
  }

  /** The file time is recorded first and never reassigned. */
  lemma FileTimeRecorded(data: seq<Byte>)
    requires Complete(data)
    ensures var d := Description(data);
      File_CreatingTime in d && d[File_CreatingTime] == Text(TextField(data, 4))
  {
    var n: nat := Max(Boards(data), 0);
    var keys := Keys(n);
    NamePositions();
    forall j | 0 <= j < |keys|
      ensures keys[j] != File_CreatingTime
    {
      KeysAt(n, j);
    }
    AssignUntouched(map[File_CreatingTime := Text(TextField(data, 4))], keys, TagIdx(data), File_CreatingTime);
  }

  /** Acquisitiontime_ms, leading item 9, keeps its own value. */
  lemma AcquisitionTimeSource(data: seq<Byte>)
    requires Complete(data)
    ensures var d := Description(data);
      Acquisitiontime_ms in d && d[Acquisitiontime_ms] == Int(I32At(data, ItemsStart + 36))
  {
    TagIdxItems(data, 9);
    ItemAssigned(map[File_CreatingTime := Text(TextField(data, 4))], Max(Boards(data), 0), TagIdx(data), 9);
  }

  /** T2 item `k` (Inprate0 at 3, Inprate1 at 4, Numrecords at 7) keeps its own value. */
  lemma T2Source(data: seq<Byte>, k: nat)
    requires Complete(data) && k < 9 && k != 1
    ensures var d := Description(data);
      T2Items[k] in d && d[T2Items[k]] == Int(I32At(data, T2Start(Boards(data)) + 4 * k))
  {
    TagIdxT2(data, k);
    T2Assigned(map[File_CreatingTime := Text(TextField(data, 4))], Max(Boards(data), 0), TagIdx(data), k);
  }

  /**
   * The four values the converter passes on to the PTU writer:
   * Acquisitiontime_ms (leading item 9), and Inprate0, Inprate1 and
   * Numrecords (T2 items 3, 4 and 7).
   */
  lemma OverrideSources(data: seq<Byte>)
    requires Complete(data)
    ensures var d := Description(data); var t2 := T2Start(Boards(data));
      && Acquisitiontime_ms in d && d[Acquisitiontime_ms] == Int(I32At(data, ItemsStart + 36))
      && Inprate0 in d && d[Inprate0] == Int(I32At(data, t2 + 12))
      && Inprate1 in d && d[Inprate1] == Int(I32At(data, t2 + 16))
      && Numrecords in d && d[Numrecords] == Int(I32At(data, t2 + 28))
  {
    AcquisitionTimeSource(data);
    T2Source(data, 3);
    T2Source(data, 4);
    T2Source(data, 7);
  }
}
