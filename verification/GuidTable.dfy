/** The GUIDed table at the end of a firmware image, and the three backward walks over it
    (mrtd.py, rtmr0.py and measure.js). */
module GuidTable {
  import opened Bytes
  import opened GuidText

  const TABLE_FOOTER_GUID: bytes :=
    [0xde, 0x82, 0xb5, 0x96, 0xb2, 0x1f, 0xf7, 0x45, 0xba, 0xea, 0xa3, 0x66, 0xc5, 0x5a, 0x08, 0x2d]
  const TDX_METADATA_OFFSET_GUID: bytes :=
    [0x35, 0x65, 0x7a, 0xe4, 0x4a, 0x98, 0x98, 0x47, 0x86, 0x5e, 0x46, 0x85, 0xa7, 0xbf, 0x8e, 0xc2]
  const TABLE_FOOTER_TEXT := "96b582de-1fb2-45f7-baea-a366c55a082d"
  const TDX_METADATA_OFFSET_TEXT := "e47a6535-984a-4798-865e-4685a7bf8ec2"
  const BYTES_AFTER_TABLE_FOOTER := 32
  const ENTRY_HEADER := 18

  // ----- mrtd.py

  /** The bytes handed to the walk; nothing when the footer or its length is wrong. */
  function Tables(fw: bytes): Option<bytes> {
    var end := |fw| - BYTES_AFTER_TABLE_FOOTER;
    if end < ENTRY_HEADER || fw[end - 16..end] != TABLE_FOOTER_GUID then None
    else
      var length := UnLe(fw[end - 18..end - 16]);
      if !(0 < length <= end - 18) then None else Some(fw[end - 18 - length..end - 18])
  }

  /** The entry of the metadata offset, with 18 bytes too many in front of its data. */
  function FindEntry(tables: bytes, offset: nat): Option<bytes>
    requires offset <= |tables|
    decreases offset
  {
    if offset < ENTRY_HEADER then None
    else
      var length := UnLe(tables[offset - 18..offset - 16]);
      if length == 0 || length > offset - 18 then None
      else if tables[offset - 16..offset] == TDX_METADATA_OFFSET_GUID then Some(tables[offset - 18 - length..offset - 18])
      else FindEntry(tables, offset - length)
  }

  function MetaOffsetMrtd(fw: bytes): Option<nat> {
    var tables :- Tables(fw);
    var entry :- FindEntry(tables, |tables|);
    Get(entry, |entry| - 4, 4)
  }

  // ----- rtmr0.py

  /** The whole table by GUID text; a malformed entry ends the walk. */
  function ParseTable(tables: bytes, offset: nat, table: map<string, bytes>): map<string, bytes>
    requires offset <= |tables|
    decreases offset
  {
    if offset < ENTRY_HEADER then table
    else
      var length := UnLe(tables[offset - 18..offset - 16]);
      if length < ENTRY_HEADER || length > offset then table
      else ParseTable(tables, offset - length, table[DecodeGuid(tables[offset - 16..offset]) := tables[offset - length..offset - 18]])
  }

  function MetaOffsetRtmr(fw: bytes): Option<nat> {
    var tables :- Tables(fw);
    var table := ParseTable(tables, |tables|, map[]);
    var key := DecodeGuid(TDX_METADATA_OFFSET_GUID);
    if key !in table then None else Some(UnLe(RelSlice(table[key], -4, |table[key]|)))
  }

  // ----- measure.js

  function WalkTable(bytes: bytes, table: map<string, bytes>): Option<map<string, bytes>>
    decreases |bytes|
  {
    if |bytes| < ENTRY_HEADER then Some(table)
    else
      var size := UnLe(bytes[|bytes| - 18..|bytes| - 16]);
      if size < ENTRY_HEADER then None
      else
        var block := RelSlice(bytes, 0 - size, |bytes|);
        WalkTable(RelSlice(bytes, 0, 0 - size),
                  table[DecodeGuid(bytes[|bytes| - 16..]) := RelSlice(block, 0, -18)])
  }

  function MetaOffsetJs(data: bytes): Option<nat> {
    var start := |data| - 32 - ENTRY_HEADER;
    var footer := RelSlice(data, start, |data|);
    var size :- Get(footer, 0, 2);
    if Slice(footer, 2, 18) != TABLE_FOOTER_GUID || size < ENTRY_HEADER then None
    else
      var table :- WalkTable(RelSlice(data, start - (size - ENTRY_HEADER), start), map[]);
      var key := DecodeGuid(TDX_METADATA_OFFSET_GUID);
      if key !in table then None else Get(table[key], |table[key]| - 4, 4)
  }

  // ----- a table as a firmware build lays it out

  datatype Entry = Entry(guid: bytes, data: bytes)

  predicate ValidEntry(e: Entry) {
    |e.guid| == 16 && |e.data| + ENTRY_HEADER < 0x1_0000
  }

  /** Data, then the length of the whole block, then the GUID. */
  function Block(e: Entry): bytes {
    e.data + Le(|e.data| + ENTRY_HEADER, 2) + e.guid
  }

  function Table(entries: seq<Entry>): bytes {
    if entries == [] then [] else Table(entries[..|entries| - 1]) + Block(entries[|entries| - 1])
  }

  /** The image: anything, the table, its footer (whose length counts itself), and 32 more bytes. */
  function Image(front: bytes, entries: seq<Entry>, tail: bytes): bytes {
    front + Table(entries) + Le(|Table(entries)| + ENTRY_HEADER, 2) + TABLE_FOOTER_GUID + tail
  }

  /** The metadata offset an entry holds: its last four bytes. */
  function Held(e: Entry): nat
    requires |e.data| >= 4
  {
    UnLe(e.data[|e.data| - 4..])
  }

  /** Entry `k` is the only one of the metadata offset. */
  predicate OnlyAt(entries: seq<Entry>, k: nat) {
    && k < |entries| && |entries[k].data| >= 4
    && (forall i | 0 <= i < |entries| :: ValidEntry(entries[i]) && (entries[i].guid == TDX_METADATA_OFFSET_GUID <==> i == k))
  }

  lemma ReadBlock(b: bytes, offset: nat, front: bytes, e: Entry)
    requires ValidEntry(e) && offset <= |b| && b[..offset] == front + Block(e)
    ensures offset == |front| + |e.data| + 18
    ensures UnLe(b[offset - 18..offset - 16]) == |e.data| + 18 && b[offset - 16..offset] == e.guid
    ensures b[offset - 18 - |e.data|..offset - 18] == e.data
    ensures b[..|front|] == front
  {
    hide Le, UnLe;
    var c := b[..offset];
    var length := Le(|e.data| + 18, 2);
    var i := |front|;
    var j := i + |e.data|;
    Assoc(front, e.data + length, e.guid);
    Assoc(front, e.data, length);
    assert c == front + e.data + length + e.guid;
    FourPieces(c, 0, front, e.data, length, e.guid);
    PieceOfTake(b, offset, i, j);
    PieceOfTake(b, offset, j, j + 2);
    PieceOfTake(b, offset, j + 2, offset);
    PieceOfTake(b, offset, 0, i);
    PowValues();
    UnLeLe(|e.data| + 18, 2);
  }

  lemma TableLast(entries: seq<Entry>, front: bytes)
    requires entries != []
    ensures front + Table(entries) == (front + Table(entries[..|entries| - 1])) + Block(entries[|entries| - 1])
  {
    hide Block;
    Assoc(front, Table(entries[..|entries| - 1]), Block(entries[|entries| - 1]));
  }

  /** The entry in front of `offset`, and what is left in front of it. */
  lemma LastBlock(tables: bytes, offset: nat, front: bytes, entries: seq<Entry>)
    requires entries != [] && offset <= |tables| && tables[..offset] == front + Table(entries)
    requires ValidEntry(entries[|entries| - 1])
    ensures var e, before := entries[|entries| - 1], entries[..|entries| - 1];
            && offset == |front + Table(before)| + |e.data| + 18
            && UnLe(tables[offset - 18..offset - 16]) == |e.data| + 18 && tables[offset - 16..offset] == e.guid
            && tables[offset - 18 - |e.data|..offset - 18] == e.data
            && tables[..offset - 18 - |e.data|] == front + Table(before)
  {
    hide UnLe, Block, Table;
    TableLast(entries, front);
    ReadBlock(tables, offset, front + Table(entries[..|entries| - 1]), entries[|entries| - 1]);
  }

  /** The last four bytes of an entry, whatever is taken with it from in front. */
  lemma LastFour(tables: bytes, lo: nat, mid: nat, hi: nat, e: Entry)
    requires lo <= mid <= hi <= |tables| && tables[mid..hi] == e.data && |e.data| >= 4
    ensures Get(tables[lo..hi], |tables[lo..hi]| - 4, 4) == Some(Held(e))
  {
    hide UnLe;
    var n := hi - lo;
    PieceOfPiece(tables, lo, hi, n - 4, n);
    PieceOfPiece(tables, mid, hi, |e.data| - 4, |e.data|);
  }

  lemma EntryStep(tables: bytes, offset: nat, length: nat)
    requires 18 <= offset <= |tables| && UnLe(tables[offset - 18..offset - 16]) == length && 0 < length <= offset - 18
    ensures FindEntry(tables, offset) ==
      if tables[offset - 16..offset] == TDX_METADATA_OFFSET_GUID then Some(tables[offset - 18 - length..offset - 18])
      else FindEntry(tables, offset - length)
  {
    hide UnLe;
  }

  lemma {:induction false} FindEntryFinds(tables: bytes, offset: nat, front: bytes, entries: seq<Entry>, k: nat)
    requires OnlyAt(entries, k) && |front| == 18 && offset <= |tables| && tables[..offset] == front + Table(entries)
    ensures FindEntry(tables, offset).Some?
    ensures var entry := FindEntry(tables, offset).value; Get(entry, |entry| - 4, 4) == Some(Held(entries[k]))
    decreases |entries|
  {
    hide UnLe, Table, FindEntry, Get, Held;
    var e := entries[|entries| - 1];
    var before := entries[..|entries| - 1];
    LastBlock(tables, offset, front, entries);
    var length := |e.data| + 18;
    EntryStep(tables, offset, length);
    if k == |entries| - 1 {
      LastFour(tables, offset - 18 - length, offset - 18 - |e.data|, offset - 18, e);
    } else {
      FindEntryFinds(tables, offset - length, front, before, k);
    }
  }

  /** The 18 bytes in front of the table spell an empty entry of the metadata offset. */
  predicate Spells(front: bytes)
    requires |front| == 18
  {
    UnLe(front[0..2]) == 18 && front[2..18] == TDX_METADATA_OFFSET_GUID
  }

  /** Entry `k` alone is of the metadata offset, if there are that many. */
  predicate AtMost(entries: seq<Entry>, k: nat) {
    forall i | 0 <= i < |entries| :: ValidEntry(entries[i]) && (entries[i].guid == TDX_METADATA_OFFSET_GUID <==> i == k)
  }

  /** Whether a GUID is that of the metadata offset shows in its text. */
  lemma KeyIs(guid: bytes)
    requires |guid| == 16
    ensures DecodeGuid(guid) == DecodeGuid(TDX_METADATA_OFFSET_GUID) <==> guid == TDX_METADATA_OFFSET_GUID
  {
    hide DecodeGuid;
    if DecodeGuid(guid) == DecodeGuid(TDX_METADATA_OFFSET_GUID) {
      DecodeInjective(guid, TDX_METADATA_OFFSET_GUID);
    }
  }

  lemma ParseStep(tables: bytes, offset: nat, length: nat, table: map<string, bytes>)
    requires 18 <= length <= offset <= |tables| && UnLe(tables[offset - 18..offset - 16]) == length
    ensures ParseTable(tables, offset, table) ==
      ParseTable(tables, offset - length, table[DecodeGuid(tables[offset - 16..offset]) := tables[offset - length..offset - 18]])
  {
    hide UnLe, DecodeGuid;
  }

  /** What the 18 bytes in front of the table add. */
  lemma ParseFront(tables: bytes, front: bytes, table: map<string, bytes>)
    requires |front| == 18 <= |tables| && tables[..18] == front
    ensures var key := DecodeGuid(TDX_METADATA_OFFSET_GUID);
            var r := ParseTable(tables, 18, table);
            && (Spells(front) ==> key in r && r[key] == [])
            && (!Spells(front) ==> (key in r <==> key in table) && (key in r ==> r[key] == table[key]))
  {
    hide UnLe, DecodeGuid;
    assert tables[0..2] == front[0..2] && tables[2..18] == front[2..18] && tables[0..0] == [];
    KeyIs(front[2..18]);
  }

  lemma {:induction false} ParseTableFinds(tables: bytes, offset: nat, front: bytes, entries: seq<Entry>, k: nat,
                                           table: map<string, bytes>)
    requires AtMost(entries, k) && |front| == 18 && offset <= |tables| && tables[..offset] == front + Table(entries)
    ensures var key := DecodeGuid(TDX_METADATA_OFFSET_GUID);
            var r := ParseTable(tables, offset, table);
            && (Spells(front) ==> key in r && r[key] == [])
            && (!Spells(front) && k < |entries| ==> key in r && r[key] == entries[k].data)
            && (!Spells(front) && k >= |entries| ==> (key in r <==> key in table) && (key in r ==> r[key] == table[key]))
    decreases |entries|
  {
    hide UnLe, Table, ParseTable, DecodeGuid, Spells;
    if entries == [] {
      NoEntries();
      assert tables[..offset] == front;
      ParseFront(tables, front, table);
    } else {
      var e := entries[|entries| - 1];
      var before := entries[..|entries| - 1];
      LastBlock(tables, offset, front, entries);
      var length := |e.data| + 18;
      ParseStep(tables, offset, length, table);
      KeyIs(e.guid);
      ParseTableFinds(tables, offset - length, front, before, k, table[DecodeGuid(e.guid) := e.data]);
    }
  }

  lemma NoEntries()
    ensures Table([]) == []
  {
  }

  /** What the negative bounds of the JavaScript walk cut out. */
  lemma JsSlices(b: bytes, n: nat)
    requires n + 18 <= |b|
    ensures RelSlice(b, 0, 0 - (n + 18)) == b[..|b| - 18 - n]
    ensures RelSlice(RelSlice(b, 0 - (n + 18), |b|), 0, -18) == b[|b| - 18 - n..|b| - 18]
  {
    var block := RelSlice(b, 0 - (n + 18), |b|);
    assert block == b[|b| - n - 18..];
    PieceOfDrop(b, |b| - n - 18, 0, n);
    assert RelSlice(block, 0, -18) == block[0..n];
  }

  lemma WalkStep(bytes: bytes, n: nat, table: map<string, bytes>)
    requires n + 18 <= |bytes| && UnLe(bytes[|bytes| - 18..|bytes| - 16]) == n + 18
    ensures WalkTable(bytes, table) ==
      WalkTable(bytes[..|bytes| - 18 - n], table[DecodeGuid(bytes[|bytes| - 16..]) := bytes[|bytes| - 18 - n..|bytes| - 18]])
  {
    hide UnLe, DecodeGuid, RelSlice;
    JsSlices(bytes, n);
  }

  lemma {:induction false} WalkTableFinds(bytes: bytes, entries: seq<Entry>, k: nat, table: map<string, bytes>)
    requires AtMost(entries, k) && bytes == Table(entries)
    ensures var key := DecodeGuid(TDX_METADATA_OFFSET_GUID);
            var r := WalkTable(bytes, table);
            && r.Some?
            && (k < |entries| ==> key in r.value && r.value[key] == entries[k].data)
            && (k >= |entries| ==> (key in r.value <==> key in table) && (key in r.value ==> r.value[key] == table[key]))
    decreases |entries|
  {
    hide UnLe, Table, WalkTable, DecodeGuid;
    if entries == [] {
      NoEntries();
      WalkNothing(table);
    } else {
      var e := entries[|entries| - 1];
      var before := entries[..|entries| - 1];
      assert bytes[..|bytes|] == bytes && [] + bytes == bytes && [] + Table(before) == Table(before);
      LastBlock(bytes, |bytes|, [], entries);
      WalkStep(bytes, |e.data|, table);
      KeyIs(e.guid);
      assert bytes[|bytes| - 16..] == bytes[|bytes| - 16..|bytes|];
      WalkTableFinds(Table(before), before, k, table[DecodeGuid(e.guid) := e.data]);
    }
  }

  lemma WalkNothing(table: map<string, bytes>)
    ensures WalkTable([], table) == Some(table)
  {
  }

  lemma ImageParts(front: bytes, entries: seq<Entry>, tail: bytes)
    requires |tail| == BYTES_AFTER_TABLE_FOOTER && |Table(entries)| + ENTRY_HEADER < 0x1_0000
    ensures var fw := Image(front, entries, tail);
            var end := |fw| - 32;
            && end == |front| + |Table(entries)| + 18
            && fw[end - 16..end] == TABLE_FOOTER_GUID
            && fw[end - 18..end - 16] == Le(|Table(entries)| + 18, 2)
            && UnLe(fw[end - 18..end - 16]) == |Table(entries)| + 18
            && fw[..end - 18] == front + Table(entries)
  {
    hide Le, UnLe, Table;
    var fw := Image(front, entries, tail);
    var end := |fw| - 32;
    var length := Le(|Table(entries)| + 18, 2);
    assert fw[0..|fw|] == fw;
    FourPieces(fw, 0, front + Table(entries), length, TABLE_FOOTER_GUID, tail);
    assert fw[..end - 18] == fw[0..end - 18];
    PowValues();
    UnLeLe(|Table(entries)| + 18, 2);
  }

  lemma TablesOf(front: bytes, entries: seq<Entry>, tail: bytes)
    requires |tail| == BYTES_AFTER_TABLE_FOOTER && |Table(entries)| + ENTRY_HEADER < 0x1_0000 && |front| >= 18
    ensures Tables(Image(front, entries, tail)) == Some(front[|front| - 18..] + Table(entries))
  {
    hide Le, UnLe, Table, Image;
    ImageParts(front, entries, tail);
    var fw := Image(front, entries, tail);
    var end := |fw| - 32;
    PieceOfTake(fw, end - 18, |front| - 18, end - 18);
    assert (front + Table(entries))[|front| - 18..] == front[|front| - 18..] + Table(entries);
  }

  /** On every table with one metadata offset entry, the three walks find the same offset; the one of rtmr0.py does
      so unless the bytes in front of the table spell an empty entry for it, when it reads zero instead. */
  lemma WalksAgree(front: bytes, entries: seq<Entry>, tail: bytes, k: nat)
    requires |tail| == BYTES_AFTER_TABLE_FOOTER && |Table(entries)| + ENTRY_HEADER < 0x1_0000 && |front| >= 18
    requires OnlyAt(entries, k)
    ensures var fw := Image(front, entries, tail);
            var found := Some(Held(entries[k]));
            && MetaOffsetMrtd(fw) == found
            && MetaOffsetJs(fw) == found
            && MetaOffsetRtmr(fw) == (if Spells(front[|front| - 18..]) then Some(0) else found)
  {
    MrtdWalk(front, entries, tail, k);
    RtmrWalk(front, entries, tail, k);
    JsWalk(front, entries, tail, k);
  }

  /** Such an image: one entry that holds 1, behind 18 bytes that spell an empty one. */
  lemma SpelledReadsZero()
    ensures var entries := [Entry(TDX_METADATA_OFFSET_GUID, [1, 0, 0, 0])];
            var fw := Image(Le(18, 2) + TDX_METADATA_OFFSET_GUID, entries, Zeros(32));
            MetaOffsetMrtd(fw) == Some(1) && MetaOffsetJs(fw) == Some(1) && MetaOffsetRtmr(fw) == Some(0)
  {
    hide MetaOffsetMrtd, MetaOffsetJs, MetaOffsetRtmr, Image, Le, UnLe;
    var e := Entry(TDX_METADATA_OFFSET_GUID, [1, 0, 0, 0]);
    var front := Le(18, 2) + TDX_METADATA_OFFSET_GUID;
    OneEntry(e);
    SpellsIt(front);
    assert front[|front| - 18..] == front;
    HeldOne(e);
    WalksAgree(front, [e], Zeros(32), 0);
  }

  lemma OneEntry(e: Entry)
    requires e.guid == TDX_METADATA_OFFSET_GUID && 4 <= |e.data| < 0x1000
    ensures OnlyAt([e], 0) && |Table([e])| == |e.data| + 18
  {
    assert [e][..0] == [] && Table([]) == [];
  }

  lemma SpellsIt(front: bytes)
    requires front == Le(18, 2) + TDX_METADATA_OFFSET_GUID
    ensures |front| == 18 && Spells(front)
  {
    hide Le, UnLe;
    PowValues();
    UnLeLe(18, 2);
    assert front[0..2] == Le(18, 2) && front[2..18] == TDX_METADATA_OFFSET_GUID;
  }

  lemma HeldOne(e: Entry)
    requires e.data == [1, 0, 0, 0]
    ensures Held(e) == 1
  {
    var b: bytes := [1, 0, 0, 0];
    assert b[0..] == b && b[1..] == [0, 0, 0] && b[1..][1..] == [0, 0] && b[1..][1..][1..] == [0];
    assert UnLe(b[1..][1..][1..]) == 0 && UnLe(b[1..][1..]) == 0 && UnLe(b[1..]) == 0;
  }

  lemma MrtdWalk(front: bytes, entries: seq<Entry>, tail: bytes, k: nat)
    requires |tail| == BYTES_AFTER_TABLE_FOOTER && |Table(entries)| + ENTRY_HEADER < 0x1_0000 && |front| >= 18
    requires OnlyAt(entries, k)
    ensures MetaOffsetMrtd(Image(front, entries, tail)) == Some(Held(entries[k]))
  {
    hide Tables, Image, Table, UnLe;
    TablesOf(front, entries, tail);
    var tables := front[|front| - 18..] + Table(entries);
    assert tables[..|tables|] == tables;
    FindEntryFinds(tables, |tables|, front[|front| - 18..], entries, k);
  }

  lemma RtmrWalk(front: bytes, entries: seq<Entry>, tail: bytes, k: nat)
    requires |tail| == BYTES_AFTER_TABLE_FOOTER && |Table(entries)| + ENTRY_HEADER < 0x1_0000 && |front| >= 18
    requires OnlyAt(entries, k)
    ensures MetaOffsetRtmr(Image(front, entries, tail))
         == (if Spells(front[|front| - 18..]) then Some(0) else Some(Held(entries[k])))
  {
    hide Tables, Image, Table, DecodeGuid, Spells;
    TablesOf(front, entries, tail);
    var tables := front[|front| - 18..] + Table(entries);
    assert tables[..|tables|] == tables;
    ParseTableFinds(tables, |tables|, front[|front| - 18..], entries, k, map[]);
    assert RelSlice([], -4, 0) == [];
    assert RelSlice(entries[k].data, -4, |entries[k].data|) == entries[k].data[|entries[k].data| - 4..];
  }

  lemma JsWalk(front: bytes, entries: seq<Entry>, tail: bytes, k: nat)
    requires |tail| == BYTES_AFTER_TABLE_FOOTER && |Table(entries)| + ENTRY_HEADER < 0x1_0000
    requires OnlyAt(entries, k)
    ensures MetaOffsetJs(Image(front, entries, tail)) == Some(Held(entries[k]))
  {
    hide Image, Table, DecodeGuid, UnLe, Le, WalkTable;
    ImageParts(front, entries, tail);
    var fw := Image(front, entries, tail);
    var start := |fw| - 50;
    var footer := RelSlice(fw, start, |fw|);
    assert footer == fw[start..];
    PieceOfDrop(fw, start, 0, 2);
    PieceOfDrop(fw, start, 2, 18);
    PieceOfTake(fw, start, |front|, start);
    assert (front + Table(entries))[|front|..] == Table(entries);
    WalkTableFinds(Table(entries), entries, k, map[]);
    var data := entries[k].data;
    assert data[|data| - 4..|data|] == data[|data| - 4..];
  }

  // ----- the walks as the loops they are

  method FindEntryLoop(tables: bytes, target: bytes) returns (entry: Option<bytes>)
    requires target == TDX_METADATA_OFFSET_GUID
    ensures entry == FindEntry(tables, |tables|)
  {
    var offset := |tables|;
    while offset >= ENTRY_HEADER
      invariant 0 <= offset <= |tables| && FindEntry(tables, |tables|) == FindEntry(tables, offset)
    {
      var length := UnLe(tables[offset - 18..offset - 16]);
      if length == 0 || length > offset - 18 { return None; }
      if tables[offset - 16..offset] == target {
        return Some(tables[offset - 18 - length..offset - 18]);
      }
      offset := offset - length;
    }
    entry := None;
  }

  method ParseTableLoop(tables: bytes) returns (table: map<string, bytes>)
    ensures table == ParseTable(tables, |tables|, map[])
  {
    hide DecodeGuid, UnLe;
    table := map[];
    var offset := |tables|;
    while offset >= ENTRY_HEADER
      invariant 0 <= offset <= |tables| && ParseTable(tables, |tables|, map[]) == ParseTable(tables, offset, table)
    {
      var length := UnLe(tables[offset - 18..offset - 16]);
      if length < ENTRY_HEADER || length > offset { break; }
      var guid := DecodeGuid(tables[offset - 16..offset]);
      table := table[guid := tables[offset - length..offset - 18]];
      offset := offset - length;
    }
  }

  method WalkTableLoop(data: bytes) returns (r: Option<map<string, bytes>>)
    ensures r == WalkTable(data, map[])
  {
    hide DecodeGuid, UnLe;
    var table := map[];
    var bytes := data;
    while |bytes| >= ENTRY_HEADER
      invariant WalkTable(data, map[]) == WalkTable(bytes, table)
      decreases |bytes|
    {
      var size := UnLe(bytes[|bytes| - 18..|bytes| - 16]);
      if size < ENTRY_HEADER { return None; }
      var guid := DecodeGuid(bytes[|bytes| - 16..]);
      table := table[guid := RelSlice(RelSlice(bytes, 0 - size, |bytes|), 0, -18)];
      bytes := RelSlice(bytes, 0, 0 - size);
    }
    r := Some(table);
  }

  // ----- the texts of the two GUIDs

  lemma HexFirst(n: byte, rest: bytes)
    ensures Hex([n] + rest) == [HexDigit(n / 16), HexDigit(n % 16)] + Hex(rest)
  {
    assert ([n] + rest)[1..] == rest;
  }

  lemma HexTwo(a: byte, b: byte)
    ensures Hex([a, b]) == [HexDigit(a / 16), HexDigit(a % 16), HexDigit(b / 16), HexDigit(b % 16)]
  {
    hide HexDigit;
    HexFirst(a, [b]);
    HexFirst(b, []);
    assert [a] + [b] == [a, b] && [b] + [] == [b] && Hex([]) == "";
  }

  lemma HexFour(a: byte, b: byte, c: byte, d: byte)
    ensures Hex([a, b, c, d]) == Hex([a, b]) + Hex([c, d])
  {
    hide HexDigit;
    HexFirst(a, [b, c, d]);
    HexFirst(b, [c, d]);
    HexTwo(a, b);
    assert [a] + [b, c, d] == [a, b, c, d] && [b] + [c, d] == [b, c, d];
  }

  lemma HexSix(a: byte, b: byte, c: byte, d: byte, e: byte, f: byte)
    ensures Hex([a, b, c, d, e, f]) == Hex([a, b]) + Hex([c, d, e, f])
  {
    hide HexDigit;
    HexFirst(a, [b, c, d, e, f]);
    HexFirst(b, [c, d, e, f]);
    HexTwo(a, b);
    assert [a] + [b, c, d, e, f] == [a, b, c, d, e, f] && [b] + [c, d, e, f] == [b, c, d, e, f];
  }

  lemma Reversed(a: byte, b: byte, c: byte, d: byte)
    ensures Reverse([a, b]) == [b, a] && Reverse([a, b, c, d]) == [d, c, b, a]
  {
  }

  lemma FooterFront()
    ensures Hex(Reverse([0xde, 0x82, 0xb5, 0x96])) == "96b582de"
    ensures Hex(Reverse([0xb2, 0x1f])) == "1fb2" && Hex(Reverse([0xf7, 0x45])) == "45f7"
  {
    hide Hex, Reverse;
    Reversed(0xde, 0x82, 0xb5, 0x96);
    Reversed(0xb2, 0x1f, 0, 0);
    Reversed(0xf7, 0x45, 0, 0);
    HexFour(0x96, 0xb5, 0x82, 0xde);
    HexTwo(0x96, 0xb5);
    HexTwo(0x82, 0xde);
    HexTwo(0x1f, 0xb2);
    HexTwo(0x45, 0xf7);
  }

  lemma FooterBack()
    ensures Hex([0xba, 0xea]) == "baea" && Hex([0xa3, 0x66, 0xc5, 0x5a, 0x08, 0x2d]) == "a366c55a082d"
  {
    hide Hex;
    HexSix(0xa3, 0x66, 0xc5, 0x5a, 0x08, 0x2d);
    HexFour(0xc5, 0x5a, 0x08, 0x2d);
    HexTwo(0xba, 0xea);
    HexTwo(0xa3, 0x66);
    HexTwo(0xc5, 0x5a);
    HexTwo(0x08, 0x2d);
  }

  lemma FooterPieces()
    ensures var g := TABLE_FOOTER_GUID;
            && g[0..4] == [0xde, 0x82, 0xb5, 0x96] && g[4..6] == [0xb2, 0x1f] && g[6..8] == [0xf7, 0x45]
            && g[8..10] == [0xba, 0xea] && g[10..16] == [0xa3, 0x66, 0xc5, 0x5a, 0x08, 0x2d]
  {
  }

  lemma FooterDashed()
    ensures Dashed("96b582de", Dashed("1fb2", Dashed("45f7", Dashed("baea", "a366c55a082d")))) ==
      TABLE_FOOTER_TEXT
  {
  }

  lemma FooterText()
    ensures DecodeGuid(TABLE_FOOTER_GUID) == TABLE_FOOTER_TEXT
  {
    hide Hex, Reverse, Dashed;
    FooterPieces();
    FooterFront();
    FooterBack();
    FooterDashed();
  }

  lemma MetadataFront()
    ensures Hex(Reverse([0x35, 0x65, 0x7a, 0xe4])) == "e47a6535"
    ensures Hex(Reverse([0x4a, 0x98])) == "984a" && Hex(Reverse([0x98, 0x47])) == "4798"
  {
    hide Hex, Reverse;
    Reversed(0x35, 0x65, 0x7a, 0xe4);
    Reversed(0x4a, 0x98, 0, 0);
    Reversed(0x98, 0x47, 0, 0);
    HexFour(0xe4, 0x7a, 0x65, 0x35);
    HexTwo(0xe4, 0x7a);
    HexTwo(0x65, 0x35);
    HexTwo(0x98, 0x4a);
    HexTwo(0x47, 0x98);
  }

  lemma MetadataBack()
    ensures Hex([0x86, 0x5e]) == "865e" && Hex([0x46, 0x85, 0xa7, 0xbf, 0x8e, 0xc2]) == "4685a7bf8ec2"
  {
    hide Hex;
    HexSix(0x46, 0x85, 0xa7, 0xbf, 0x8e, 0xc2);
    HexFour(0xa7, 0xbf, 0x8e, 0xc2);
    HexTwo(0x86, 0x5e);
    HexTwo(0x46, 0x85);
    HexTwo(0xa7, 0xbf);
    HexTwo(0x8e, 0xc2);
  }

  lemma MetadataPieces()
    ensures var g := TDX_METADATA_OFFSET_GUID;
            && g[0..4] == [0x35, 0x65, 0x7a, 0xe4] && g[4..6] == [0x4a, 0x98] && g[6..8] == [0x98, 0x47]
            && g[8..10] == [0x86, 0x5e] && g[10..16] == [0x46, 0x85, 0xa7, 0xbf, 0x8e, 0xc2]
  {
  }

  lemma MetadataDashed()
    ensures Dashed("e47a6535", Dashed("984a", Dashed("4798", Dashed("865e", "4685a7bf8ec2")))) ==
      TDX_METADATA_OFFSET_TEXT
  {
  }

  lemma MetadataText()
    ensures DecodeGuid(TDX_METADATA_OFFSET_GUID) == TDX_METADATA_OFFSET_TEXT
  {
    hide Hex, Reverse, Dashed;
    MetadataPieces();
    MetadataFront();
    MetadataBack();
    MetadataDashed();
  }

  /** What encoding the texts gives. */
  lemma TextsEncode()
    ensures EncodeGuid(TABLE_FOOTER_TEXT) == Some(TABLE_FOOTER_GUID)
    ensures EncodeGuid(TDX_METADATA_OFFSET_TEXT) == Some(TDX_METADATA_OFFSET_GUID)
  {
    hide EncodeGuid, DecodeGuid;
    FooterText();
    MetadataText();
    EncodeDecode(TABLE_FOOTER_GUID);
    EncodeDecode(TDX_METADATA_OFFSET_GUID);
  }

  // ----- finding the metadata offset

  /** mrtd.py, which compares raw bytes with encoded texts. */
  method FindOffsetMrtd(fw: bytes) returns (offset: Option<nat>)
    ensures offset == MetaOffsetMrtd(fw)
  {
    hide EncodeGuid, FindEntry, UnLe;
    TextsEncode();
    var end := |fw| - BYTES_AFTER_TABLE_FOOTER;
    if end < ENTRY_HEADER { return None; }
    var footer := EncodeGuidLoop(TABLE_FOOTER_TEXT);
    if footer != Some(fw[end - 16..end]) { return None; }
    var length := UnLe(fw[end - 18..end - 16]);
    if !(0 < length <= end - 18) { return None; }
    var tables := fw[end - 18 - length..end - 18];
    var target := EncodeGuidLoop(TDX_METADATA_OFFSET_TEXT);
    if target.None? { return None; }
    var entry := FindEntryLoop(tables, target.value);
    if entry.None? { return None; }
    offset := Get(entry.value, |entry.value| - 4, 4);
  }

  /** rtmr0.py, which compares decoded texts. */
  method FindOffsetRtmr(fw: bytes) returns (offset: Option<nat>)
    ensures offset == MetaOffsetRtmr(fw)
  {
    hide DecodeGuid, ParseTable, UnLe;
    FooterText();
    MetadataText();
    var end := |fw| - BYTES_AFTER_TABLE_FOOTER;
    if end < ENTRY_HEADER { return None; }
    if fw[end - 16..end] != TABLE_FOOTER_GUID && DecodeGuid(fw[end - 16..end]) == TABLE_FOOTER_TEXT {
      DecodeInjective(fw[end - 16..end], TABLE_FOOTER_GUID);
    }
    if DecodeGuid(fw[end - 16..end]) != TABLE_FOOTER_TEXT { return None; }
    var length := UnLe(fw[end - 18..end - 16]);
    if length == 0 || length > end - 18 { return None; }
    var table := ParseTableLoop(fw[end - 18 - length..end - 18]);
    if TDX_METADATA_OFFSET_TEXT !in table { return None; }
    var data := table[TDX_METADATA_OFFSET_TEXT];
    offset := Some(UnLe(RelSlice(data, -4, |data|)));
  }

  /** measure.js. */
  method FindOffsetJs(data: bytes) returns (offset: Option<nat>)
    ensures offset == MetaOffsetJs(data)
  {
    hide DecodeGuid, WalkTable, UnLe;
    MetadataText();
    var start := |data| - 32 - ENTRY_HEADER;
    var footer := RelSlice(data, start, |data|);
    var size := Get(footer, 0, 2);
    if size.None? || Slice(footer, 2, 18) != TABLE_FOOTER_GUID { return None; }
    if size.value < ENTRY_HEADER { return None; }
    var table := WalkTableLoop(RelSlice(data, start - (size.value - ENTRY_HEADER), start));
    if table.None? || TDX_METADATA_OFFSET_TEXT !in table.value { return None; }
    var entry := table.value[TDX_METADATA_OFFSET_TEXT];
    offset := Get(entry, |entry| - 4, 4);
  }
}
