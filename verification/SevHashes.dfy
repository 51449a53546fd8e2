/** The hash table a guest is launched with (class `SevHashes` of measure.js), and the verifier that reads it. */
module SevHashes {
  import opened Bytes
  import opened Schema
  import opened BlobVerifier

  const GUID_LE := Schema([Field("data", Custom(16))], Plain)
  const SEV_HASH_TABLE_ENTRY := Schema([Field("guid", Sub(GUID_LE)), Field("length", UInt(2)), Field("hash", Custom(32))], Plain)
  const SEV_HASH_TABLE := Schema(
    [Field("guid", Sub(GUID_LE)), Field("length", UInt(2)), Field("cmdline", Sub(SEV_HASH_TABLE_ENTRY)),
     Field("initrd", Sub(SEV_HASH_TABLE_ENTRY)), Field("kernel", Sub(SEV_HASH_TABLE_ENTRY))], Plain)
  const PADDED_SEV_HASH_TABLE := Schema([Field("ht", Sub(SEV_HASH_TABLE)), Field("padding", Block(8))], Plain)

  const PAGE := 4096

  /** The SHA-256 values of the three blobs. */
  datatype Hashes = Hashes(kernel: bytes, initrd: bytes, cmdline: bytes)

  predicate Digests(hs: Hashes) {
    |hs.kernel| == |hs.initrd| == |hs.cmdline| == SHA256_DIGEST_SIZE
  }

  function HashOf(hs: Hashes, name: string): bytes
    requires name in ["kernel", "initrd", "cmdline"]
  {
    if name == "kernel" then hs.kernel else if name == "initrd" then hs.initrd else hs.cmdline
  }

  // ----- the records `construct_table` fills in

  function GuidRecord(guid: bytes): (r: Value)
    ensures r.Rec?
  {
    Rec(GUID_LE, map["data" := Blob(guid)])
  }

  function EntryRecord(guid: bytes, hash: bytes): (r: Value)
    ensures r.Rec?
  {
    Rec(SEV_HASH_TABLE_ENTRY, map["guid" := GuidRecord(guid), "length" := Int(50), "hash" := Blob(hash)])
  }

  function TableRecord(hs: Hashes): (r: Value)
    ensures r.Rec?
  {
    Rec(SEV_HASH_TABLE,
        map["guid" := GuidRecord(SEV_HASH_TABLE_GUID), "length" := Int(168),
            "cmdline" := EntryRecord(SEV_CMDLINE_HASH_GUID, hs.cmdline),
            "initrd" := EntryRecord(SEV_INITRD_HASH_GUID, hs.initrd),
            "kernel" := EntryRecord(SEV_KERNEL_HASH_GUID, hs.kernel)])
  }

  function PaddedRecord(hs: Hashes): (r: Value)
    ensures r.Rec?
  {
    Rec(PADDED_SEV_HASH_TABLE, map["ht" := TableRecord(hs)])
  }

  function EntryBytes(guid: bytes, hash: bytes): bytes {
    guid + Le(50, 2) + hash
  }

  function TableBytes(hs: Hashes): bytes {
    SEV_HASH_TABLE_GUID + Le(168, 2) + EntryBytes(SEV_CMDLINE_HASH_GUID, hs.cmdline)
    + EntryBytes(SEV_INITRD_HASH_GUID, hs.initrd) + EntryBytes(SEV_KERNEL_HASH_GUID, hs.kernel)
  }

  lemma GuidEncodes(guid: bytes)
    requires |guid| == 16
    ensures Fits(GuidRecord(guid)) && Encode(GuidRecord(guid)) == guid && Size(GUID_LE) == 16
  {
    var r := GuidRecord(guid);
    assert FitsAt(r, 0);
    assert EncodeFrom(r, 1) == [];
    assert EncodeFrom(r, 0) == guid + [];
  }

  lemma GuidSize()
    ensures Size(GUID_LE) == 16
  {
    var fs := GUID_LE.fields;
    NoOffset(fs);
    OffsetStep(fs, 1);
  }

  lemma EntrySize()
    ensures Size(SEV_HASH_TABLE_ENTRY) == 50
  {
    hide Offset;
    var fs := SEV_HASH_TABLE_ENTRY.fields;
    GuidSize();
    NoOffset(fs);
    OffsetStep(fs, 1);
    OffsetStep(fs, 2);
    OffsetStep(fs, 3);
  }

  lemma TableSize()
    ensures Size(SEV_HASH_TABLE) == 168
  {
    hide Offset;
    var fs := SEV_HASH_TABLE.fields;
    GuidSize();
    EntrySize();
    NoOffset(fs);
    OffsetStep(fs, 1);
    OffsetStep(fs, 2);
    OffsetStep(fs, 3);
    OffsetStep(fs, 4);
    OffsetStep(fs, 5);
  }

  lemma EntrySizes()
    ensures Size(SEV_HASH_TABLE_ENTRY) == 50 && Size(SEV_HASH_TABLE) == 168 && Size(PADDED_SEV_HASH_TABLE) == 176
  {
    hide Offset;
    var fs := PADDED_SEV_HASH_TABLE.fields;
    EntrySize();
    TableSize();
    NoOffset(fs);
    OffsetStep(fs, 1);
    OffsetStep(fs, 2);
  }

  lemma EntryEncodes(guid: bytes, hash: bytes)
    requires |guid| == 16 && |hash| == 32
    ensures Fits(EntryRecord(guid, hash)) && Encode(EntryRecord(guid, hash)) == EntryBytes(guid, hash)
  {
    GuidEncodes(guid);
    hide GuidRecord, Le, Size, Offset;
    var r := EntryRecord(guid, hash);
    assert FitsAt(r, 0) && FitsAt(r, 1) && FitsAt(r, 2);
    assert EncodeFrom(r, 3) == [];
    assert EncodeFrom(r, 2) == hash + [];
    assert EncodeFrom(r, 1) == Le(50, 2) + hash;
    assert EncodeFrom(r, 0) == guid + (Le(50, 2) + hash);
  }

  lemma TableFits(hs: Hashes)
    requires Digests(hs)
    ensures Fits(TableRecord(hs))
  {
    GuidEncodes(SEV_HASH_TABLE_GUID);
    EntryEncodes(SEV_CMDLINE_HASH_GUID, hs.cmdline);
    EntryEncodes(SEV_INITRD_HASH_GUID, hs.initrd);
    EntryEncodes(SEV_KERNEL_HASH_GUID, hs.kernel);
    hide Encode, EntryBytes, Size, Offset;
    var r := TableRecord(hs);
    assert FitsAt(r, 0);
    assert FitsAt(r, 1);
    assert FitsAt(r, 2);
    assert FitsAt(r, 3);
    assert FitsAt(r, 4);
  }

  lemma TableEncodes(hs: Hashes)
    requires Digests(hs)
    ensures Encode(TableRecord(hs)) == TableBytes(hs)
  {
    GuidEncodes(SEV_HASH_TABLE_GUID);
    EntryEncodes(SEV_CMDLINE_HASH_GUID, hs.cmdline);
    EntryEncodes(SEV_INITRD_HASH_GUID, hs.initrd);
    EntryEncodes(SEV_KERNEL_HASH_GUID, hs.kernel);
    hide GuidRecord, EntryRecord, Le, Size, EntryBytes, Offset, Fits;
    var r := TableRecord(hs);
    var c := EntryBytes(SEV_CMDLINE_HASH_GUID, hs.cmdline);
    var i := EntryBytes(SEV_INITRD_HASH_GUID, hs.initrd);
    var k := EntryBytes(SEV_KERNEL_HASH_GUID, hs.kernel);
    assert EncodeFrom(r, 5) == [];
    assert EncodeFrom(r, 4) == k + [];
    assert EncodeFrom(r, 3) == i + (k + []);
    assert EncodeFrom(r, 2) == c + (i + (k + []));
    assert EncodeFrom(r, 1) == Le(168, 2) + (c + (i + (k + [])));
    assert EncodeFrom(r, 0) == SEV_HASH_TABLE_GUID + (Le(168, 2) + (c + (i + (k + []))));
    FiveParts(SEV_HASH_TABLE_GUID, Le(168, 2), c, i, k);
  }

  lemma FiveParts(a: bytes, b: bytes, c: bytes, d: bytes, e: bytes)
    ensures a + (b + (c + (d + (e + [])))) == a + b + c + d + e
  {
  }

  // ----- the page

  /** `construct_table`: the table and its padding. */
  function ConstructTable(hs: Hashes): Option<bytes> {
    Pack(PaddedRecord(hs))
  }

  lemma ConstructTableIs(hs: Hashes)
    requires Digests(hs)
    ensures ConstructTable(hs) == Some(TableBytes(hs) + Zeros(8)) && |TableBytes(hs)| == 168
  {
    TableFits(hs);
    TableEncodes(hs);
    EntrySizes();
    PackIsEncode(TableRecord(hs));
    hide TableRecord, TableBytes, Pack, Offset, Size, Encode;
    var r := PaddedRecord(hs);
    assert FitsAt(r, 0);
    assert FitsAt(r, 1);
    PackIsEncode(r);
    PaddedEncodes(hs);
  }

  lemma PaddedEncodes(hs: Hashes)
    ensures Encode(PaddedRecord(hs)) == Encode(TableRecord(hs)) + Zeros(8)
  {
    hide TableRecord, Size, Offset;
    var r := PaddedRecord(hs);
    assert EncodeFrom(r, 2) == [];
    assert EncodeFrom(r, 1) == Zeros(8) + [];
    assert EncodeFrom(r, 0) == Encode(TableRecord(hs)) + EncodeFrom(r, 1);
  }

  /** `construct_page`: the table at `offset` of a zeroed page; an exception when it does not fit. */
  function ConstructPage(hs: Hashes, offset: nat): Option<bytes> {
    var table :- ConstructTable(hs);
    if offset + |table| > PAGE then None else Put(Zeros(PAGE), offset, table)
  }

  method Page(hs: Hashes, gpa: nat) returns (r: Option<bytes>)
    ensures r == ConstructPage(hs, gpa % PAGE)
  {
    hide Pack;
    var offset := gpa % PAGE;
    var table := Pack(PaddedRecord(hs));
    if table.None? || offset + |table.value| > 4096 { return None; }
    var page := new byte[4096](_ => 0);
    assert page[..] == Zeros(PAGE);
    var _ := Store(page, offset, table.value);
    r := Some(page[..]);
  }

  // ----- the verifier reads the table

  /** An entry of the table in memory. */
  lemma EntryRead(mem: Memory, at: nat, guid: bytes, hash: bytes)
    requires |guid| == 16 && |hash| == 32 && Read(mem, at, 50) == EntryBytes(guid, hash)
    ensures LenAt(mem, at) == 50 && EntryAt(mem, at) == Entry(guid, 50, hash)
  {
    hide Le, UnLe, Read, LenAt;
    var b := Read(mem, at, 50);
    assert b[0..50] == b;
    EntryParts(b, guid, hash);
    ReadPiece(mem, at, 50, 0, 16);
    ReadPiece(mem, at, 50, 16, 18);
    ReadPiece(mem, at, 50, 18, 50);
    LengthRead(mem, at, 50);
  }

  lemma EntryParts(b: bytes, guid: bytes, hash: bytes)
    requires |guid| == 16 && |hash| == 32 && b == EntryBytes(guid, hash)
    ensures b[0..16] == guid && b[16..18] == Le(50, 2) && b[18..50] == hash
  {
    hide Le;
  }

  lemma ReadPiece(mem: Memory, at: nat, n: nat, i: nat, j: nat)
    requires i <= j <= n
    ensures Read(mem, at, n)[i..j] == Read(mem, at + i, j - i)
  {
  }

  lemma TableParts(hs: Hashes)
    requires Digests(hs) && |TableBytes(hs)| == 168
    ensures var b := TableBytes(hs);
            && b[0..16] == SEV_HASH_TABLE_GUID && b[16..18] == Le(168, 2)
            && b[18..68] == EntryBytes(SEV_CMDLINE_HASH_GUID, hs.cmdline)
            && b[68..118] == EntryBytes(SEV_INITRD_HASH_GUID, hs.initrd)
            && b[118..168] == EntryBytes(SEV_KERNEL_HASH_GUID, hs.kernel)
  {
    var b := TableBytes(hs);
    var c := EntryBytes(SEV_CMDLINE_HASH_GUID, hs.cmdline);
    var i := EntryBytes(SEV_INITRD_HASH_GUID, hs.initrd);
    var k := EntryBytes(SEV_KERNEL_HASH_GUID, hs.kernel);
    assert |c| == |i| == |k| == 50;
    hide EntryBytes, Le;
    var head := SEV_HASH_TABLE_GUID + Le(168, 2);
    assert b == head + c + i + k && b[0..168] == b;
    FourPieces(b, 0, head, c, i, k);
    TwoPieces(b, 0, SEV_HASH_TABLE_GUID, Le(168, 2));
  }

  lemma TableRead(mem: Memory, base: nat, hs: Hashes)
    requires Digests(hs) && |TableBytes(hs)| == 168 && Read(mem, base, 168) == TableBytes(hs)
    ensures GuidAt(mem, base) == SEV_HASH_TABLE_GUID && LenAt(mem, base) == 168
    ensures Read(mem, base + 18, 50) == EntryBytes(SEV_CMDLINE_HASH_GUID, hs.cmdline)
    ensures Read(mem, base + 68, 50) == EntryBytes(SEV_INITRD_HASH_GUID, hs.initrd)
    ensures Read(mem, base + 118, 50) == EntryBytes(SEV_KERNEL_HASH_GUID, hs.kernel)
  {
    hide Le, UnLe, TableBytes, EntryBytes, Read, LenAt, Digests;
    TableParts(hs);
    ReadPiece(mem, base, 168, 0, 16);
    ReadPiece(mem, base, 168, 16, 18);
    ReadPiece(mem, base, 168, 18, 68);
    ReadPiece(mem, base, 168, 68, 118);
    ReadPiece(mem, base, 168, 118, 168);
    LengthRead(mem, base, 168);
  }

  lemma LengthRead(mem: Memory, at: nat, length: nat)
    requires length < 0x1_0000 && Read(mem, at + 16, 2) == Le(length, 2)
    ensures LenAt(mem, at) == length
  {
    PowValues();
    UnLeLe(length, 2);
    hide Le, UnLe, Pow256, Read;
  }

  lemma TableEntries(mem: Memory, base: nat, hs: Hashes)
    requires Digests(hs) && |TableBytes(hs)| == 168 && Read(mem, base, 168) == TableBytes(hs)
    ensures Entries(mem, base + 18, 150) ==
      [Entry(SEV_CMDLINE_HASH_GUID, 50, hs.cmdline), Entry(SEV_INITRD_HASH_GUID, 50, hs.initrd),
       Entry(SEV_KERNEL_HASH_GUID, 50, hs.kernel)]
  {
    hide TableBytes, EntryBytes, Read, LenAt, EntryAt;
    TableRead(mem, base, hs);
    EntryRead(mem, base + 18, SEV_CMDLINE_HASH_GUID, hs.cmdline);
    EntryRead(mem, base + 68, SEV_INITRD_HASH_GUID, hs.initrd);
    EntryRead(mem, base + 118, SEV_KERNEL_HASH_GUID, hs.kernel);
    assert Entries(mem, base + 168, 0) == [];
    assert Entries(mem, base + 118, 50) == [EntryAt(mem, base + 118)];
    assert Entries(mem, base + 68, 100) == [EntryAt(mem, base + 68)] + Entries(mem, base + 118, 50);
  }

  lemma DifferentGuids()
    ensures SEV_CMDLINE_HASH_GUID != SEV_INITRD_HASH_GUID && SEV_CMDLINE_HASH_GUID != SEV_KERNEL_HASH_GUID
    ensures SEV_INITRD_HASH_GUID != SEV_KERNEL_HASH_GUID
  {
    assert SEV_CMDLINE_HASH_GUID[0] == 0xd8 && SEV_INITRD_HASH_GUID[0] == 0x31 && SEV_KERNEL_HASH_GUID[0] == 0x37;
  }

  /** Once the page of the hashes is in guest memory with the table where the platform expects it, the verifier finds the
      table and lets a blob through exactly when its name is one of the three and its SHA-256 the one given for it. */
  lemma PageVerifies(mem: Memory, sha: Sha256, hs: Hashes, page: nat, offset: nat, size: nat, name: string, data: bytes)
    requires Digests(hs) && offset + 176 <= PAGE && page + offset > 0 && size >= 168
    requires ConstructPage(hs, offset).Some? ==> Read(mem, page, PAGE) == ConstructPage(hs, offset).value
    ensures ConstructPage(hs, offset).Some?
    ensures var (table, n) := Located(mem, page + offset, size);
            && table.Some? && n == 150
            && (Verified(mem, sha, table, n, name, data) == Success <==>
                  name in ["kernel", "initrd", "cmdline"] && sha(data) == Some(HashOf(hs, name)))
  {
    hide TableBytes, Read, LenAt, GuidAt, EntryAt, Entries, Digests, ConstructPage, Verdict;
    ConstructTableIs(hs);
    PageHolds(mem, hs, page, offset);
    TableRead(mem, page + offset, hs);
    TableEntries(mem, page + offset, hs);
    ThreeVerdicts(sha, hs, name, data);
  }

  /** What a table of these three entries says. */
  lemma ThreeVerdicts(sha: Sha256, hs: Hashes, name: string, data: bytes)
    requires Digests(hs)
    ensures var entries := [Entry(SEV_CMDLINE_HASH_GUID, 50, hs.cmdline), Entry(SEV_INITRD_HASH_GUID, 50, hs.initrd),
                            Entry(SEV_KERNEL_HASH_GUID, 50, hs.kernel)];
            Verdict(sha, entries, name, data) == Success <==>
              name in ["kernel", "initrd", "cmdline"] && sha(data) == Some(HashOf(hs, name))
  {
    hide FirstWith;
    DifferentGuids();
    FirstOfThree(Entry(SEV_CMDLINE_HASH_GUID, 50, hs.cmdline), Entry(SEV_INITRD_HASH_GUID, 50, hs.initrd),
                 Entry(SEV_KERNEL_HASH_GUID, 50, hs.kernel));
  }

  lemma FirstOfThree(a: Entry, b: Entry, c: Entry)
    requires a.guid != b.guid && a.guid != c.guid && b.guid != c.guid
    ensures FirstWith([a, b, c], a.guid) == Some(a) && FirstWith([a, b, c], b.guid) == Some(b) && FirstWith([a, b, c], c.guid) == Some(c)
  {
    assert [a, b, c][1..] == [b, c] && [b, c][1..] == [c];
    assert FirstWith([c], c.guid) == Some(c);
    assert FirstWith([b, c], c.guid) == Some(c);
  }

  lemma PageHolds(mem: Memory, hs: Hashes, page: nat, offset: nat)
    requires Digests(hs) && offset + 176 <= PAGE && |TableBytes(hs)| == 168 && ConstructTable(hs) == Some(TableBytes(hs) + Zeros(8))
    requires ConstructPage(hs, offset).Some? ==> Read(mem, page, PAGE) == ConstructPage(hs, offset).value
    ensures ConstructPage(hs, offset).Some? && Read(mem, page + offset, 168) == TableBytes(hs)
  {
    hide TableBytes, ConstructTable;
    var b := ConstructPage(hs, offset).value;
    assert b[offset..offset + 168] == TableBytes(hs);
    ReadPiece(mem, page, PAGE, offset, offset + 168);
  }

  /** A page of zeros but for the table: its GUID and its length, and then the entries of the command line, the initrd and the
      kernel, each its GUID, its length and its hash. */
  lemma PageSpelled(hs: Hashes, offset: nat)
    requires Digests(hs)
    ensures ConstructPage(hs, offset) ==
              if offset + 176 > 4096 then None
              else
                Some(Zeros(offset)
                     + (SEV_HASH_TABLE_GUID + [168, 0] + (SEV_CMDLINE_HASH_GUID + [50, 0] + hs.cmdline)
                        + (SEV_INITRD_HASH_GUID + [50, 0] + hs.initrd) + (SEV_KERNEL_HASH_GUID + [50, 0] + hs.kernel))
                     + Zeros(4096 - offset - 168))
  {
    hide ConstructTable, TableBytes, Zeros;
    ConstructTableIs(hs);
    TableSpelled(hs);
    if offset + 176 <= 4096 {
      PutZeros(offset, TableBytes(hs));
    }
  }

  lemma TableSpelled(hs: Hashes)
    ensures TableBytes(hs) ==
      SEV_HASH_TABLE_GUID + [168, 0] + (SEV_CMDLINE_HASH_GUID + [50, 0] + hs.cmdline)
      + (SEV_INITRD_HASH_GUID + [50, 0] + hs.initrd) + (SEV_KERNEL_HASH_GUID + [50, 0] + hs.kernel)
  {
    hide Le;
    LeByte(168, 2);
    LeByte(50, 2);
    assert Zeros(1) == [0];
  }

  /** A table and its padding put into a zeroed page. */
  lemma PutZeros(offset: nat, table: bytes)
    requires |table| == 168 && offset + 176 <= 4096
    ensures Put(Zeros(4096), offset, table + Zeros(8)) == Some(Zeros(offset) + table + Zeros(4096 - offset - 168))
  {
    var page := Put(Zeros(4096), offset, table + Zeros(8)).value;
    assert page == Zeros(offset) + (table + Zeros(8)) + Zeros(4096 - offset - 176);
    assert Zeros(8) + Zeros(4096 - offset - 176) == Zeros(4096 - offset - 168);
    Assoc(Zeros(offset) + table, Zeros(8), Zeros(4096 - offset - 176));
    Assoc(Zeros(offset), table, Zeros(8));
  }
}
