/** The verifier of loader blobs: a table of GUIDs and SHA-256 values injected into guest memory (BlobVerifier.c). */
module BlobVerifier {
  import opened Bytes

  const SEV_HASH_TABLE_GUID: bytes :=
    [0x06, 0xd6, 0x38, 0x94, 0x22, 0x4f, 0xc9, 0x4c, 0xb4, 0x79, 0xa7, 0x93, 0xd4, 0x11, 0xfd, 0x21]
  const SEV_KERNEL_HASH_GUID: bytes :=
    [0x37, 0x94, 0xe7, 0x4d, 0xd2, 0xab, 0x7f, 0x42, 0xb8, 0x35, 0xd5, 0xb1, 0x72, 0xd2, 0x04, 0x5b]
  const SEV_INITRD_HASH_GUID: bytes :=
    [0x31, 0xf7, 0xba, 0x44, 0x2f, 0x3a, 0xd7, 0x4b, 0x9a, 0xf1, 0x41, 0xe2, 0x91, 0x69, 0x78, 0x1d]
  const SEV_CMDLINE_HASH_GUID: bytes :=
    [0xd8, 0x2d, 0xd0, 0x97, 0x20, 0xbd, 0x94, 0x4c, 0xaa, 0x78, 0xe7, 0x71, 0x4d, 0x36, 0xab, 0x2a]
  const HEADER_SIZE := 18
  const SHA256_DIGEST_SIZE := 32

  /** Guest memory. */
  type Memory = nat -> byte

  /** SHA-256, or nothing when the library call fails. */
  type Sha256 = h: bytes -> Option<bytes> | forall b :: h(b).Some? ==> |h(b).value| == SHA256_DIGEST_SIZE
    witness (b: bytes) => None

  datatype Status = Success | AccessDenied

  function Read(mem: Memory, at: nat, n: nat): (b: bytes)
    ensures |b| == n
  {
    seq(n, i requires 0 <= i < n => mem(at + i))
  }

  function GuidAt(mem: Memory, at: nat): bytes {
    Read(mem, at, 16)
  }

  function LenAt(mem: Memory, at: nat): (n: nat)
    ensures n < 0x1_0000
  {
    PowValues();
    UnLe(Read(mem, at + 16, 2))
  }

  function FindBlobEntryGuid(name: string): Option<bytes> {
    if name == "kernel" then Some(SEV_KERNEL_HASH_GUID)
    else if name == "initrd" then Some(SEV_INITRD_HASH_GUID)
    else if name == "cmdline" then Some(SEV_CMDLINE_HASH_GUID)
    else None
  }

  /** A signed number compared with `sizeof`: converted to 64 bits without sign. */
  function Unsigned(n: int): nat {
    n % 0x1_0000_0000_0000_0000
  }

  // ----- what a table says

  datatype Entry = Entry(guid: bytes, len: nat, data: bytes)

  function EntryAt(mem: Memory, at: nat): Entry {
    var len := LenAt(mem, at);
    Entry(GuidAt(mem, at), len, if len < HEADER_SIZE then [] else Read(mem, at + HEADER_SIZE, len - HEADER_SIZE))
  }

  /** The entries the walk visits: until a length of zero, or one that does not fit into what remains. */
  function Entries(mem: Memory, at: nat, remaining: nat): seq<Entry>
    decreases remaining
  {
    if remaining < HEADER_SIZE || LenAt(mem, at) == 0 || remaining < LenAt(mem, at) then []
    else [EntryAt(mem, at)] + Entries(mem, at + LenAt(mem, at), remaining - LenAt(mem, at))
  }

  function FirstWith(entries: seq<Entry>, guid: bytes): Option<Entry> {
    if entries == [] then None
    else if entries[0].guid == guid then Some(entries[0])
    else FirstWith(entries[1..], guid)
  }

  /** Entry `e` vouches for the data. */
  predicate Vouches(sha: Sha256, e: Entry, data: bytes) {
    |e.data| == SHA256_DIGEST_SIZE && sha(data) == Some(e.data)
  }

  /** The verdict over a table of entries: that of the first entry of the blob's name. */
  function Verdict(sha: Sha256, entries: seq<Entry>, name: string, data: bytes): Status {
    var guid := FindBlobEntryGuid(name);
    if guid.None? then AccessDenied
    else
      var e := FirstWith(entries, guid.value);
      if e.Some? && Vouches(sha, e.value, data) then Success else AccessDenied
  }

  /** The walk goes on to another entry. */
  predicate More(mem: Memory, at: nat, remaining: nat) {
    LenAt(mem, at) != 0 && remaining >= HEADER_SIZE && remaining >= LenAt(mem, at)
  }

  /** The verdict of the walk from an entry on. */
  function Walked(mem: Memory, sha: Sha256, at: nat, remaining: nat, guid: bytes, data: bytes): Status {
    var e := FirstWith(Entries(mem, at, remaining), guid);
    if e.Some? && Vouches(sha, e.value, data) then Success else AccessDenied
  }

  lemma WalkStep(mem: Memory, sha: Sha256, at: nat, remaining: nat, guid: bytes, data: bytes)
    ensures Walked(mem, sha, at, remaining, guid, data) ==
      if !More(mem, at, remaining) then AccessDenied
      else if GuidAt(mem, at) == guid then (if Vouches(sha, EntryAt(mem, at), data) then Success else AccessDenied)
      else Walked(mem, sha, at + LenAt(mem, at), remaining - LenAt(mem, at), guid, data)
  {
    hide Read, LenAt, Vouches;
    if More(mem, at, remaining) {
      var rest := Entries(mem, at + LenAt(mem, at), remaining - LenAt(mem, at));
      assert ([EntryAt(mem, at)] + rest)[1..] == rest;
    }
  }

  lemma SmallUnsigned(n: int)
    requires -0x1_0000 <= n < 0x1_0000
    ensures Unsigned(n) == if n < 0 then 0x1_0000_0000_0000_0000 + n else n
  {
  }

  /** The guard of the walk, whose first comparison is without sign. */
  lemma Guard(mem: Memory, at: nat, remaining: nat)
    requires remaining < 0x1_0000
    ensures LenAt(mem, at) != 0 && Unsigned(remaining) >= HEADER_SIZE && remaining >= LenAt(mem, at) <==> More(mem, at, remaining)
  {
    hide LenAt, Unsigned;
    SmallUnsigned(remaining);
  }

  /** The entry of the wanted GUID: its hash must have the right size and be that of the blob. */
  method CheckEntry(mem: Memory, sha: Sha256, entry: nat, buffer: bytes) returns (status: Status)
    ensures status == if Vouches(sha, EntryAt(mem, entry), buffer) then Success else AccessDenied
  {
    hide Read, LenAt, GuidAt, Unsigned;
    SmallUnsigned(LenAt(mem, entry) - 16 - 2);
    var entrySize := Unsigned(LenAt(mem, entry) - 16 - 2);
    if entrySize != SHA256_DIGEST_SIZE { return AccessDenied; }
    var hash := sha(buffer);
    if hash.None? { return AccessDenied; }
    var verified := Read(mem, entry + HEADER_SIZE, entrySize) == hash.value;
    status := if verified then Success else AccessDenied;
  }

  // ----- the library

  class Verifier {
    var mTable: Option<nat>
    var mTableSize: nat

    /** `base` and `size` are the fixed settings of the platform; a base of zero is no address. */
    constructor (mem: Memory, base: nat, size: nat)
      ensures (mTable, mTableSize) == Located(mem, base, size)
    {
      mTable, mTableSize := None, 0;
      if base == 0 || size < HEADER_SIZE || GuidAt(mem, base) != SEV_HASH_TABLE_GUID
         || LenAt(mem, base) < HEADER_SIZE || LenAt(mem, base) > size {
      } else {
        mTable := Some(base + HEADER_SIZE);
        mTableSize := LenAt(mem, base) - 16 - 2;
      }
    }

    predicate VerificationEnabled()
      reads this
    {
      mTable.Some? || mTableSize != 0
    }

    /** The verdict, without a table or with an empty one always a success. */
    method VerifyBlob(mem: Memory, sha: Sha256, name: string, buffer: bytes) returns (status: Status)
      requires mTableSize < 0x1_0000
      ensures status == Verified(mem, sha, mTable, mTableSize, name, buffer)
    {
      hide Entries, FirstWith, LenAt, GuidAt, EntryAt, Unsigned, Vouches, Walked, More, FindBlobEntryGuid, Read;
      if mTable == None || mTableSize == 0 { return Success; }
      var guid := FindBlobEntryGuid(name);
      if guid.None? { return AccessDenied; }
      assert Verified(mem, sha, mTable, mTableSize, name, buffer) == Walked(mem, sha, mTable.value, mTableSize, guid.value, buffer)
        by { VerdictWalks(mem, sha, mTable.value, mTableSize, name, buffer); }
      var remaining: int := mTableSize;
      var entry: nat := mTable.value;
      Guard(mem, entry, remaining);
      while LenAt(mem, entry) != 0 && Unsigned(remaining) >= HEADER_SIZE && remaining >= LenAt(mem, entry)
        invariant 0 <= remaining <= mTableSize
        invariant LenAt(mem, entry) != 0 && Unsigned(remaining) >= HEADER_SIZE && remaining >= LenAt(mem, entry)
                  <==> More(mem, entry, remaining)
        invariant Walked(mem, sha, mTable.value, mTableSize, guid.value, buffer)
               == Walked(mem, sha, entry, remaining, guid.value, buffer)
        decreases remaining
      {
        WalkStep(mem, sha, entry, remaining, guid.value, buffer);
        if GuidAt(mem, entry) != guid.value {
          remaining, entry := remaining - LenAt(mem, entry), entry + LenAt(mem, entry);
          Guard(mem, entry, remaining);
          continue;
        }
        status := CheckEntry(mem, sha, entry, buffer);
        return;
      }
      WalkStep(mem, sha, entry, remaining, guid.value, buffer);
      status := AccessDenied;
    }
  }

  lemma VerdictWalks(mem: Memory, sha: Sha256, at: nat, remaining: nat, name: string, data: bytes)
    requires FindBlobEntryGuid(name).Some?
    ensures Verdict(sha, Entries(mem, at, remaining), name, data)
         == Walked(mem, sha, at, remaining, FindBlobEntryGuid(name).value, data)
  {
    hide Entries, FirstWith, Vouches;
  }

  /** Where the constructor finds the table and how long it takes it to be. */
  function Located(mem: Memory, base: nat, size: nat): (Option<nat>, nat) {
    if base == 0 || size < HEADER_SIZE || GuidAt(mem, base) != SEV_HASH_TABLE_GUID
       || !(HEADER_SIZE <= LenAt(mem, base) <= size) then (None, 0)
    else (Some(base + HEADER_SIZE), LenAt(mem, base) - HEADER_SIZE)
  }

  function Verified(mem: Memory, sha: Sha256, mTable: Option<nat>, mTableSize: nat, name: string, data: bytes): Status {
    if mTable.None? || mTableSize == 0 then Success
    else Verdict(sha, Entries(mem, mTable.value, mTableSize), name, data)
  }

  // ----- what a verdict depends on

  lemma SameRead(mem: Memory, mem': Memory, at: nat, n: nat)
    requires forall i | at <= i < at + n :: mem(i) == mem'(i)
    ensures Read(mem, at, n) == Read(mem', at, n)
  {
  }

  lemma SameEntry(mem: Memory, mem': Memory, at: nat, remaining: nat)
    requires remaining >= HEADER_SIZE && forall i | at <= i < at + remaining :: mem(i) == mem'(i)
    ensures LenAt(mem, at) == LenAt(mem', at) && GuidAt(mem, at) == GuidAt(mem', at)
    ensures LenAt(mem, at) <= remaining ==> EntryAt(mem, at) == EntryAt(mem', at)
  {
    hide Read, UnLe;
    SameRead(mem, mem', at, 16);
    SameRead(mem, mem', at + 16, 2);
    var len := LenAt(mem, at);
    if HEADER_SIZE <= len <= remaining {
      SameRead(mem, mem', at + HEADER_SIZE, len - HEADER_SIZE);
    }
  }

  /** The entries, so the verdict, depend on the bytes of the table alone. */
  lemma {:induction false} EntriesLocal(mem: Memory, mem': Memory, at: nat, remaining: nat)
    requires forall i | at <= i < at + remaining :: mem(i) == mem'(i)
    ensures Entries(mem, at, remaining) == Entries(mem', at, remaining)
    decreases remaining
  {
    hide LenAt, EntryAt;
    if remaining >= HEADER_SIZE {
      SameEntry(mem, mem', at, remaining);
      var len := LenAt(mem, at);
      if 0 < len <= remaining {
        EntriesLocal(mem, mem', at + len, remaining - len);
      }
    }
  }

  /** Memory outside the table has no influence. */
  lemma VerdictLocal(mem: Memory, mem': Memory, sha: Sha256, base: nat, size: nat, name: string, data: bytes)
    requires forall i | base <= i < base + size :: mem(i) == mem'(i)
    ensures Located(mem, base, size) == Located(mem', base, size)
    ensures var (table, n) := Located(mem, base, size);
            Verified(mem, sha, table, n, name, data) == Verified(mem', sha, table, n, name, data)
  {
    hide LenAt, GuidAt, Entries;
    if size >= HEADER_SIZE {
      SameEntry(mem, mem', base, size);
      var (table, n) := Located(mem, base, size);
      if table.Some? {
        EntriesLocal(mem, mem', table.value, n);
      }
    }
  }

  /** What succeeds against a table that holds anything is named by one of three GUIDs and has the very hash of the first
      entry of its name. */
  lemma SuccessMeans(mem: Memory, sha: Sha256, table: nat, size: nat, name: string, data: bytes)
    requires size > 0 && Verified(mem, sha, Some(table), size, name, data) == Success
    ensures name in ["kernel", "initrd", "cmdline"]
    ensures var e := FirstWith(Entries(mem, table, size), FindBlobEntryGuid(name).value);
            e.Some? && sha(data) == Some(e.value.data) && e.value.len == HEADER_SIZE + SHA256_DIGEST_SIZE
  {
    hide EntryAt, LenAt, FirstWith;
    var guid := FindBlobEntryGuid(name).value;
    var e := FirstWith(Entries(mem, table, size), guid).value;
    FirstIsEntry(Entries(mem, table, size), guid);
    EntryShape(mem, table, size, e);
  }

  lemma {:induction false} FirstIsEntry(entries: seq<Entry>, guid: bytes)
    requires FirstWith(entries, guid).Some?
    ensures FirstWith(entries, guid).value in entries
  {
    if entries[0].guid != guid {
      FirstIsEntry(entries[1..], guid);
    }
  }

  lemma {:induction false} EntryShape(mem: Memory, at: nat, remaining: nat, e: Entry)
    requires e in Entries(mem, at, remaining)
    ensures e.len > 0 && |e.guid| == 16 && |e.data| == if e.len < HEADER_SIZE then 0 else e.len - HEADER_SIZE
    decreases remaining
  {
    if e != EntryAt(mem, at) {
      EntryShape(mem, at + LenAt(mem, at), remaining - LenAt(mem, at), e);
    }
  }

  /** A table with no room for an entry verifies everything although verification counts as enabled. */
  lemma EmptyTableVerifiesAll(mem: Memory, sha: Sha256, base: nat, size: nat, name: string, data: bytes)
    requires base > 0 && size >= HEADER_SIZE && GuidAt(mem, base) == SEV_HASH_TABLE_GUID && LenAt(mem, base) == HEADER_SIZE
    ensures Located(mem, base, size) == (Some(base + HEADER_SIZE), 0)
    ensures Verified(mem, sha, Some(base + HEADER_SIZE), 0, name, data) == Success
  {
  }
}
