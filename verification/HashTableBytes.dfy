/** The table of blob hashes in guest memory, read off its bytes, and the verdict over it, stated without the functions that
    walk it. */
module HashTableBytes {
  import opened Bytes
  import opened BlobVerifier

  /** An entry: its GUID, its declared length, and the data behind the first 18 bytes. */
  datatype Row = Row(guid: bytes, len: nat, data: bytes)

  /** The bytes at `at` are these. */
  predicate BytesAt(mem: Memory, at: nat, b: bytes) {
    forall i | 0 <= i < |b| :: mem(at + i) == b[i]
  }

  /** The two bytes at `at`, the low one first. */
  function LengthAt(mem: Memory, at: nat): nat {
    mem(at) as nat + 0x100 * mem(at + 1) as nat
  }

  /** An entry that fits into the `n` bytes that remain. */
  predicate RowAt(mem: Memory, at: nat, n: nat, row: Row) {
    && n >= 18 && 0 < row.len <= n && row.len == LengthAt(mem, at + 16)
    && |row.guid| == 16 && BytesAt(mem, at, row.guid)
    && |row.data| == (if row.len < 18 then 0 else row.len - 18) && BytesAt(mem, at + 18, row.data)
  }

  /** No entry fits into the `n` bytes that remain. */
  predicate EndAt(mem: Memory, at: nat, n: nat) {
    n < 18 || LengthAt(mem, at + 16) == 0 || LengthAt(mem, at + 16) > n
  }

  /** The entries of the `n` bytes at `at`, one behind the other. */
  predicate Rows(mem: Memory, at: nat, n: nat, rows: seq<Row>)
    decreases |rows|
  {
    if rows == [] then EndAt(mem, at, n)
    else RowAt(mem, at, n, rows[0]) && Rows(mem, at + rows[0].len, n - rows[0].len, rows[1..])
  }

  lemma ReadIs(mem: Memory, at: nat, b: bytes)
    requires BytesAt(mem, at, b)
    ensures Read(mem, at, |b|) == b
  {
  }

  lemma LengthIs(mem: Memory, at: nat)
    ensures LenAt(mem, at) == LengthAt(mem, at + 16)
  {
    hide UnLe;
    UnLe2(Read(mem, at + 16, 2));
  }

  lemma EntryIs(mem: Memory, at: nat, n: nat, row: Row)
    requires RowAt(mem, at, n, row)
    ensures EntryAt(mem, at) == Entry(row.guid, row.len, row.data) && LenAt(mem, at) == row.len
  {
    hide LenAt, Read, BytesAt;
    LengthIs(mem, at);
    ReadIs(mem, at, row.guid);
    ReadIs(mem, at + 18, row.data);
  }

  /** The GUID of a blob's name. */
  predicate Names(guid: bytes, name: string) {
    || (name == "kernel" && guid == SEV_KERNEL_HASH_GUID)
    || (name == "initrd" && guid == SEV_INITRD_HASH_GUID)
    || (name == "cmdline" && guid == SEV_CMDLINE_HASH_GUID)
  }

  /** Row `k` is the first one of the name. */
  predicate FirstRow(rows: seq<Row>, name: string, k: nat) {
    k < |rows| && Names(rows[k].guid, name) && forall j | 0 <= j < k :: !Names(rows[j].guid, name)
  }

  lemma GuidIs(name: string)
    ensures FindBlobEntryGuid(name).Some? <==> name in ["kernel", "initrd", "cmdline"]
    ensures forall guid :: Names(guid, name) <==> FindBlobEntryGuid(name) == Some(guid)
  {
  }

  lemma {:induction false} EntriesAre(mem: Memory, at: nat, n: nat, rows: seq<Row>)
    requires Rows(mem, at, n, rows)
    ensures |Entries(mem, at, n)| == |rows|
    ensures forall i | 0 <= i < |rows| :: Entries(mem, at, n)[i] == Entry(rows[i].guid, rows[i].len, rows[i].data)
    decreases |rows|
  {
    hide LenAt, EntryAt, RowAt, LengthAt;
    LengthIs(mem, at);
    if rows != [] {
      RowFits(mem, at, n, rows[0]);
      EntryIs(mem, at, n, rows[0]);
      EntriesAre(mem, at + rows[0].len, n - rows[0].len, rows[1..]);
    }
  }

  lemma RowFits(mem: Memory, at: nat, n: nat, row: Row)
    requires RowAt(mem, at, n, row)
    ensures n >= 18 && 0 < row.len <= n
  {
  }

  lemma {:induction false} FirstIs(entries: seq<Entry>, guid: bytes, k: nat)
    requires k <= |entries| && forall j | 0 <= j < k :: entries[j].guid != guid
    requires k < |entries| ==> entries[k].guid == guid
    ensures FirstWith(entries, guid) == if k < |entries| then Some(entries[k]) else None
    decreases k
  {
    if k > 0 {
      FirstIs(entries[1..], guid, k - 1);
    }
  }

  lemma SomeFirst(rows: seq<Row>, name: string) returns (k: nat)
    ensures k <= |rows| && (k < |rows| ==> FirstRow(rows, name, k))
    ensures k == |rows| ==> forall j | 0 <= j < |rows| :: !Names(rows[j].guid, name)
  {
    hide Names;
    if j: nat :| j < |rows| && Names(rows[j].guid, name) {
      k := EarlierFirst(rows, name, j);
    } else {
      k := |rows|;
    }
  }

  lemma {:induction false} EarlierFirst(rows: seq<Row>, name: string, j: nat) returns (k: nat)
    requires j < |rows| && Names(rows[j].guid, name)
    ensures FirstRow(rows, name, k)
    decreases j
  {
    if i: nat :| i < j && Names(rows[i].guid, name) {
      k := EarlierFirst(rows, name, i);
    } else {
      k := j;
    }
  }

  /** A blob passes a table that holds anything exactly when its name is one of the three, the table has an entry with the GUID
      of that name, and the first such entry has 32 bytes of data, which are the blob's SHA-256. */
  lemma VerdictIs(mem: Memory, sha: Sha256, table: nat, n: nat, rows: seq<Row>, name: string, blob: bytes)
    requires n > 0 && Rows(mem, table, n, rows)
    ensures Verified(mem, sha, Some(table), n, name, blob) == Success <==>
              exists k: nat :: FirstRow(rows, name, k) && |rows[k].data| == 32 && sha(blob) == Some(rows[k].data)
  {
    hide Entries, FirstWith, Rows, FindBlobEntryGuid, Names;
    GuidIs(name);
    EntriesAre(mem, table, n, rows);
    var guid := FindBlobEntryGuid(name);
    if guid.Some? {
      var k := SomeFirst(rows, name);
      FirstIs(Entries(mem, table, n), guid.value, k);
      assert forall j: nat | FirstRow(rows, name, j) :: j == k;
    }
  }

  /** Without a table, or with one that holds nothing, every blob passes. */
  lemma NoTablePasses(mem: Memory, sha: Sha256, table: Option<nat>, n: nat, name: string, blob: bytes)
    requires table.None? || n == 0
    ensures Verified(mem, sha, table, n, name, blob) == Success
  {
  }

  /** Every memory has rows. */
  lemma {:induction false} EveryTable(mem: Memory, at: nat, n: nat) returns (rows: seq<Row>)
    ensures Rows(mem, at, n, rows)
    decreases n
  {
    if EndAt(mem, at, n) {
      rows := [];
    } else {
      var len := LengthAt(mem, at + 16);
      var row := Row(Read(mem, at, 16), len, if len < 18 then [] else Read(mem, at + 18, len - 18));
      var rest := EveryTable(mem, at + len, n - len);
      rows := [row] + rest;
      assert rows[1..] == rest;
    }
  }

  /** The table is looked for at `base`: its GUID, then its length, which counts the first 18 bytes and fits the window. */
  lemma TableIs(mem: Memory, base: nat, window: nat)
    ensures var length := LengthAt(mem, base + 16);
            Located(mem, base, window) ==
              if base != 0 && BytesAt(mem, base, SEV_HASH_TABLE_GUID) && 18 <= length <= window
              then (Some(base + 18), length - 18) else (None, 0)
  {
    hide LenAt;
    LengthIs(mem, base);
    if BytesAt(mem, base, SEV_HASH_TABLE_GUID) {
      ReadIs(mem, base, SEV_HASH_TABLE_GUID);
    }
    GuidBytes(mem, base);
  }

  lemma GuidBytes(mem: Memory, base: nat)
    ensures |SEV_HASH_TABLE_GUID| == 16
    ensures GuidAt(mem, base) == SEV_HASH_TABLE_GUID ==> BytesAt(mem, base, SEV_HASH_TABLE_GUID)
  {
    hide SEV_HASH_TABLE_GUID;
    GuidLength();
    if GuidAt(mem, base) == SEV_HASH_TABLE_GUID {
      forall i | 0 <= i < 16 ensures mem(base + i) == SEV_HASH_TABLE_GUID[i] {
        assert GuidAt(mem, base)[i] == mem(base + i);
      }
    }
  }

  lemma GuidLength()
    ensures |SEV_HASH_TABLE_GUID| == 16
  {
  }
}
