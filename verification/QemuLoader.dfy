/** The driver that fetches boot blobs from the fw_cfg device and serves them as files (QemuLoader.c). */
module QemuLoader {
  import opened Bytes
  import opened FwCfgDevice
  import BlobVerifier

  const INITRD_SIZE := 0x0b
  const INITRD_DATA := 0x12
  const CMDLINE_SIZE := 0x14
  const CMDLINE_DATA := 0x15
  const INITRD := 1
  const NAME_SIZE := 48
  const SIZE_1MB := 0x10_0000

  /** A blob; `data` is nothing for a null pointer, a key is nothing for -1. */
  datatype Item = Item(name: string, size: nat, data: Option<bytes>, sizeKey: Option<nat>, dataKey: Option<nat>)

  datatype Status =
    | Success | NotFound | Unsupported | OutOfResources | AccessDenied | WriteProtected | InvalidParameter
    | DeviceError | BufferTooSmall | InstallFailed | WarnDeleteFailure

  const LOADER_ITEMS: seq<Item> := [
    Item("kernel", 0, None, None, None),
    Item("initrd", 0, None, Some(INITRD_SIZE), Some(INITRD_DATA)),
    Item("cmdline", 0, None, Some(CMDLINE_SIZE), Some(CMDLINE_DATA)),
    Item("EFI\\BOOT\\BOOTX64.EFI", 0, None, None, None),
    Item("startup.nsh", 0, None, None, None)
  ]

  /** The first item of that name. */
  function LookupItem(items: seq<Item>, name: string, from: nat): (r: Option<nat>)
    requires from <= |items|
    ensures r.Some? ==> from <= r.value < |items| && items[r.value].name == name
    ensures r.Some? ==> forall i | from <= i < r.value :: items[i].name != name
    ensures r.None? ==> forall i | from <= i < |items| :: items[i].name != name
    decreases |items| - from
  {
    if from == |items| then None else if items[from].name == name then Some(from) else LookupItem(items, name, from + 1)
  }

  // ----- what is known of the items before the fetch

  /** The sizes the device gives for the items with a size key. */
  function Sized(items: seq<Item>, stream: Stream, pos: nat, n: nat): (seq<Item>, nat)
    requires n <= |items|
  {
    if n == 0 then (items, pos)
    else
      var (before, at) := Sized(items, stream, pos, n - 1);
      if n - 1 < |before| && before[n - 1].sizeKey.Some? then
        (before[n - 1 := before[n - 1].(size := UnLe(Answer(stream, at, 4)))], at + 4)
      else (before, at)
  }

  /** The reads behind these sizes. */
  function SizeReads(items: seq<Item>, stream: Stream, pos: nat, n: nat): seq<Access>
    requires n <= |items|
  {
    if n == 0 then []
    else
      var before := SizeReads(items, stream, pos, n - 1);
      if items[n - 1].sizeKey.None? then before
      else before + [Select(items[n - 1].sizeKey.value), Fetch(Answer(stream, Sized(items, stream, pos, n - 1).1, 4))]
  }

  lemma NoSizes(items: seq<Item>, stream: Stream, pos: nat)
    ensures Sized(items, stream, pos, 0) == (items, pos) && SizeReads(items, stream, pos, 0) == []
  {
  }

  lemma SizesStep(items: seq<Item>, stream: Stream, pos: nat, n: nat)
    requires n < |items|
    ensures var (before, at) := Sized(items, stream, pos, n);
            var asked := SizeReads(items, stream, pos, n);
            && |before| == |items|
            && (items[n].sizeKey.None? ==>
                  Sized(items, stream, pos, n + 1) == (before, at) && SizeReads(items, stream, pos, n + 1) == asked)
            && (items[n].sizeKey.Some? ==>
                  && Sized(items, stream, pos, n + 1) == (before[n := before[n].(size := UnLe(Answer(stream, at, 4)))], at + 4)
                  && SizeReads(items, stream, pos, n + 1) ==
                       asked + [Select(items[n].sizeKey.value), Fetch(Answer(stream, at, 4))])
  {
    hide UnLe, Answer;
    SizedKeys(items, stream, pos, n);
  }

  lemma {:induction false} SizedKeys(items: seq<Item>, stream: Stream, pos: nat, n: nat)
    requires n <= |items|
    ensures var sized := Sized(items, stream, pos, n).0;
            |sized| == |items| && forall j | 0 <= j < |items| :: sized[j].sizeKey == items[j].sizeKey
  {
    hide UnLe, Answer;
    if n > 0 {
      SizedKeys(items, stream, pos, n - 1);
    }
  }

  function BlobName(entry: bytes): Option<string>
    requires |entry| == DIR_ENTRY_SIZE
  {
    var name := CString(entry[8..]);
    if "etc/boot/" <= name then
      var rest := name[9..];
      Some(if |rest| < NAME_SIZE then rest else rest[..NAME_SIZE - 1])
    else None
  }

  /** What one directory entry changes. */
  function Named(items: seq<Item>, entry: bytes): seq<Item>
    requires |entry| == DIR_ENTRY_SIZE
  {
    var name := BlobName(entry);
    if name.None? then items
    else
      var i := LookupItem(items, name.value, 0);
      if i.None? then items
      else items[i.value := items[i.value].(size := UnBe(entry[0..4]), dataKey := Some(UnBe(entry[4..6])))]
  }

  /** The first `n` entries of a directory, in order, so that the last one of a name decides. */
  function NamedAll(items: seq<Item>, dir: bytes, n: nat): seq<Item>
    requires n * 64 <= |dir|
  {
    if n == 0 then items else Named(NamedAll(items, dir, n - 1), dir[(n - 1) * 64..n * 64])
  }

  // ----- what every step keeps

  /** The five items, by name. */
  predicate Shape(items: seq<Item>) {
    && |items| == |LOADER_ITEMS|
    && forall i | 0 <= i < |items| ::
         items[i].name == LOADER_ITEMS[i].name && items[i].sizeKey == LOADER_ITEMS[i].sizeKey
  }

  /** A size that fits 32 bits, and one of zero where the device has no key for the item. */
  predicate Sound(item: Item) {
    item.size < 0x1_0000_0000 && (item.dataKey.None? ==> item.size == 0) && (item.sizeKey.Some? ==> item.dataKey.Some?)
  }

  predicate Unfetched(item: Item) {
    Sound(item) && item.data.None?
  }

  /** A blob of its size in memory, or an empty item. */
  predicate Fetched(item: Item) {
    Sound(item) && (item.data.Some? <==> item.size > 0) && (item.data.Some? ==> |item.data.value| == item.size)
  }

  predicate AllUnfetched(items: seq<Item>) {
    forall i | 0 <= i < |items| :: Unfetched(items[i])
  }

  predicate AllFetched(items: seq<Item>) {
    forall i | 0 <= i < |items| :: Fetched(items[i])
  }

  function Contents(item: Item): bytes {
    if item.data.Some? then item.data.value else []
  }

  /** The indices of the items with a blob, in table order. */
  function NonEmpty(items: seq<Item>): seq<nat> {
    var n := |items|;
    if n == 0 then []
    else NonEmpty(items[..n - 1]) + (if items[n - 1].size != 0 then [n - 1] else [])
  }

  function TotalSize(items: seq<Item>): nat {
    var n := |items|;
    if n == 0 then 0 else TotalSize(items[..n - 1]) + items[n - 1].size
  }

  lemma {:induction false} SizedKeeps(items: seq<Item>, stream: Stream, pos: nat, n: nat)
    requires n <= |items| && Shape(items) && AllUnfetched(items)
    ensures Shape(Sized(items, stream, pos, n).0) && AllUnfetched(Sized(items, stream, pos, n).0)
  {
    PowValues();
    hide UnLe, Answer;
    if n > 0 {
      SizedKeeps(items, stream, pos, n - 1);
    }
  }

  lemma NamedKeeps(items: seq<Item>, entry: bytes)
    requires |entry| == DIR_ENTRY_SIZE && Shape(items) && AllUnfetched(items)
    ensures Shape(Named(items, entry)) && AllUnfetched(Named(items, entry))
  {
    PowValues();
    hide UnBe, BlobName, LookupItem;
  }

  lemma {:induction false} NamedAllKeeps(items: seq<Item>, dir: bytes, n: nat)
    requires n * 64 <= |dir| && Shape(items) && AllUnfetched(items)
    ensures Shape(NamedAll(items, dir, n)) && AllUnfetched(NamedAll(items, dir, n))
  {
    hide Shape, AllUnfetched, Named;
    if n > 0 {
      NamedAllKeeps(items, dir, n - 1);
      NamedKeeps(NamedAll(items, dir, n - 1), dir[(n - 1) * 64..n * 64]);
    }
  }

  /** The reads of a blob: megabytes, and what is left. */
  function Chunks(data: bytes): seq<Access> {
    if data == [] then []
    else
      var n := if |data| < SIZE_1MB then |data| else SIZE_1MB;
      [Fetch(data[..n])] + Chunks(data[n..])
  }

  /** The items once sizes and named blobs are known: what the device answers decides, and nothing else. */
  function Discovered(stream: Stream, pos: nat): seq<Item> {
    var (sized, at) := Sized(LOADER_ITEMS, stream, pos, |LOADER_ITEMS|);
    var count := UnBe(Answer(stream, at, 4));
    NamedAll(sized, Answer(stream, at + 4, count * 64), count)
  }

  /** What the device is asked on the way, in order. */
  function DiscoveryReads(stream: Stream, pos: nat): seq<Access> {
    var at := Sized(LOADER_ITEMS, stream, pos, |LOADER_ITEMS|).1;
    var count := UnBe(Answer(stream, at, 4));
    SizeReads(LOADER_ITEMS, stream, pos, |LOADER_ITEMS|)
    + [Select(FILE_DIR), Fetch(Answer(stream, at, 4)), Fetch(Answer(stream, at + 4, count * 64))]
  }

  /** The items as they were but for their data. */
  predicate OnlyData(was: seq<Item>, items: seq<Item>) {
    |items| == |was| && forall i | 0 <= i < |items| :: items[i] == was[i].(data := items[i].data)
  }

  /** The blob is what the device gave right behind the select of its key, read in full. */
  ghost predicate FetchedFrom(item: Item, trace: seq<Access>) {
    item.data.Some? ==> item.dataKey.Some? && exists k :: FetchAt(item.dataKey.value, item.data.value, trace, k)
  }

  predicate FetchAt(key: nat, data: bytes, trace: seq<Access>, k: nat) {
    k < |trace| && trace[k] == Select(key) && Chunks(data) <= trace[k + 1..]
  }

  lemma FetchStays(item: Item, trace: seq<Access>, trace': seq<Access>)
    requires FetchedFrom(item, trace) && trace <= trace'
    ensures FetchedFrom(item, trace')
  {
    hide Chunks;
    if item.data.Some? {
      var k :| FetchAt(item.dataKey.value, item.data.value, trace, k);
      assert trace[k + 1..] <= trace'[k + 1..];
      assert FetchAt(item.dataKey.value, item.data.value, trace', k);
    }
  }

  lemma FetchIs(item: Item, key: nat, data: bytes, before: seq<Access>)
    requires item.dataKey == Some(key) && item.data == Some(data)
    ensures FetchedFrom(item, before + [Select(key)] + Chunks(data)) && before <= before + [Select(key)] + Chunks(data)
  {
    hide Chunks;
    var trace := before + [Select(key)] + Chunks(data);
    assert trace[|before| + 1..] == Chunks(data);
    assert FetchAt(key, data, trace, |before|);
  }

  class Loader {
    var items: seq<Item>
    var fetchedItems: nat
    var totalBytes: nat
    var fileSystem: bool
    var loadFile2: bool

    constructor ()
      ensures items == LOADER_ITEMS && fetchedItems == 0 && totalBytes == 0 && !fileSystem && !loadFile2
    {
      items := LOADER_ITEMS;
      fetchedItems, totalBytes, fileSystem, loadFile2 := 0, 0, false, false;
    }

    method ReadSizes(dev: Device)
      modifies this`items, dev
      ensures (items, dev.pos) == Sized(old(items), dev.stream, old(dev.pos), |old(items)|)
      ensures dev.trace == old(dev.trace) + SizeReads(old(items), dev.stream, old(dev.pos), |old(items)|)
    {
      hide Sized, SizeReads, UnLe, Answer;
      ghost var was := items;
      NoSizes(was, dev.stream, dev.pos);
      assert dev.trace + [] == dev.trace;
      for i := 0 to |items|
        invariant |items| == |was| && (items, dev.pos) == Sized(was, dev.stream, old(dev.pos), i)
        invariant forall j | 0 <= j < |items| :: items[j].sizeKey == was[j].sizeKey
        invariant dev.trace == old(dev.trace) + SizeReads(was, dev.stream, old(dev.pos), i)
      {
        SizesStep(was, dev.stream, old(dev.pos), i);
        if items[i].sizeKey.None? { continue; }
        dev.SelectItem(items[i].sizeKey.value);
        var size := dev.ReadBytes(4);
        items := items[i := items[i].(size := UnLe(size))];
      }
    }

    /** The named blobs of the directory; nothing changes when it is too large or memory runs out. */
    method LookupNamedBlobs(dev: Device, allocates: bool) returns (status: Status)
      modifies this`items, dev
      ensures var count := UnBe(Answer(dev.stream, old(dev.pos), 4));
              var dir := Answer(dev.stream, old(dev.pos) + 4, count * 64);
              && status == (if count > MAXIMUM_SLOTS then Unsupported else if !allocates then OutOfResources else Success)
              && items == (if status == Success then NamedAll(old(items), dir, count) else old(items))
              && dev.trace == old(dev.trace) + [Select(FILE_DIR), Fetch(Answer(dev.stream, old(dev.pos), 4))]
                              + (if status == Success then [Fetch(dir)] else [])
    {
      hide UnBe, NamedAll, Answer;
      dev.SelectItem(FILE_DIR);
      var raw := dev.ReadBytes(4);
      var count := UnBe(raw);
      if count > MAXIMUM_SLOTS { return Unsupported; }
      if !allocates { return OutOfResources; }
      var dir := dev.ReadBytes(count * 64);
      ApplyDirectory(dir, count);
      status := Success;
    }

    method ApplyDirectory(dir: bytes, count: nat)
      requires |dir| == count * 64
      modifies this`items
      ensures items == NamedAll(old(items), dir, count)
    {
      hide Named;
      for i := 0 to count
        invariant items == NamedAll(old(items), dir, i)
      {
        NameOne(dir[i * 64..(i + 1) * 64]);
      }
    }

    method NameOne(entry: bytes)
      requires |entry| == DIR_ENTRY_SIZE
      modifies this`items
      ensures items == Named(old(items), entry)
    {
      var name := BlobName(entry);
      if name.None? { return; }
      var i := LookupItem(items, name.value, 0);
      if i.None? { return; }
      items := items[i.value := items[i.value].(size := UnBe(entry[0..4]))];
      items := items[i.value := items[i.value].(dataKey := Some(UnBe(entry[4..6])))];
    }

    /** The blob is read in full right behind the select of its key, in pieces of at most a megabyte. */
    method FetchBlob(dev: Device, i: nat, allocates: bool) returns (status: Status)
      requires i < |items| && items[i].dataKey.Some?
      modifies this`items, this`totalBytes, dev
      ensures status == if old(items[i]).size == 0 || allocates then Success else OutOfResources
      ensures old(items[i]).size == 0 || !allocates ==>
        items == old(items) && totalBytes == old(totalBytes) && dev.trace == old(dev.trace)
      ensures old(items[i]).size > 0 && allocates ==>
        var data := Answer(dev.stream, old(dev.pos), old(items[i]).size);
        && items == old(items)[i := old(items[i]).(data := Some(data))]
        && totalBytes == old(totalBytes) + |data|
        && dev.trace == old(dev.trace) + [Select(old(items[i]).dataKey.value)] + Chunks(data)
    {
      var item := items[i];
      if item.size == 0 { return Success; }
      if !allocates { return OutOfResources; }
      totalBytes := totalBytes + item.size;
      var data := FetchChunks(dev, item.dataKey.value, item.size);
      items := items[i := item.(data := Some(data))];
      status := Success;
    }

    method FetchChunks(dev: Device, key: nat, size: nat) returns (data: bytes)
      modifies dev
      ensures data == Answer(dev.stream, old(dev.pos), size)
      ensures dev.trace == old(dev.trace) + [Select(key)] + Chunks(data)
    {
      ghost var all := Answer(dev.stream, dev.pos, size);
      dev.SelectItem(key);
      ghost var selected := dev.trace;
      var buffer := new byte[size](_ => 0);
      var dest: nat, rest: nat := 0, size;
      assert all[0..] == all;
      while rest > 0
        invariant dest + rest == size && dev.pos == old(dev.pos) + dest
        invariant buffer[..dest] == all[..dest]
        invariant dev.trace + Chunks(all[dest..]) == selected + Chunks(all)
      {
        hide Answer, Chunks, Put;
        var chunk := if rest < SIZE_1MB then rest else SIZE_1MB;
        ghost var before, done := dev.trace, buffer[..dest];
        var piece := dev.ReadBytes(chunk);
        PieceOfAnswer(dev.stream, old(dev.pos), size, dest, chunk);
        ChunksStep(all[dest..]);
        var _ := Store(buffer, dest, piece);
        assert all[dest..][..chunk] == piece && all[dest..][chunk..] == all[dest + chunk..];
        Assoc(before, [Fetch(piece)], Chunks(all[dest + chunk..]));
        assert buffer[..dest + chunk] == done + piece;
        assert all[..dest + chunk] == all[..dest] + piece;
        rest := rest - chunk;
        dest := dest + chunk;
      }
      assert all[dest..] == [] && dev.trace + [] == dev.trace;
      data := buffer[..];
    }

    /** Fetch and verify item `i`, counting it when it is not empty. */
    method TakeItem(dev: Device, verifier: BlobVerifier.Verifier, mem: BlobVerifier.Memory, sha: BlobVerifier.Sha256,
                    i: nat, allocates: bool)
      returns (status: Status)
      requires i < |items| && items[i].dataKey.Some? && Unfetched(items[i]) && verifier.mTableSize < 0x1_0000
      modifies this`items, this`totalBytes, this`fetchedItems, dev
      ensures |items| == |old(items)| && forall j | 0 <= j < |items| && j != i :: items[j] == old(items[j])
      ensures items[i] == old(items[i]).(data := items[i].data)
      ensures old(dev.trace) <= dev.trace && (status == Success ==> FetchedFrom(items[i], dev.trace))
      ensures status in [Success, OutOfResources, AccessDenied] && (status == OutOfResources ==> !allocates)
      ensures status == Success ==> Fetched(items[i]) && Passes(mem, sha, verifier.mTable, verifier.mTableSize, items[i])
      ensures status == AccessDenied ==> !Passes(mem, sha, verifier.mTable, verifier.mTableSize, items[i])
      ensures status == Success ==> totalBytes == old(totalBytes) + items[i].size
      ensures status == Success ==> fetchedItems == old(fetchedItems) + (if items[i].size > 0 then 1 else 0)
    {
      hide Chunks, Answer;
      status := FetchBlob(dev, i, allocates);
      if items[i].data.Some? {
        FetchIs(items[i], items[i].dataKey.value, items[i].data.value, old(dev.trace));
      }
      if status != Success { return; }
      var verdict := verifier.VerifyBlob(mem, sha, items[i].name, Contents(items[i]));
      if verdict != BlobVerifier.Success { return AccessDenied; }
      if items[i].size > 0 {
        fetchedItems := fetchedItems + 1;
      }
    }

    /** Sizes first, then the named blobs over them. */
    method Discover(dev: Device, allocatesDir: bool) returns (status: Status)
      requires items == LOADER_ITEMS
      modifies this`items, dev
      ensures |items| == |LOADER_ITEMS|
      ensures status == Success ==> Shape(items) && AllUnfetched(items) && items == Discovered(dev.stream, old(dev.pos))
      ensures status == Success ==> dev.trace == old(dev.trace) + DiscoveryReads(dev.stream, old(dev.pos))
    {
      hide Shape, AllUnfetched, Sized, SizeReads, NamedAll, UnBe, Answer;
      InitialItems();
      SizedKeeps(items, dev.stream, dev.pos, |items|);
      ReadSizes(dev);
      ghost var at, sized := dev.pos, items;
      status := LookupNamedBlobs(dev, allocatesDir);
      var count := UnBe(Answer(dev.stream, at, 4));
      NamedAllKeeps(sized, Answer(dev.stream, at + 4, count * 64), count);
      if status == Success {
        AskedInOrder(old(dev.trace), SizeReads(LOADER_ITEMS, dev.stream, old(dev.pos), |LOADER_ITEMS|), Select(FILE_DIR),
                     Fetch(Answer(dev.stream, at, 4)), Fetch(Answer(dev.stream, at + 4, count * 64)));
      }
      ShapeSize(sized);
      ShapeSize(items);
    }

    /** `allocates` says which memory allocations succeed: that of the directory, and that of each item. `installs` says
        whether the two protocol installations succeed. */
    method QemuLoaderEntrypoint(
        available: bool, dev: Device, verifier: BlobVerifier.Verifier, mem: BlobVerifier.Memory, sha: BlobVerifier.Sha256,
        allocatesDir: bool, allocates: nat -> bool, installs: (bool, bool))
      returns (status: Status)
      requires items == LOADER_ITEMS && fetchedItems == 0 && totalBytes == 0 && !fileSystem && !loadFile2
      requires verifier.mTableSize < 0x1_0000
      modifies this, dev
      ensures |items| == |LOADER_ITEMS|
      ensures !available ==> status == NotFound
      ensures status == AccessDenied ==> !AllPass(mem, sha, verifier.mTable, verifier.mTableSize, items)
      ensures status != Success ==> !fileSystem
      ensures status == Success ==> (fileSystem <==> installs.0 && (items[INITRD].data.Some? ==> installs.1))
      ensures loadFile2 <==> fileSystem && items[INITRD].data.Some?
      ensures fileSystem ==> Ready(items, fetchedItems, totalBytes)
      ensures fileSystem ==> AllPass(mem, sha, verifier.mTable, verifier.mTableSize, items)
      ensures fileSystem ==> OnlyData(Discovered(dev.stream, old(dev.pos)), items)
      ensures fileSystem ==> old(dev.trace) + DiscoveryReads(dev.stream, old(dev.pos)) <= dev.trace
      ensures fileSystem ==> forall i | 0 <= i < |items| :: FetchedFrom(items[i], dev.trace)
    {
      hide Shape, AllUnfetched, Ready, AllPass, Discovered, DiscoveryReads, OnlyData, FetchedFrom;
      if !available { return NotFound; }
      status := Discover(dev, allocatesDir);
      if status != Success { return NotFound; }
      status := TakeItems(dev, verifier, mem, sha, allocates);
      if status != Success { return; }
      if !installs.0 { return InstallFailed; }
      fileSystem := true;
      if items[INITRD].data.Some? {
        if !installs.1 {
          // the status of taking the file system back down is what the entry point returns
          fileSystem := false;
          return Success;
        }
        loadFile2 := true;
      }
    }

    method TakeItems(dev: Device, verifier: BlobVerifier.Verifier, mem: BlobVerifier.Memory, sha: BlobVerifier.Sha256,
                     allocates: nat -> bool)
      returns (status: Status)
      requires Shape(items) && AllUnfetched(items) && fetchedItems == 0 && totalBytes == 0 && verifier.mTableSize < 0x1_0000
      modifies this`items, this`totalBytes, this`fetchedItems, dev
      ensures status == Success ==> Ready(items, fetchedItems, totalBytes)
      ensures status == Success ==> AllPass(mem, sha, verifier.mTable, verifier.mTableSize, items)
      ensures status in [Success, OutOfResources, AccessDenied]
      ensures status == AccessDenied ==> !AllPass(mem, sha, verifier.mTable, verifier.mTableSize, items)
      ensures |items| == |LOADER_ITEMS| && OnlyData(old(items), items) && old(dev.trace) <= dev.trace
      ensures status == Success ==> forall i | 0 <= i < |items| :: FetchedFrom(items[i], dev.trace)
    {
      hide NonEmpty, TotalSize, Passes, FetchedFrom, Fetched, Unfetched, Took, Shape;
      NothingYet();
      ghost var start := items;
      SameItems(start);
      assert items[..0] == [];
      for i := 0 to |items|
        invariant old(dev.trace) <= dev.trace
        invariant OnlyData(start, items) && forall j | i <= j < |items| :: items[j] == start[j]
        invariant forall j | 0 <= j < i :: Took(mem, sha, verifier.mTable, verifier.mTableSize, items[j], dev.trace)
        invariant fetchedItems == |NonEmpty(items[..i])| && totalBytes == TotalSize(items[..i])
      {
        OneMore(items, i);
        assert Unfetched(start[i]);
        if items[i].dataKey.None? {
          SkippedIsTook(mem, sha, verifier.mTable, verifier.mTableSize, items[i], dev.trace);
          continue;
        }
        ghost var was, trace := items, dev.trace;
        status := TakeItem(dev, verifier, mem, sha, i, allocates(i));
        if status != Success {
          return;
        }
        forall j | 0 <= j < i ensures Took(mem, sha, verifier.mTable, verifier.mTableSize, items[j], dev.trace) {
          assert items[j] == was[j];
          TookStays(mem, sha, verifier.mTable, verifier.mTableSize, items[j], trace, dev.trace);
        }
        TookNow(mem, sha, verifier.mTable, verifier.mTableSize, items[i], dev.trace);
        assert items[..i] == was[..i];
        OneMore(items, i);
      }
      assert items[..|items|] == items;
      AllTook(mem, sha, verifier.mTable, verifier.mTableSize, start, items, dev.trace);
      status := Success;
    }
  }

  /** An item behind the fetch loop: a whole blob of the device that the verifier let through, or an empty item. */
  ghost predicate Took(mem: BlobVerifier.Memory, sha: BlobVerifier.Sha256, table: Option<nat>, tableSize: nat,
                       item: Item, trace: seq<Access>) {
    && Fetched(item) && FetchedFrom(item, trace)
    && (item.dataKey.Some? ==> Passes(mem, sha, table, tableSize, item))
  }

  lemma SkippedIsTook(mem: BlobVerifier.Memory, sha: BlobVerifier.Sha256, table: Option<nat>, tableSize: nat,
                      item: Item, trace: seq<Access>)
    requires Unfetched(item) && item.dataKey.None?
    ensures item.size == 0 && Took(mem, sha, table, tableSize, item, trace)
  {
  }

  lemma TookNow(mem: BlobVerifier.Memory, sha: BlobVerifier.Sha256, table: Option<nat>, tableSize: nat,
                item: Item, trace: seq<Access>)
    requires Fetched(item) && FetchedFrom(item, trace) && Passes(mem, sha, table, tableSize, item)
    ensures Took(mem, sha, table, tableSize, item, trace)
  {
  }

  lemma TookStays(mem: BlobVerifier.Memory, sha: BlobVerifier.Sha256, table: Option<nat>, tableSize: nat,
                  item: Item, trace: seq<Access>, trace': seq<Access>)
    requires Took(mem, sha, table, tableSize, item, trace) && trace <= trace'
    ensures Took(mem, sha, table, tableSize, item, trace')
  {
    hide FetchedFrom, Passes, Fetched;
    FetchStays(item, trace, trace');
  }

  lemma AllTook(mem: BlobVerifier.Memory, sha: BlobVerifier.Sha256, table: Option<nat>, tableSize: nat,
                start: seq<Item>, items: seq<Item>, trace: seq<Access>)
    requires Shape(start) && OnlyData(start, items)
    requires forall i | 0 <= i < |items| :: Took(mem, sha, table, tableSize, items[i], trace)
    ensures Shape(items) && AllFetched(items) && AllPass(mem, sha, table, tableSize, items)
    ensures forall i | 0 <= i < |items| :: FetchedFrom(items[i], trace)
  {
    hide FetchedFrom, Passes, Fetched;
  }

  lemma SameItems(items: seq<Item>)
    ensures OnlyData(items, items) && (Shape(items) ==> |items| == |LOADER_ITEMS|)
  {
  }

  /** The verifier lets the item's contents through. */
  predicate Passes(mem: BlobVerifier.Memory, sha: BlobVerifier.Sha256, table: Option<nat>, tableSize: nat, item: Item) {
    BlobVerifier.Verified(mem, sha, table, tableSize, item.name, Contents(item)) == BlobVerifier.Success
  }

  predicate AllPass(mem: BlobVerifier.Memory, sha: BlobVerifier.Sha256, table: Option<nat>, tableSize: nat, items: seq<Item>) {
    forall i | 0 <= i < |items| && items[i].dataKey.Some? :: Passes(mem, sha, table, tableSize, items[i])
  }

  lemma AskedInOrder(t: seq<Access>, sizes: seq<Access>, a: Access, b: Access, c: Access)
    ensures t + sizes + [a, b] + [c] == t + (sizes + [a, b, c])
  {
  }

  lemma ShapeSize(items: seq<Item>)
    requires Shape(items)
    ensures |items| == |LOADER_ITEMS|
  {
  }

  /** All items are fetched, and the two counters say how many are not empty and how many bytes they hold. */
  predicate Ready(items: seq<Item>, fetched: nat, total: nat) {
    Shape(items) && AllFetched(items) && fetched == |NonEmpty(items)| && total == TotalSize(items)
  }

  lemma InitialItems()
    ensures Shape(LOADER_ITEMS) && AllUnfetched(LOADER_ITEMS)
  {
  }

  lemma NothingYet()
    ensures NonEmpty([]) == [] && TotalSize([]) == 0
  {
  }

  lemma OneMore(items: seq<Item>, i: nat)
    requires i < |items|
    ensures NonEmpty(items[..i + 1]) == NonEmpty(items[..i]) + (if items[i].size != 0 then [i] else [])
    ensures TotalSize(items[..i + 1]) == TotalSize(items[..i]) + items[i].size
  {
    assert items[..i + 1][..i] == items[..i];
  }

  lemma ChunksStep(data: bytes)
    requires data != []
    ensures var n := if |data| < SIZE_1MB then |data| else SIZE_1MB;
            Chunks(data) == [Fetch(data[..n])] + Chunks(data[n..])
  {
  }

  lemma PieceOfAnswer(stream: Stream, pos: nat, size: nat, i: nat, n: nat)
    requires i + n <= size
    ensures Answer(stream, pos, size)[i..i + n] == Answer(stream, pos + i, n)
  {
  }
}
