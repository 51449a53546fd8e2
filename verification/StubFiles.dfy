/** The read-only files and the initrd a loaded table of blobs is served through (QemuLoader.c; EFI_FILE_PROTOCOL,
    section 13.5 of the UEFI Specification 2.10). */
module StubFiles {
  import opened Bytes
  import opened QemuLoader

  const FILE_MODE_READ := 1
  const FILE_MODE_WRITE := 2
  const FILE_MODE_CREATE := 0x8000_0000_0000_0000
  const MAX_UINT64 := 0xffff_ffff_ffff_ffff
  const SIZE_OF_FILE_INFO := 80

  /** What the driver's globals hold once the entry point has succeeded. */
  datatype Volume = Volume(items: seq<Item>, fetched: nat)

  /** An open file: an item, or the root directory; and its position, in bytes or in directory entries. */
  datatype Handle = Handle(item: Option<nat>, position: nat)

  datatype Info = Info(name: string, fileSize: nat, directory: bool)

  /** A status, the stored buffer size, and what was copied to the buffer: file bytes or one file information. */
  datatype Reply = Reply(status: Status, size: nat, content: bytes, info: Option<Info>)

  function Failed(status: Status, size: nat): Reply {
    Reply(status, size, [], None)
  }

  /** Handles name items of the table. */
  predicate Valid(v: Volume, h: Handle) {
    h.item.Some? ==> h.item.value < |v.items|
  }

  predicate ReadyVolume(v: Volume) {
    Shape(v.items) && AllFetched(v.items) && v.fetched == |NonEmpty(v.items)|
  }

  // ----- the operations

  function InfoOf(v: Volume, item: Option<nat>): Info
    requires item.Some? ==> item.value < |v.items|
  {
    if item.Some? then Info(v.items[item.value].name, v.items[item.value].size, false) else Info("", v.fetched, true)
  }

  /** The information, or the size it needs when the buffer is too small. */
  function FileInfo(v: Volume, item: Option<nat>, bufferSize: nat): Reply
    requires item.Some? ==> item.value < |v.items|
  {
    var info := InfoOf(v, item);
    var needed := SIZE_OF_FILE_INFO + 2 * (|info.name| + 1);
    if bufferSize < needed then Failed(BufferTooSmall, needed) else Reply(Success, needed, [], Some(info))
  }

  function Open(v: Volume, h: Handle, name: string, mode: nat): (Status, Option<Handle>) {
    if (mode / FILE_MODE_WRITE) % 2 == 1 || (mode / FILE_MODE_CREATE) % 2 == 1 then (WriteProtected, None)
    else if mode != FILE_MODE_READ then (InvalidParameter, None)
    else if h.item.Some? then (Unsupported, None)
    else
      var i := LookupItem(v.items, if name != "" && name[0] == '\\' then name[1..] else name, 0);
      if i.None? then (NotFound, None) else (Success, Some(Handle(i, 0)))
  }

  /** The root lists the items that are not empty; a file gives its bytes from the position on. */
  function Read(v: Volume, h: Handle, bufferSize: nat): (Handle, Reply)
    requires ReadyVolume(v) && Valid(v, h)
  {
    if h.item.None? then
      if h.position == v.fetched then (h, Reply(Success, 0, [], None))
      else if h.position > v.fetched then (h, Failed(DeviceError, bufferSize))
      else
        NonEmptyIndex(v.items, h.position);
        var r := FileInfo(v, Some(NonEmpty(v.items)[h.position]), bufferSize);
        if r.status == Success then (h.(position := h.position + 1), r) else (h, r)
    else
      var item := v.items[h.item.value];
      if h.position > item.size then (h, Failed(DeviceError, bufferSize))
      else
        var n := if bufferSize > item.size - h.position then item.size - h.position else bufferSize;
        (h.(position := h.position + n), Reply(Success, n, Contents(item)[h.position..h.position + n], None))
  }

  function SetPosition(v: Volume, h: Handle, position: nat): (Handle, Status)
    requires Valid(v, h)
  {
    if h.item.None? then
      if position == 0 then (h.(position := 0), Success) else (h, Unsupported)
    else (h.(position := if position == MAX_UINT64 then v.items[h.item.value].size else position), Success)
  }

  function GetPosition(h: Handle): (Status, nat) {
    if h.item.None? then (Unsupported, 0) else (Success, h.position)
  }

  datatype Path = InvalidPath | EndPath | OtherPath

  /** The initrd in one piece; a boot policy, a bad path or a short buffer is refused. */
  function LoadInitrd(v: Volume, bootPolicy: bool, path: Path, bufferSize: Option<nat>, hasBuffer: bool): Reply
    requires ReadyVolume(v)
  {
    var blob := v.items[INITRD];
    if bootPolicy then Failed(Unsupported, 0)
    else if bufferSize.None? || path.InvalidPath? then Failed(InvalidParameter, 0)
    else if path.OtherPath? then Failed(NotFound, bufferSize.value)
    else if !hasBuffer || bufferSize.value < blob.size then Failed(BufferTooSmall, blob.size)
    else Reply(Success, blob.size, Contents(blob), None)
  }

  lemma {:induction false} NonEmptyIndex(items: seq<Item>, k: nat)
    requires k < |NonEmpty(items)|
    ensures NonEmpty(items)[k] < |items| && items[NonEmpty(items)[k]].size != 0
  {
    var n := |items|;
    if k < |NonEmpty(items[..n - 1])| {
      NonEmptyIndex(items[..n - 1], k);
    }
  }

  /** The search of a directory read stops at entry `position` of the list, inside the table. */
  lemma {:induction false} NonEmptyPrefix(items: seq<Item>, i: nat)
    requires i <= |items|
    ensures NonEmpty(items[..i]) <= NonEmpty(items)
    decreases |items| - i
  {
    if i == |items| {
      assert items[..i] == items;
    } else {
      OneMore(items, i);
      NonEmptyPrefix(items, i + 1);
    }
  }

  class StubFile {
    const loader: Loader
    const item: Option<nat>
    var position: nat

    constructor (loader: Loader, item: Option<nat>)
      ensures this.loader == loader && this.item == item && position == 0
    {
      this.loader := loader;
      this.item := item;
      position := 0;
    }

    function V(): Volume
      reads loader
    {
      Volume(loader.items, loader.fetchedItems)
    }

    function H(): Handle
      reads this
    {
      Handle(item, position)
    }

    method OpenFile(name: string, mode: nat) returns (status: Status, file: StubFile?)
      requires ReadyVolume(V())
      ensures status == Open(V(), H(), name, mode).0
      ensures (file != null) == Open(V(), H(), name, mode).1.Some?
      ensures file != null ==> fresh(file) && file.loader == loader && file.H() == Open(V(), H(), name, mode).1.value
      ensures file != null ==>
        var i := file.item;
        && i.Some? && i.value < |loader.items| && file.position == 0
        && PathTo(name, loader.items[i.value].name) && FirstNamed(V(), loader.items[i.value].name, i.value)
    {
      if (mode / 2) % 2 == 1 || (mode / 0x8000_0000_0000_0000) % 2 == 1 { return WriteProtected, null; }
      if mode != 1 { return InvalidParameter, null; }
      if item.Some? { return Unsupported, null; }
      var fileName := name;
      if fileName != "" && fileName[0] == '\\' {
        fileName := fileName[1..];
      }
      var i := LookupItem(loader.items, fileName, 0);
      if i.None? { return NotFound, null; }
      PathIs(V(), name, i.value);
      file := new StubFile(loader, i);
      status := Success;
    }

    method ReadFile(bufferSize: nat) returns (r: Reply)
      requires ReadyVolume(V()) && Valid(V(), H())
      modifies this`position
      ensures (H(), r) == Read(V(), old(H()), bufferSize)
    {
      if item.None? {
        if position == loader.fetchedItems { return Reply(Success, 0, [], None); }
        if position > loader.fetchedItems { return Failed(DeviceError, bufferSize); }
        var index := FindFetched();
        r := FileInfo(V(), Some(index), bufferSize);
        if r.status != Success { return; }
        position := position + 1;
        return;
      }
      assert Fetched(loader.items[item.value]);
      var blob := loader.items[item.value];
      if position > blob.size { return Failed(DeviceError, bufferSize); }
      var n := if bufferSize > blob.size - position then blob.size - position else bufferSize;
      var content: bytes := [];
      if blob.data.Some? {
        content := blob.data.value[position..position + n];
      }
      position := position + n;
      r := Reply(Success, n, content, None);
    }

    /** The `position`th item that is not empty. */
    method FindFetched() returns (index: nat)
      requires ReadyVolume(V()) && position < loader.fetchedItems
      ensures index < |loader.items| && index == NonEmpty(loader.items)[position]
    {
      hide Shape, AllFetched, NonEmpty;
      var count := 0;
      NothingYet();
      assert loader.items[..0] == [];
      assert loader.items[..|loader.items|] == loader.items;
      index := 0;
      while index < |loader.items|
        invariant index <= |loader.items| && count == |NonEmpty(loader.items[..index])| <= position
      {
        OneMore(loader.items, index);
        if loader.items[index].size != 0 {
          if count == position {
            NonEmptyPrefix(loader.items, index + 1);
            break;
          }
          count := count + 1;
        }
        index := index + 1;
      }
    }

    /** What the position means is said by `TellResumes` and `TellCounts`. */
    method Tell() returns (status: Status, at: nat)
      ensures (status, at) == GetPosition(H())
    {
      if item.None? { return Unsupported, 0; }
      return Success, position;
    }

    method Seek(newPosition: nat) returns (status: Status)
      requires Valid(V(), H())
      modifies this`position
      ensures (H(), status) == SetPosition(V(), old(H()), newPosition)
    {
      if item.None? {
        if newPosition == 0 {
          position := 0;
          return Success;
        }
        return Unsupported;
      }
      position := if newPosition == MAX_UINT64 then loader.items[item.value].size else newPosition;
      status := Success;
    }
  }

  // ----- reading a file to its end

  /** One read after another through a handle: what they return, put together. */
  function ReadAll(v: Volume, h: Handle, sizes: seq<nat>): (r: (Handle, bytes))
    requires ReadyVolume(v) && Valid(v, h)
    ensures r.0.item == h.item
  {
    var n := |sizes|;
    if n == 0 then (h, [])
    else
      var (before, content) := ReadAll(v, h, sizes[..n - 1]);
      var (after, r) := Read(v, before, sizes[n - 1]);
      (after, content + r.content)
  }

  /** One more read of a file. */
  lemma FileRead(v: Volume, h: Handle, n: nat)
    requires ReadyVolume(v) && Valid(v, h) && h.item.Some? && h.position <= v.items[h.item.value].size
    ensures var item := v.items[h.item.value];
            var to := if h.position + n < item.size then h.position + n else item.size;
            && |Contents(item)| == item.size
            && Read(v, h, n).0 == Handle(h.item, to) && Read(v, h, n).1.content == Contents(item)[h.position..to]
  {
    assert Fetched(v.items[h.item.value]);
  }

  /** Reads from the start of a file give its bytes one behind the other, up to as many as were asked for, so the whole
      blob once they ask for its size. */
  lemma {:induction false} ReadsConcatenate(v: Volume, i: nat, sizes: seq<nat>)
    requires ReadyVolume(v) && i < |v.items|
    ensures var item := v.items[i];
            var total := if SumOf(sizes) < item.size then SumOf(sizes) else item.size;
            && |Contents(item)| == item.size
            && ReadAll(v, Handle(Some(i), 0), sizes) == (Handle(Some(i), total), Contents(item)[..total])
  {
    hide ReadyVolume, Read, Contents;
    FileRead(v, Handle(Some(i), 0), 0);
    var n := |sizes|;
    if n > 0 {
      ReadsConcatenate(v, i, sizes[..n - 1]);
      var before := ReadAll(v, Handle(Some(i), 0), sizes[..n - 1]).0;
      FileRead(v, before, sizes[n - 1]);
      var data := Contents(v.items[i]);
      var to := Read(v, before, sizes[n - 1]).0.position;
      assert data[..before.position] + data[before.position..to] == data[..to];
    }
  }

  // ----- opening by name

  /** Item `i` is the first one of that name. */
  predicate FirstNamed(v: Volume, name: string, i: nat) {
    i < |v.items| && v.items[i].name == name && forall j | 0 <= j < i :: v.items[j].name != name
  }

  /** A path to `name`: the name alone, or behind one backslash. */
  predicate PathTo(path: string, name: string) {
    path == name || path == "\\" + name
  }

  lemma NoBackslash(v: Volume, i: nat)
    requires Shape(v.items) && i < |v.items|
    ensures v.items[i].name != "" && v.items[i].name[0] != '\\'
  {
    assert v.items[i].name == LOADER_ITEMS[i].name;
    assert LOADER_ITEMS[0].name[0] == 'k' && LOADER_ITEMS[1].name[0] == 'i' && LOADER_ITEMS[2].name[0] == 'c';
    assert LOADER_ITEMS[3].name[0] == 'E' && LOADER_ITEMS[4].name[0] == 's';
  }

  lemma PathIs(v: Volume, path: string, i: nat)
    requires Shape(v.items) && i < |v.items|
    ensures var name := if path != "" && path[0] == '\\' then path[1..] else path;
            PathTo(path, v.items[i].name) <==> name == v.items[i].name
  {
    NoBackslash(v, i);
    assert ("\\" + v.items[i].name)[1..] == v.items[i].name;
    if path != "" && path[0] == '\\' {
      assert path == "\\" + path[1..];
    }
  }

  lemma NamedAt(v: Volume, path: string, name: string, i: nat)
    requires Shape(v.items) && FirstNamed(v, name, i) && PathTo(path, name)
    ensures LookupItem(v.items, if path != "" && path[0] == '\\' then path[1..] else path, 0) == Some(i)
  {
    hide Shape;
    PathIs(v, path, i);
    LookupFirst(v.items, name, 0, i);
  }

  lemma {:induction false} LookupFirst(items: seq<Item>, name: string, from: nat, i: nat)
    requires from <= i < |items| && items[i].name == name && forall j | from <= j < i :: items[j].name != name
    ensures LookupItem(items, name, from) == Some(i)
    decreases i - from
  {
    if from < i {
      LookupFirst(items, name, from + 1, i);
    }
  }

  /** Opening a path from the root for reading gives a handle whose reads return the bytes of the first item of that name from
      the first one on, so the whole blob once they ask for its size. */
  lemma OpenServes(v: Volume, position: nat, path: string, name: string, i: nat, sizes: seq<nat>)
    requires ReadyVolume(v) && FirstNamed(v, name, i) && PathTo(path, name)
    ensures var (status, file) := Open(v, Handle(None, position), path, 1);
            && status == Success && file.Some? && Valid(v, file.value)
            && var item := v.items[i];
            var blob := if item.data.Some? then item.data.value else [];
            && |blob| == item.size
            && ReadAll(v, file.value, sizes).1 == blob[..if SumOf(sizes) < |blob| then SumOf(sizes) else |blob|]
  {
    hide Shape, AllFetched, NonEmpty, ReadAll, Read;
    NamedAt(v, path, name, i);
    ReadsConcatenate(v, i, sizes);
  }

  /** Every open succeeds or is refused for the first of these reasons: a mode that writes or creates, any other mode than
      reading, a handle that is not the root, a path to no item. */
  lemma OpenDecides(v: Volume, h: Handle, path: string, mode: nat)
    requires ReadyVolume(v) && mode <= MAX_UINT64
    ensures var (status, file) := Open(v, h, path, mode);
            && (file.Some? <==> status == Success)
            && (status == WriteProtected <==> mode % 4 >= 2 || mode >= 0x8000_0000_0000_0000)
            && (status == InvalidParameter <==> mode != 1 && mode % 4 < 2 && mode < 0x8000_0000_0000_0000)
            && (status == Unsupported <==> mode == 1 && h.item.Some?)
            && (status == Success <==>
                  mode == 1 && h.item.None? && exists i | 0 <= i < |v.items| :: PathTo(path, v.items[i].name))
            && (status == NotFound <==>
                  mode == 1 && h.item.None? && forall i | 0 <= i < |v.items| :: !PathTo(path, v.items[i].name))
  {
    hide AllFetched, NonEmpty, Shape, PathTo;
    ModeBits(mode);
    forall i | 0 <= i < |v.items| {
      PathIs(v, path, i);
    }
  }

  lemma ModeBits(mode: nat)
    requires mode <= MAX_UINT64
    ensures (mode / FILE_MODE_WRITE) % 2 == 1 <==> mode % 4 >= 2
    ensures (mode / FILE_MODE_CREATE) % 2 == 1 <==> mode >= 0x8000_0000_0000_0000
  {
  }

  // ----- file information and the initrd

  /** A directory read at an item that is not empty, with as many such items in front of it as the position says: its name and
      size, marked as a file, and one step on; or the size of the buffer it needs. At the end there is nothing more. */
  lemma RootReads(v: Volume, i: nat, bufferSize: nat)
    requires ReadyVolume(v) && i < |v.items| && v.items[i].size != 0
    ensures var position := |NonEmpty(v.items[..i])|;
            var h := Handle(None, position);
            var needed := 80 + 2 * (|v.items[i].name| + 1);
            Read(v, h, bufferSize) ==
              if bufferSize < needed then (h, Reply(BufferTooSmall, needed, [], None))
              else (Handle(None, position + 1), Reply(Success, needed, [], Some(Info(v.items[i].name, v.items[i].size, false))))
    ensures Read(v, Handle(None, |NonEmpty(v.items)|), bufferSize) ==
      (Handle(None, |NonEmpty(v.items)|), Reply(Success, 0, [], None))
  {
    hide Shape, AllFetched, NonEmpty;
    OneMore(v.items, i);
    NonEmptyPrefix(v.items, i + 1);
  }

  /** The root describes itself as a directory with as many entries as there are items that are not empty. */
  lemma RootInfo(v: Volume, bufferSize: nat)
    requires ReadyVolume(v)
    ensures FileInfo(v, None, bufferSize) ==
      if bufferSize < 82 then Reply(BufferTooSmall, 82, [], None)
      else Reply(Success, 82, [], Some(Info("", |NonEmpty(v.items)|, true)))
  {
  }

  /** The initrd protocol gives exactly the whole blob of the item "initrd", and only for a request that is no boot policy,
      names a size and the end of the device path, and brings a buffer that is large enough. */
  lemma InitrdWhole(v: Volume, bootPolicy: bool, path: Path, stated: Option<nat>, hasBuffer: bool, i: nat)
    requires ReadyVolume(v) && FirstNamed(v, "initrd", i)
    ensures var r := LoadInitrd(v, bootPolicy, path, stated, hasBuffer);
            var blob := if v.items[i].data.Some? then v.items[i].data.value else [];
            && |blob| == v.items[i].size
            && (r.status == Success <==> !bootPolicy && path.EndPath? && stated.Some? && hasBuffer && |blob| <= stated.value)
            && r.content == (if r.status == Success then blob else [])
            && (r.status in [Success, BufferTooSmall] ==> r.size == |blob|)
            && (r.status == Unsupported <==> bootPolicy)
            && (r.status == InvalidParameter <==> !bootPolicy && (stated.None? || path.InvalidPath?))
            && (r.status == NotFound <==> !bootPolicy && stated.Some? && path.OtherPath?)
            && (r.status == BufferTooSmall <==>
                  !bootPolicy && stated.Some? && path.EndPath? && (!hasBuffer || stated.value < |blob|))
  {
    hide NonEmpty;
    InitrdSecond(v, i);
    assert Fetched(v.items[i]);
  }

  lemma InitrdSecond(v: Volume, i: nat)
    requires Shape(v.items) && FirstNamed(v, "initrd", i)
    ensures i == INITRD
  {
    assert LOADER_ITEMS[0].name[0] == 'k' && LOADER_ITEMS[1].name == "initrd" && LOADER_ITEMS[2].name[0] == 'c';
    assert v.items[1].name == LOADER_ITEMS[1].name;
    assert v.items[i].name == LOADER_ITEMS[i].name && "initrd"[0] == 'i';
  }

  // ----- telling and seeking

  /** Reading on from where the handle is. */
  lemma {:induction false} ReadsOn(v: Volume, h: Handle, a: seq<nat>, b: seq<nat>)
    requires ReadyVolume(v) && Valid(v, h)
    ensures var (middle, first) := ReadAll(v, h, a);
            var (end, second) := ReadAll(v, middle, b);
            ReadAll(v, h, a + b) == (end, first + second)
    decreases |b|
  {
    hide ReadyVolume, Read;
    var n := |b|;
    var (middle, first) := ReadAll(v, h, a);
    if n == 0 {
      assert a + b == a && first + [] == first;
    } else {
      ReadsOn(v, h, a, b[..n - 1]);
      assert (a + b)[..|a| + n - 1] == a + b[..n - 1];
      var (before, content) := ReadAll(v, middle, b[..n - 1]);
      Assoc(first, content, Read(v, before, b[n - 1]).1.content);
    }
  }

  /** The told position has moved by the bytes that were read. */
  lemma {:induction false} TellCounts(v: Volume, h: Handle, sizes: seq<nat>)
    requires ReadyVolume(v) && Valid(v, h) && h.item.Some? && h.position <= v.items[h.item.value].size
    ensures var (after, content) := ReadAll(v, h, sizes);
            GetPosition(after) == (Success, h.position + |content|) && h.position + |content| <= v.items[h.item.value].size
    decreases |sizes|
  {
    hide ReadyVolume, Read, Contents;
    var n := |sizes|;
    if n > 0 {
      TellCounts(v, h, sizes[..n - 1]);
      FileRead(v, ReadAll(v, h, sizes[..n - 1]).0, sizes[n - 1]);
    }
  }

  /** Tell a file's position, go elsewhere in it, and seek back: the reads from there give what they would have given without
      the detour, and end at the same position. Seeking to the largest number tells the size. */
  lemma TellResumes(v: Volume, h: Handle, before: seq<nat>, elsewhere: nat, after: seq<nat>)
    requires ReadyVolume(v) && Valid(v, h) && h.item.Some?
    requires GetPosition(ReadAll(v, h, before).0).1 != MAX_UINT64
    ensures var (there, first) := ReadAll(v, h, before);
            var (status, at) := GetPosition(there);
            var away := SetPosition(v, there, elsewhere).0;
            var (back, sought) := SetPosition(v, away, at);
            && status == Success && sought == Success
            && (ReadAll(v, back, after).0, first + ReadAll(v, back, after).1) == ReadAll(v, h, before + after)
            && GetPosition(SetPosition(v, there, MAX_UINT64).0) == (Success, v.items[h.item.value].size)
  {
    hide ReadyVolume, ReadAll;
    ReadsOn(v, h, before, after);
  }

  // ----- listing the directory

  /** Directory reads with these buffer sizes from one handle on: the entries that were returned. */
  function List(v: Volume, h: Handle, sizes: seq<nat>): (r: (Handle, seq<Info>))
    requires ReadyVolume(v) && Valid(v, h)
    ensures r.0.item == h.item
  {
    var n := |sizes|;
    if n == 0 then (h, [])
    else
      var (before, infos) := List(v, h, sizes[..n - 1]);
      var (after, r) := Read(v, before, sizes[n - 1]);
      (after, infos + (if r.info.Some? then [r.info.value] else []))
  }

  /** The entries of the items that are not empty, in table order. */
  function DirEntries(v: Volume): (infos: seq<Info>)
    requires ReadyVolume(v)
    ensures |infos| == v.fetched
  {
    seq(v.fetched, k requires 0 <= k < v.fetched => EntryOf(v, k))
  }

  function EntryOf(v: Volume, k: nat): Info
    requires ReadyVolume(v) && k < v.fetched
  {
    NonEmptyIndex(v.items, k);
    InfoOf(v, Some(NonEmpty(v.items)[k]))
  }

  /** However large the buffers, directory reads return the entries in table order, each once, with none skipped by a
      buffer that was too small, and never anything beyond the last one. */
  lemma {:induction false} ListsInOrder(v: Volume, sizes: seq<nat>)
    requires ReadyVolume(v)
    ensures var (h, infos) := List(v, Handle(None, 0), sizes);
            h == Handle(None, |infos|) && |infos| <= v.fetched && infos == DirEntries(v)[..|infos|]
    decreases |sizes|
  {
    var n := |sizes|;
    if n > 0 {
      ListsInOrder(v, sizes[..n - 1]);
      var (h, infos) := List(v, Handle(None, 0), sizes[..n - 1]);
      ListStep(v, h, sizes[n - 1]);
      hide ReadyVolume, Read, DirEntries;
      var r := Read(v, h, sizes[n - 1]).1;
      if r.info.Some? {
        EntriesAt(v, |infos|);
        assert DirEntries(v)[..|infos| + 1] == DirEntries(v)[..|infos|] + [DirEntries(v)[|infos|]];
      } else {
        assert infos + [] == infos;
      }
    }
  }

  lemma EntriesAt(v: Volume, k: nat)
    requires ReadyVolume(v) && k < v.fetched
    ensures DirEntries(v)[k] == EntryOf(v, k)
  {
  }

  /** One directory read: the next entry and one step on, or neither. */
  lemma ListStep(v: Volume, h: Handle, bufferSize: nat)
    requires ReadyVolume(v) && h.item.None? && h.position <= v.fetched
    ensures var (after, r) := Read(v, h, bufferSize);
            && (r.info.Some? ==>
                  && h.position < v.fetched && r.info == Some(EntryOf(v, h.position))
                  && after == h.(position := h.position + 1))
            && (r.info.None? ==> after == h)
  {
    hide ReadyVolume, EntryOf, NonEmpty;
    if h.position < v.fetched {
      EntryIs(v, h.position);
    }
  }

  lemma EntryIs(v: Volume, k: nat)
    requires ReadyVolume(v) && k < v.fetched
    ensures k < |NonEmpty(v.items)| && NonEmpty(v.items)[k] < |v.items| && EntryOf(v, k) == InfoOf(v, Some(NonEmpty(v.items)[k]))
  {
    NonEmptyIndex(v.items, k);
  }

  /** With buffers that are large enough, as many reads as there are entries list all of them. */
  lemma {:induction false} ListsAll(v: Volume, sizes: seq<nat>)
    requires ReadyVolume(v) && |sizes| >= v.fetched
    requires forall k | 0 <= k < |sizes| :: sizes[k] >= SIZE_OF_FILE_INFO + 2 * NAME_SIZE
    ensures List(v, Handle(None, 0), sizes) == (Handle(None, v.fetched), DirEntries(v))
  {
    ListsMany(v, sizes);
    ListsInOrder(v, sizes);
    assert DirEntries(v)[..v.fetched] == DirEntries(v);
  }

  lemma {:induction false} ListsMany(v: Volume, sizes: seq<nat>)
    requires ReadyVolume(v)
    requires forall k | 0 <= k < |sizes| :: sizes[k] >= SIZE_OF_FILE_INFO + 2 * NAME_SIZE
    ensures |List(v, Handle(None, 0), sizes).1| == if |sizes| < v.fetched then |sizes| else v.fetched
    decreases |sizes|
  {
    var n := |sizes|;
    if n > 0 {
      ListsMany(v, sizes[..n - 1]);
      ListsInOrder(v, sizes[..n - 1]);
      var h := List(v, Handle(None, 0), sizes[..n - 1]).0;
      hide DirEntries;
      if h.position < v.fetched {
        NonEmptyIndex(v.items, h.position);
        ShortNames(v.items, NonEmpty(v.items)[h.position]);
      }
    }
  }

  lemma ShortNames(items: seq<Item>, i: nat)
    requires Shape(items) && i < |items|
    ensures |items[i].name| < NAME_SIZE
  {
    assert LOADER_ITEMS[i].name == items[i].name;
  }

  // ----- any use of the file system and the initrd protocol

  datatype FsOp =
    | OpenVolume
    | OpenFile(h: nat, name: string, mode: nat)
    | ReadFile(h: nat, bufferSize: nat)
    | Seek(h: nat, position: nat)
    | Close(h: nat)
    | LoadFile2(bootPolicy: bool, path: Path, stated: Option<nat>, hasBuffer: bool)

  /** The handles given out so far; nothing for a closed one. */
  type Handles = seq<Option<Handle>>

  predicate AllValid(v: Volume, hs: Handles) {
    forall i | 0 <= i < |hs| && hs[i].Some? :: Valid(v, hs[i].value)
  }

  predicate IsOpen(hs: Handles, h: nat) {
    h < |hs| && hs[h].Some?
  }

  /** One call: the handles after it and the bytes it copied out. A call through a handle that is not open is left out. */
  function Call(v: Volume, hs: Handles, op: FsOp): (r: (Handles, bytes))
    requires ReadyVolume(v) && AllValid(v, hs)
    ensures AllValid(v, r.0)
  {
    match op
    case OpenVolume => (hs + [Some(Handle(None, 0))], [])
    case OpenFile(h, name, mode) =>
      if !IsOpen(hs, h) then (hs, [])
      else
        var file := Open(v, hs[h].value, name, mode).1;
        if file.None? then (hs, []) else (hs + [file], [])
    case ReadFile(h, n) =>
      if !IsOpen(hs, h) then (hs, [])
      else
        var (after, r) := Read(v, hs[h].value, n);
        (hs[h := Some(after)], r.content)
    case Seek(h, position) =>
      if !IsOpen(hs, h) then (hs, []) else (hs[h := Some(SetPosition(v, hs[h].value, position).0)], [])
    case Close(h) => if !IsOpen(hs, h) then (hs, []) else (hs[h := None], [])
    case LoadFile2(bootPolicy, path, stated, hasBuffer) =>
      (hs, if v.items[INITRD].data.Some? then LoadInitrd(v, bootPolicy, path, stated, hasBuffer).content else [])
  }

  /** The handles after a run, and everything it copied out. */
  function Run(v: Volume, ops: seq<FsOp>): (r: (Handles, seq<bytes>))
    requires ReadyVolume(v)
    ensures AllValid(v, r.0)
  {
    var n := |ops|;
    if n == 0 then ([], [])
    else
      var (hs, served) := Run(v, ops[..n - 1]);
      var (after, content) := Call(v, hs, ops[n - 1]);
      (after, served + [content])
  }

  /** `content` is a piece of the blob of item `i`. */
  predicate PieceOf(v: Volume, i: nat, at: nat, content: bytes) {
    i < |v.items| && v.items[i].data.Some? && at + |content| <= |v.items[i].data.value|
    && content == v.items[i].data.value[at..at + |content|]
  }

  ghost predicate Served(v: Volume, content: bytes) {
    exists i, at :: PieceOf(v, i, at, content)
  }

  lemma CallServes(v: Volume, hs: Handles, op: FsOp)
    requires ReadyVolume(v) && AllValid(v, hs) && Call(v, hs, op).1 != []
    ensures Served(v, Call(v, hs, op).1)
  {
    var content := Call(v, hs, op).1;
    if op.ReadFile? {
      var h := hs[op.h].value;
      assert Fetched(v.items[h.item.value]);
      assert PieceOf(v, h.item.value, h.position, content);
    } else {
      assert op.LoadFile2?;
      assert Fetched(v.items[INITRD]);
      assert PieceOf(v, INITRD, 0, content);
    }
  }

  /** Whatever any run of calls copies out is a piece of one of the blobs. */
  lemma {:induction false} RunServes(v: Volume, ops: seq<FsOp>, k: nat)
    requires ReadyVolume(v) && k < |Run(v, ops).1| && Run(v, ops).1[k] != []
    ensures Served(v, Run(v, ops).1[k])
    decreases |ops|
  {
    hide ReadyVolume, Call;
    var n := |ops|;
    var (hs, served) := Run(v, ops[..n - 1]);
    if k < |served| {
      RunServes(v, ops[..n - 1], k);
    } else {
      CallServes(v, hs, ops[n - 1]);
    }
  }
}
