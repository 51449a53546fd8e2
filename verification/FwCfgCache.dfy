/** The cache of fw_cfg items: each is read once from the untrusted device, measured, and kept in a hand-off block
    (CacheInit.c and Cache.c), together with the part of QemuFwCfgLib it is built into. */
module FwCfgCache {
  import opened Bytes
  import opened FwCfgDevice

  const SIGNATURE := 0x00
  const INTERFACE_VERSION := 0x01
  const UNRESOLVED := 0xFFFF
  const MAXIMUM_E820 := 0x10
  const E820_ENTRY_SIZE := 20
  /** The header of a cached item in its hand-off block. */
  const ITEM_HEADER := 8

  /** What is cached: a file, whether it is measured, its selector if it is known, its size if it is fixed. */
  datatype CacheEntry = CacheEntry(file: string, measure: bool, item: nat, size: nat, max: nat)

  const CACHE: seq<CacheEntry> := [
    CacheEntry("FileDir", false, FILE_DIR, 0, 4 + MAXIMUM_SLOTS * DIR_ENTRY_SIZE),
    CacheEntry("Signature", true, SIGNATURE, 4, 4),
    CacheEntry("InterfaceVersion", true, INTERFACE_VERSION, 4, 4),
    CacheEntry("etc/e820", false, UNRESOLVED, 0, MAXIMUM_E820 * E820_ENTRY_SIZE),
    CacheEntry("etc/system-states", false, UNRESOLVED, 6, 6),
    CacheEntry("etc/extra-pci-roots", true, UNRESOLVED, 8, 8),
    CacheEntry("etc/reserved-memory-end", true, UNRESOLVED, 8, 8),
    CacheEntry("opt/ovmf/X-PciMmio64Mb", true, UNRESOLVED, 0, 0xFFFF)
  ]

  /** A cached item in its hand-off block. */
  datatype Hob = Hob(item: nat, data: bytes)

  datatype WorkArea = WorkArea(item: nat, offset: nat, reading: bool)

  /** A measured event: the name of the file and the bytes. */
  datatype Event = Event(file: string, data: bytes)

  /** The hand-off blocks, the work area, the device so far, the measurement log, the room left for hand-off blocks, and
      whether the processor stopped. `makers` is history: block `j` was made for entry `makers[j]`. No operation looks at
      it. */
  datatype State = State(
    hobs: seq<Hob>, makers: seq<CacheEntry>, area: WorkArea, pos: nat, trace: seq<Access>, log: seq<Event>, room: nat,
    halted: bool)

  /** What the machine does: the answers of the device, whether it is a TD, which measurements succeed, and which sizes of
      hand-off blocks it grants as long as there is room. */
  datatype Env = Env(stream: Stream, td: bool, measures: nat -> bool, grants: nat -> bool)

  // ----- the device

  function DevSelect(s: State, key: nat): State {
    s.(trace := s.trace + [Select(key)])
  }

  function DevRead(env: Env, s: State, n: nat): (State, bytes) {
    var b := Answer(env.stream, s.pos, n);
    (s.(pos := s.pos + n, trace := s.trace + [Fetch(b)]), b)
  }

  function Halt(s: State): State {
    s.(halted := true)
  }

  // ----- Cache.c

  /** The first block of the item; one without data counts as not cached. */
  function Cached(hobs: seq<Hob>, item: nat): Option<bytes> {
    if hobs == [] then None
    else if hobs[0].item == item && hobs[0].data != [] then Some(hobs[0].data)
    else Cached(hobs[1..], item)
  }

  function ItemInCache(entries: seq<CacheEntry>, item: nat): (r: Option<CacheEntry>)
    ensures r.Some? ==> r.value in entries && r.value.item == item && item != UNRESOLVED
  {
    if entries == [] then None
    else if entries[0].item == item && item != UNRESOLVED then Some(entries[0])
    else ItemInCache(entries[1..], item)
  }

  function Reset(s: State): State {
    s.(area := WorkArea(0, 0, false))
  }

  /** A read of the selected item from the cache, cut to what is left of it; the processor stops when nothing is selected,
      the item is not cached, or nothing is left. */
  function CacheRead(s: State, n: nat): (State, bytes) {
    var data := Cached(s.hobs, s.area.item);
    if !s.area.reading || data.None? || s.area.offset >= |data.value| then (Halt(s), [])
    else
      var left := |data.value| - s.area.offset;
      var size := if left < n then left else n;
      (s.(area := s.area.(offset := s.area.offset + size)), data.value[s.area.offset..s.area.offset + size])
  }

  /** QemuFwCfgReadBytes: from the cache while an item of it is selected. */
  function LibRead(env: Env, s: State, n: nat): (State, bytes) {
    if s.area.reading then CacheRead(s, n) else DevRead(env, s, n)
  }

  /** An integer read: what a short read leaves of it is taken as zero. */
  function Padded(b: bytes, n: nat): bytes {
    if |b| < n then b + Zeros(n - |b|) else b
  }

  // ----- CacheInit.c, and the selects it goes through again

  function SelectItem(env: Env, s: State, item: nat): (r: (State, bool))
    ensures r.0.room <= s.room
    decreases s.room, 1, 0
  {
    if Cached(s.hobs, item).Some? then (s.(area := WorkArea(item, 0, true)), true)
    else
      var entry := ItemInCache(CACHE, item);
      if entry.None? then (s, false)
      else
        var (s', ok) := CacheItem(env, Reset(s), entry.value);
        if s'.halted then (s', false)
        else if !ok then (Halt(s'), false)
        else (s'.(area := WorkArea(item, 0, true)), true)
  }

  /** QemuFwCfgSelectItem: the selector of the device for what the cache does not take. */
  function LibSelect(env: Env, s: State, item: nat): (r: State)
    ensures r.room <= s.room
    decreases s.room, 2, 0
  {
    var (s', ok) := SelectItem(env, s, item);
    if ok || s'.halted then s' else DevSelect(Reset(s'), item)
  }

  /** The entries from number `i` on, read one by one until one has the name. */
  function FindFrom(env: Env, s: State, name: string, count: nat, i: nat): (r: (State, Option<(nat, nat)>))
    requires i <= count
    ensures r.0.room == s.room
    decreases count - i
  {
    if i == count || s.halted then (s, None)
    else
      var (s1, size) := LibRead(env, s, 4);
      var (s2, select) := if s1.halted then (s1, []) else LibRead(env, s1, 2);
      var (s3, _) := if s2.halted then (s2, []) else LibRead(env, s2, 2);
      var (s4, file) := if s3.halted then (s3, []) else LibRead(env, s3, 56);
      if s4.halted then (s4, None)
      else if CString(file) == name then (s4, Some((UnBe(Padded(select, 2)), UnBe(Padded(size, 4)))))
      else FindFrom(env, s4, name, count, i + 1)
  }

  /** QemuFwCfgFindFile: select the directory, read its count and its entries. */
  function FindFile(env: Env, s: State, name: string): (r: (State, Option<(nat, nat)>))
    ensures r.0.room <= s.room
    decreases s.room, 3, 0
  {
    var s1 := LibSelect(env, s, FILE_DIR);
    if s1.halted then (s1, None)
    else
      var (s2, count) := LibRead(env, s1, 4);
      if s2.halted then (s2, None) else FindFrom(env, s2, name, UnBe(Padded(count, 4)), 0)
  }

  /** Cache every file of the table that has no selector of its own, from entry `i` on. */
  function CacheResolve(env: Env, s: State, i: nat): (r: (State, bool))
    requires i <= |CACHE|
    ensures r.0.room <= s.room
    decreases s.room, 4, |CACHE| - i
  {
    if i == |CACHE| then (s, true)
    else if CACHE[i].item != UNRESOLVED then CacheResolve(env, s, i + 1)
    else
      var entry := CACHE[i];
      var (s1, found) := FindFile(env, s, entry.file);
      if s1.halted then (s1, false)
      else if found.None? then CacheResolve(env, s1, i + 1)
      else
        var (item, size) := found.value;
        if entry.size != 0 && size != entry.size then (s1, false)
        else if entry.max != 0 && size > entry.max then (s1, false)
        else
          var (s2, ok) := CacheItem(env, s1, entry.(item := item, size := size));
          if s2.halted || !ok then (s2, false) else CacheResolve(env, s2, i + 1)
  }

  /** The size to cache; nothing when the directory is refused. */
  function ItemSize(env: Env, s: State, entry: CacheEntry): (State, Option<nat>) {
    if entry.item != FILE_DIR then (s, Some(entry.size))
    else
      var (s1, raw) := LibRead(env, DevSelect(s, FILE_DIR), 4);
      var count := UnBe(Padded(raw, 4));
      if s1.halted || count > MAXIMUM_SLOTS then (s1, None) else (s1, Some(4 + count * DIR_ENTRY_SIZE))
  }

  /** The block of the item is made and filled by one read of the device behind its selector. */
  function StoreItem(env: Env, s: State, entry: CacheEntry, size: nat): (r: (State, Option<bytes>))
    ensures r.0.room <= s.room
    ensures r.1.Some? ==> r.0.room < s.room && |r.1.value| == size
  {
    var s1 := DevSelect(s, entry.item);
    if s1.room < size + ITEM_HEADER || !env.grants(size + ITEM_HEADER) then (s1, None)
    else
      var (s2, data) := if size > 0 then DevRead(env, s1, size) else (s1, []);
      (s2.(hobs := s2.hobs + [Hob(entry.item, data)], makers := s2.makers + [entry],
           room := s2.room - size - ITEM_HEADER), Some(data))
  }

  /** Measured on a TD only. */
  function MeasureItem(env: Env, s: State, entry: CacheEntry, data: bytes): (State, bool) {
    if !entry.measure || !env.td then (s, true)
    else if env.measures(|s.log|) then (s.(log := s.log + [Event(entry.file, data)]), true)
    else (s, false)
  }

  /** The stored size is what the stored count says. */
  predicate DirectorySound(data: bytes) {
    |data| >= 4 && UnBe(data[..4]) <= MAXIMUM_SLOTS && |data| == 4 + UnBe(data[..4]) * DIR_ENTRY_SIZE
  }

  function CacheItem(env: Env, s: State, entry: CacheEntry): (r: (State, bool))
    ensures r.0.room <= s.room
    decreases s.room, 0, 0
  {
    var (s1, size) := ItemSize(env, s, entry);
    if size.None? || size.value > entry.max then (s1, false)
    else
      var (s2, data) := StoreItem(env, s1, entry, size.value);
      if data.None? then (s2, false)
      else
        var (s3, measured) := MeasureItem(env, s2, entry, data.value);
        if !measured then (s3, false)
        else if entry.item == FILE_DIR && size.value >= 4 then
          if !DirectorySound(data.value) then (s3, false) else CacheResolve(env, s3, 0)
        else (s3, true)
  }
}
