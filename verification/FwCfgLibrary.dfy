/** The fw_cfg cache as the source runs it: global state updated in place, the device behind it, and the selects that
    caching the directory goes through again (CacheInit.c and Cache.c). Each operation does what its function of
    `FwCfgCache` says. */
module FwCfgLibrary {
  import opened Bytes
  import opened FwCfgDevice
  import opened FwCfgCache

  class FwCfg {
    const dev: Device
    const td: bool
    const measures: nat -> bool
    const grants: nat -> bool
    var hobs: seq<Hob>
    ghost var makers: seq<CacheEntry>
    var area: WorkArea
    var log: seq<Event>
    var room: nat
    var halted: bool

    constructor (dev: Device, td: bool, measures: nat -> bool, grants: nat -> bool, room: nat)
      ensures this.dev == dev && this.td == td && this.measures == measures && this.grants == grants
      ensures hobs == [] && makers == [] && area == WorkArea(UNRESOLVED, 0, false) && log == [] && this.room == room && !halted
    {
      this.dev, this.td, this.measures, this.grants := dev, td, measures, grants;
      hobs, makers, area, log, this.room, halted := [], [], WorkArea(UNRESOLVED, 0, false), [], room, false;
    }

    function E(): Env {
      Env(dev.stream, td, measures, grants)
    }

    ghost function S(): State
      reads this, dev
    {
      State(hobs, makers, area, dev.pos, dev.trace, log, room, halted)
    }

    /** The walk over the hand-off blocks. */
    method QemuFwCfgItemCached(item: nat) returns (r: Option<bytes>)
      ensures r == Cached(hobs, item)
    {
      for i := 0 to |hobs|
        invariant Cached(hobs, item) == Cached(hobs[i..], item)
      {
        if hobs[i].item == item && |hobs[i].data| != 0 { return Some(hobs[i].data); }
        assert hobs[i..][1..] == hobs[i + 1..];
      }
      r := None;
    }

    method FindItemInCache(item: nat) returns (r: Option<CacheEntry>)
      ensures r == ItemInCache(CACHE, item)
    {
      for i := 0 to |CACHE|
        invariant ItemInCache(CACHE, item) == ItemInCache(CACHE[i..], item)
      {
        if CACHE[i].item == item && CACHE[i].item != UNRESOLVED { return Some(CACHE[i]); }
        assert CACHE[i..][1..] == CACHE[i + 1..];
      }
      r := None;
    }

    method CpuDeadLoop()
      modifies this`halted
      ensures S() == Halt(old(S()))
    {
      halted := true;
    }

    method ResetWorkArea()
      modifies this`area
      ensures S() == Reset(old(S()))
    {
      area := WorkArea(0, 0, false);
    }

    method ReadCached(n: nat) returns (b: bytes)
      modifies this`area, this`halted
      ensures (S(), b) == CacheRead(old(S()), n)
    {
      if !area.reading {
        CpuDeadLoop();
        return [];
      }
      var item := QemuFwCfgItemCached(area.item);
      if item.None? || area.offset >= |item.value| {
        CpuDeadLoop();
        return [];
      }
      var delta := |item.value| - area.offset;
      var readSize := if delta < n then delta else n;
      b := item.value[area.offset..area.offset + readSize];
      area := area.(offset := area.offset + readSize);
    }

    method ReadBytes(n: nat) returns (b: bytes)
      modifies this`area, this`halted, dev
      ensures (S(), b) == LibRead(E(), old(S()), n)
    {
      if area.reading {
        b := ReadCached(n);
      } else {
        b := dev.ReadBytes(n);
      }
    }

    method Select(item: nat) returns (ok: bool)
      requires !halted
      modifies this, dev
      ensures (S(), ok) == SelectItem(E(), old(S()), item)
      decreases room, 1, 0
    {
      var cached := QemuFwCfgItemCached(item);
      var cache: Option<CacheEntry> := None;
      if cached.None? {
        cache := FindItemInCache(item);
        if cache.None? { return false; }
      }
      ResetWorkArea();
      if cache.Some? {
        ok := CacheOne(cache.value);
        if halted { return false; }
        if !ok {
          CpuDeadLoop();
          return false;
        }
      }
      area := WorkArea(item, 0, true);
      ok := true;
    }

    method LibrarySelect(item: nat)
      requires !halted
      modifies this, dev
      ensures S() == LibSelect(E(), old(S()), item)
      decreases room, 2, 0
    {
      var ok := Select(item);
      if ok || halted { return; }
      ResetWorkArea();
      dev.SelectItem(item);
    }

    method Find(name: string) returns (found: Option<(nat, nat)>)
      requires !halted
      modifies this, dev
      ensures (S(), found) == FindFile(E(), old(S()), name)
      decreases room, 3, 0
    {
      LibrarySelect(FILE_DIR);
      if halted { return None; }
      var raw := ReadBytes(4);
      if halted { return None; }
      found := FindEntry(name, UnBe(Padded(raw, 4)));
    }

    method FindEntry(name: string, count: nat) returns (found: Option<(nat, nat)>)
      modifies this`area, this`halted, dev
      ensures (S(), found) == FindFrom(E(), old(S()), name, count, 0)
    {
      hide LibRead, UnBe, Padded, CString;
      for i := 0 to count
        invariant FindFrom(E(), old(S()), name, count, 0) == FindFrom(E(), S(), name, count, i)
      {
        if halted { return None; }
        var size := ReadBytes(4);
        if halted { return None; }
        var select := ReadBytes(2);
        if halted { return None; }
        var _ := ReadBytes(2);
        if halted { return None; }
        var file := ReadBytes(56);
        if halted { return None; }
        if CString(file) == name { return Some((UnBe(Padded(select, 2)), UnBe(Padded(size, 4)))); }
      }
      found := None;
    }

    method Resolve() returns (ok: bool)
      requires !halted
      modifies this, dev
      ensures (S(), ok) == CacheResolve(E(), old(S()), 0)
      decreases room, 4, 0
    {
      hide FindFile, CacheItem;
      for i := 0 to |CACHE|
        invariant room <= old(room) && !halted
        invariant CacheResolve(E(), old(S()), 0) == CacheResolve(E(), S(), i)
      {
        var entry := CACHE[i];
        if entry.item != UNRESOLVED { continue; }
        var found := Find(entry.file);
        if halted { return false; }
        if found.None? { continue; }
        var (item, size) := found.value;
        if entry.size != 0 && size != entry.size { return false; }
        if entry.max != 0 && size > entry.max { return false; }
        entry := entry.(item := item);
        entry := entry.(size := size);
        ok := CacheOne(entry);
        if halted || !ok { return false; }
      }
      ok := true;
    }

    /** A hand-off block for the item, if there is room, filled by one read of the device. */
    method CreateCache(item: nat, size: nat, ghost entry: CacheEntry) returns (data: Option<bytes>)
      requires item == entry.item
      modifies this`hobs, this`makers, this`room, dev
      ensures (S(), data) == StoreItem(E(), old(S()), entry, size)
    {
      dev.SelectItem(item);
      if room < size + ITEM_HEADER || !grants(size + ITEM_HEADER) { return None; }
      room := room - size - ITEM_HEADER;
      hobs, makers := hobs + [Hob(item, Zeros(size))], makers + [entry];
      var filled: bytes := [];
      if size > 0 {
        filled := dev.ReadBytes(size);
      }
      hobs := hobs[|hobs| - 1 := Hob(item, filled)];
      assert hobs == old(hobs) + [Hob(item, filled)];
      data := Some(filled);
    }

    method MeasureCache(entry: CacheEntry, data: bytes) returns (ok: bool)
      modifies this`log
      ensures (S(), ok) == MeasureItem(E(), old(S()), entry, data)
    {
      if entry.measure {
        if td {
          if !measures(|log|) { return false; }
          log := log + [Event(entry.file, data)];
        }
      }
      ok := true;
    }

    method DirectorySize() returns (size: Option<nat>)
      modifies this`area, this`halted, dev
      ensures forall e: CacheEntry :: e.item == FILE_DIR ==> (S(), size) == ItemSize(E(), old(S()), e)
      ensures size.Some? ==> !halted
    {
      hide UnBe, Padded;
      dev.SelectItem(FILE_DIR);
      var raw := ReadBytes(4);
      var count := UnBe(Padded(raw, 4));
      if halted || count > MAXIMUM_SLOTS { return None; }
      size := Some(4 + count * 64);
    }

    method CacheOne(entry: CacheEntry) returns (ok: bool)
      requires !halted
      modifies this, dev
      ensures (S(), ok) == CacheItem(E(), old(S()), entry)
      decreases room, 0, 0
    {
      hide StoreItem, MeasureItem, ItemSize, CacheResolve, DirectorySound;
      var itemSize := entry.size;
      KnownSize(E(), S(), entry);
      if entry.item == FILE_DIR {
        var size := DirectorySize();
        if size.None? { return false; }
        itemSize := size.value;
      }
      if itemSize > entry.max { return false; }
      var data := CreateCache(entry.item, itemSize, entry);
      if data.None? { return false; }
      var measured := MeasureCache(entry, data.value);
      if !measured { return false; }
      if entry.item == FILE_DIR && itemSize >= 4 {
        var count := UnBe(data.value[..4]);
        SoundIs(data.value);
        if count > MAXIMUM_SLOTS { return false; }
        if itemSize != 4 + count * 64 { return false; }
        ok := Resolve();
        return;
      }
      ok := true;
    }
  }

  lemma KnownSize(env: Env, s: State, entry: CacheEntry)
    ensures entry.item != FILE_DIR ==> ItemSize(env, s, entry) == (s, Some(entry.size))
  {
  }

  lemma SoundIs(data: bytes)
    requires |data| >= 4
    ensures DirectorySound(data) <==> UnBe(data[..4]) <= MAXIMUM_SLOTS && |data| == 4 + UnBe(data[..4]) * 64
  {
  }
}
