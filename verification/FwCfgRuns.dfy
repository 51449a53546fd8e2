/** What every run over the fw_cfg cache keeps: one snapshot of each item, read from the device once, measured as read. */
module FwCfgRuns {
  import opened Bytes
  import opened FwCfgDevice
  import opened FwCfgCache

  // ----- blocks are only ever added

  ghost predicate Grows(s: State, s': State) {
    s.hobs <= s'.hobs && s.makers <= s'.makers && s.trace <= s'.trace && s.log <= s'.log && s.pos <= s'.pos
  }

  lemma GrowsOn(a: State, b: State, c: State)
    requires Grows(a, b) && Grows(b, c)
    ensures Grows(a, c)
  {
  }

  lemma {:induction false} CachedStable(hobs: seq<Hob>, hobs': seq<Hob>, item: nat)
    requires hobs <= hobs' && Cached(hobs, item).Some?
    ensures Cached(hobs', item) == Cached(hobs, item)
  {
    if !(hobs[0].item == item && hobs[0].data != []) {
      CachedStable(hobs[1..], hobs'[1..], item);
    }
  }

  lemma {:induction false} CachedAdded(hobs: seq<Hob>, item: nat, data: bytes)
    requires Cached(hobs, item).None?
    ensures Cached(hobs + [Hob(item, data)], item) == if data == [] then None else Some(data)
    ensures forall other | other != item :: Cached(hobs + [Hob(item, data)], other) == Cached(hobs, other)
  {
    var h := Hob(item, data);
    forall other: nat ensures Cached(hobs + [h], other) ==
      if Cached(hobs, other).Some? then Cached(hobs, other) else if other == item && data != [] then Some(data) else None
    {
      CachedLast(hobs, h, other);
    }
  }

  lemma {:induction false} CachedLast(hobs: seq<Hob>, h: Hob, item: nat)
    ensures Cached(hobs + [h], item) ==
      if Cached(hobs, item).Some? then Cached(hobs, item) else if h.item == item && h.data != [] then Some(h.data) else None
  {
    if hobs == [] {
      assert ([] + [h])[1..] == [];
    } else {
      assert (hobs + [h])[1..] == hobs[1..] + [h];
      CachedLast(hobs[1..], h, item);
    }
  }

  // ----- where a block comes from

  /** The data was the answer to one read, right behind the select of the item. */
  ghost predicate ReadOnce(h: Hob, trace: seq<Access>) {
    h.data == [] || exists k :: ReadAt(h, trace, k)
  }

  predicate ReadAt(h: Hob, trace: seq<Access>, k: nat) {
    k + 1 < |trace| && trace[k] == Select(h.item) && trace[k + 1] == Fetch(h.data)
  }

  /** The entry is one of the table's, perhaps with the selector and the size the directory gives for it. */
  predicate Stems(e: CacheEntry, base: CacheEntry) {
    && e.file == base.file && e.measure == base.measure && e.max == base.max
    && (base.item == UNRESOLVED || base.item == e.item)
    && (base.size != 0 ==> e.size == base.size)
  }

  ghost predicate Known(e: CacheEntry) {
    exists base <- CACHE :: Stems(e, base)
  }

  /** The block has the selector of the entry it was made for and stays within its bound; its size is that of the entry, and
      that of a directory is what its own count says. */
  predicate Fits(e: CacheEntry, h: Hob) {
    && h.item == e.item
    && |h.data| <= e.max
    && (if e.item == FILE_DIR then DirectorySound(h.data) else |h.data| == e.size)
  }

  /** The block made for entry `e` was read once, fits that entry, and on a TD, if that entry is marked, exactly its bytes
      were measured under the name of that entry. */
  ghost predicate Born(td: bool, e: CacheEntry, h: Hob, trace: seq<Access>, log: seq<Event>) {
    && ReadOnce(h, trace) && Known(e) && Fits(e, h)
    && (e.measure && td ==> Event(e.file, h.data) in log)
  }

  lemma BornStays(td: bool, e: CacheEntry, h: Hob, trace: seq<Access>, log: seq<Event>, trace': seq<Access>,
                  log': seq<Event>)
    requires Born(td, e, h, trace, log) && trace <= trace' && log <= log'
    ensures Born(td, e, h, trace', log')
  {
    hide Known, Fits;
    if h.data != [] {
      var k :| ReadAt(h, trace, k);
      assert ReadAt(h, trace', k);
    }
  }

  /** What is measured of the blocks: on a TD one event for each block of a marked entry, in the order of the blocks. */
  function Logged(td: bool, makers: seq<CacheEntry>, hobs: seq<Hob>): seq<Event>
    requires |makers| == |hobs|
  {
    if hobs == [] then []
    else
      var n := |hobs| - 1;
      Logged(td, makers[..n], hobs[..n])
      + (if makers[n].measure && td then [Event(makers[n].file, hobs[n].data)] else [])
  }

  ghost predicate AllBorn(td: bool, s: State)
    requires |s.makers| == |s.hobs|
  {
    forall j | 0 <= j < |s.hobs| :: Born(td, s.makers[j], s.hobs[j], s.trace, s.log)
  }

  /** Every block was born, and the log holds the events of the blocks and nothing else. */
  ghost predicate Sound(td: bool, s: State) {
    |s.makers| == |s.hobs| && AllBorn(td, s) && s.log == Logged(td, s.makers, s.hobs)
  }

  /** Blocks were only added, and soundness was kept. */
  ghost predicate Extends(td: bool, s: State, s': State) {
    Grows(s, s') && (Sound(td, s) ==> Sound(td, s'))
  }

  lemma ExtendsOn(td: bool, a: State, b: State, c: State)
    requires Extends(td, a, b) && Extends(td, b, c)
    ensures Extends(td, a, c)
  {
    hide Sound;
    GrowsOn(a, b, c);
  }

  /** Only the device and the work area changed. */
  predicate SameBlocks(s: State, s': State) {
    s'.hobs == s.hobs && s'.makers == s.makers && s'.log == s.log
  }

  lemma ExtendsSame(td: bool, s: State, s': State)
    requires Grows(s, s') && SameBlocks(s, s')
    ensures Extends(td, s, s')
  {
    hide Born, Logged;
    if Sound(td, s) {
      forall j | 0 <= j < |s'.hobs| ensures Born(td, s'.makers[j], s'.hobs[j], s'.trace, s'.log) {
        BornStays(td, s.makers[j], s.hobs[j], s.trace, s.log, s'.trace, s'.log);
      }
    }
  }

  // ----- the steps

  lemma LibReadGrows(env: Env, s: State, n: nat)
    ensures var s' := LibRead(env, s, n).0; Grows(s, s') && SameBlocks(s, s') && s'.room == s.room
  {
    hide Cached, Answer;
  }

  lemma {:induction false} FindFromGrows(env: Env, s: State, name: string, count: nat, i: nat)
    requires i <= count
    ensures var s' := FindFrom(env, s, name, count, i).0; Grows(s, s') && SameBlocks(s, s')
    decreases count - i
  {
    hide LibRead, CString, UnBe, Padded;
    if i < count && !s.halted {
      var s1 := LibRead(env, s, 4).0;
      LibReadGrows(env, s, 4);
      var s2 := if s1.halted then s1 else LibRead(env, s1, 2).0;
      LibReadGrows(env, s1, 2);
      var s3 := if s2.halted then s2 else LibRead(env, s2, 2).0;
      LibReadGrows(env, s2, 2);
      var s4 := if s3.halted then s3 else LibRead(env, s3, 56).0;
      LibReadGrows(env, s3, 56);
      if !s4.halted {
        FindFromGrows(env, s4, name, count, i + 1);
      }
    }
  }

  lemma ItemSizeGrows(env: Env, s: State, entry: CacheEntry)
    ensures var (s', size) := ItemSize(env, s, entry);
            && Grows(s, s') && SameBlocks(s, s')
            && s'.room == s.room
            && (entry.item != FILE_DIR ==> size == Some(entry.size) && s' == s)
            && (entry.item == FILE_DIR && size.Some? ==> size.value >= 4)
            && (size.Some? ==> !s'.halted || s.halted)
  {
    hide LibRead, UnBe, Padded;
    LibReadGrows(env, DevSelect(s, FILE_DIR), 4);
  }

  /** The new block holds what the one read behind its select returned. */
  lemma StoreAdds(env: Env, s: State, e: CacheEntry, size: nat)
    requires StoreItem(env, s, e, size).1.Some?
    ensures var (s', data) := StoreItem(env, s, e, size);
            && s'.hobs == s.hobs + [Hob(e.item, data.value)] && s'.makers == s.makers + [e]
            && s'.log == s.log && s'.halted == s.halted && s'.room < s.room
            && Grows(s, s') && ReadOnce(Hob(e.item, data.value), s'.trace) && s'.area == s.area
  {
    hide Answer;
    var (s', data) := StoreItem(env, s, e, size);
    if size > 0 {
      assert ReadAt(Hob(e.item, data.value), s'.trace, |s.trace|);
    }
  }

  lemma StoreGrows(env: Env, s: State, e: CacheEntry, size: nat)
    ensures Grows(s, StoreItem(env, s, e, size).0)
  {
    hide Answer;
  }

  lemma MeasureAdds(env: Env, s: State, entry: CacheEntry, data: bytes)
    ensures var (s', ok) := MeasureItem(env, s, entry, data);
            && Grows(s, s') && s' == s.(log := s'.log)
            && (ok ==> s'.log == s.log + (if entry.measure && env.td then [Event(entry.file, data)] else []))
  {
  }

  /** One block more, with its event. */
  lemma OneBlock(td: bool, s: State, s': State, e: CacheEntry, h: Hob)
    requires Grows(s, s') && s'.hobs == s.hobs + [h] && s'.makers == s.makers + [e]
    requires s'.log == s.log + (if e.measure && td then [Event(e.file, h.data)] else [])
    requires ReadOnce(h, s'.trace) && Known(e) && Fits(e, h)
    ensures Extends(td, s, s')
  {
    hide ReadOnce, Known, Fits;
    if Sound(td, s) {
      var n := |s.hobs|;
      assert s'.makers[..n] == s.makers && s'.hobs[..n] == s.hobs;
      forall j | 0 <= j < |s'.hobs| ensures Born(td, s'.makers[j], s'.hobs[j], s'.trace, s'.log) {
        if j < n {
          BornStays(td, s.makers[j], s.hobs[j], s.trace, s.log, s'.trace, s'.log);
        }
      }
    }
  }

  /** Up to the measurement, caching an item adds one block made for it. */
  lemma BlockExtends(env: Env, s: State, s1: State, e: CacheEntry, size: nat)
    requires Known(e) && size <= e.max && (e.item != FILE_DIR ==> size == e.size) && Grows(s, s1) && SameBlocks(s, s1)
    requires StoreItem(env, s1, e, size).1.Some?
    ensures var (s2, data) := StoreItem(env, s1, e, size);
            var (s3, measured) := MeasureItem(env, s2, e, data.value);
            && Grows(s, s3) && s3.halted == s1.halted && s3.area == s1.area && s3.room < s1.room
            && s3.hobs == s.hobs + [Hob(e.item, data.value)] && s3.makers == s.makers + [e]
            && (measured && (e.item == FILE_DIR ==> DirectorySound(data.value)) ==> Extends(env.td, s, s3))
  {
    hide StoreItem, MeasureItem, DirectorySound, Known, Extends, ReadOnce;
    StoreAdds(env, s1, e, size);
    var (s2, data) := StoreItem(env, s1, e, size);
    MeasureAdds(env, s2, e, data.value);
    var (s3, measured) := MeasureItem(env, s2, e, data.value);
    GrowsOn(s, s1, s2);
    GrowsOn(s, s2, s3);
    if measured && (e.item == FILE_DIR ==> DirectorySound(data.value)) {
      OneBlock(env.td, s, s3, e, Hob(e.item, data.value));
    }
  }

  /** Nested or not, caching an item only adds blocks, and unless it fails every added block was read once, fits the very
      entry it was made for, and was logged as that entry asks, in order. */
  lemma {:induction false} ItemExtends(env: Env, s: State, e: CacheEntry)
    requires !s.halted && Known(e)
    ensures var (s', ok) := CacheItem(env, s, e);
            Grows(s, s') && (ok ==> !s'.halted && Extends(env.td, s, s'))
    decreases s.room, 0, 0
  {
    hide ItemSize, StoreItem, MeasureItem, Extends, DirectorySound, Known, CacheResolve;
    ItemSizeGrows(env, s, e);
    var (s1, size) := ItemSize(env, s, e);
    if size.Some? && size.value <= e.max {
      StoreGrows(env, s1, e, size.value);
      var (s2, data) := StoreItem(env, s1, e, size.value);
      GrowsOn(s, s1, s2);
      if data.Some? {
        BlockExtends(env, s, s1, e, size.value);
        var (s3, measured) := MeasureItem(env, s2, e, data.value);
        if measured && e.item == FILE_DIR && DirectorySound(data.value) {
          ResolveExtends(env, s3, 0);
          GrowsOn(s, s3, CacheResolve(env, s3, 0).0);
          if CacheResolve(env, s3, 0).1 {
            ExtendsOn(env.td, s, s3, CacheResolve(env, s3, 0).0);
          }
        }
      }
    }
  }

  lemma {:induction false} SelectExtends(env: Env, s: State, item: nat)
    requires !s.halted
    ensures var (s', ok) := SelectItem(env, s, item);
            Grows(s, s') && (!s'.halted ==> Extends(env.td, s, s')) && (ok ==> !s'.halted)
    decreases s.room, 1, 0
  {
    hide Cached, ItemInCache, CacheItem, Known, Sound;
    ExtendsSame(env.td, s, Reset(s));
    ExtendsSame(env.td, s, s.(area := WorkArea(item, 0, true)));
    if Cached(s.hobs, item).None? && ItemInCache(CACHE, item).Some? {
      var e := ItemInCache(CACHE, item).value;
      KnownEntry(e);
      ItemExtends(env, Reset(s), e);
      var (s', ok) := CacheItem(env, Reset(s), e);
      if ok {
        ExtendsOn(env.td, s, Reset(s), s');
        ExtendsLater(env.td, s, s', s'.(area := WorkArea(item, 0, true)));
      }
    }
  }

  lemma KnownEntry(e: CacheEntry)
    requires e in CACHE
    ensures Known(e)
  {
    assert Stems(e, e);
  }

  lemma {:induction false} LibSelectExtends(env: Env, s: State, item: nat)
    requires !s.halted
    ensures var s' := LibSelect(env, s, item); Grows(s, s') && (!s'.halted ==> Extends(env.td, s, s'))
    decreases s.room, 2, 0
  {
    hide SelectItem, Extends;
    SelectExtends(env, s, item);
    var s' := SelectItem(env, s, item).0;
    if !s'.halted {
      ExtendsLater(env.td, s, s', DevSelect(Reset(s'), item));
    }
  }

  lemma {:induction false} FindFileExtends(env: Env, s: State, name: string)
    requires !s.halted
    ensures var (s', found) := FindFile(env, s, name);
            Grows(s, s') && (!s'.halted ==> Extends(env.td, s, s')) && (found.Some? ==> !s'.halted)
    decreases s.room, 3, 0
  {
    hide LibSelect, LibRead, FindFrom, UnBe, Padded, Extends;
    LibSelectExtends(env, s, FILE_DIR);
    var s1 := LibSelect(env, s, FILE_DIR);
    if !s1.halted {
      LibReadGrows(env, s1, 4);
      var (s2, count) := LibRead(env, s1, 4);
      GrowsOn(s, s1, s2);
      ExtendsLater(env.td, s, s1, s2);
      if !s2.halted {
        var n := UnBe(Padded(count, 4));
        FindFromGrows(env, s2, name, n, 0);
        FindFromHalts(env, s2, name, n, 0);
        var s3 := FindFrom(env, s2, name, n, 0).0;
        GrowsOn(s, s2, s3);
        ExtendsLater(env.td, s, s2, s3);
      }
    }
  }

  lemma ExtendsLater(td: bool, a: State, b: State, c: State)
    requires Extends(td, a, b) && Grows(b, c) && SameBlocks(b, c)
    ensures Extends(td, a, c)
  {
    hide Sound;
    ExtendsSame(td, b, c);
    ExtendsOn(td, a, b, c);
  }

  lemma {:induction false} FindFromHalts(env: Env, s: State, name: string, count: nat, i: nat)
    requires i <= count
    ensures var (s', found) := FindFrom(env, s, name, count, i); found.Some? ==> !s'.halted
    decreases count - i
  {
    hide LibRead, CString, UnBe, Padded;
    if i < count && !s.halted {
      var s1 := LibRead(env, s, 4).0;
      var s2 := if s1.halted then s1 else LibRead(env, s1, 2).0;
      var s3 := if s2.halted then s2 else LibRead(env, s2, 2).0;
      var s4 := if s3.halted then s3 else LibRead(env, s3, 56).0;
      if !s4.halted {
        FindFromHalts(env, s4, name, count, i + 1);
      }
    }
  }

  lemma {:induction false} ResolveExtends(env: Env, s: State, i: nat)
    requires !s.halted && i <= |CACHE|
    ensures var (s', ok) := CacheResolve(env, s, i);
            Grows(s, s') && (ok ==> !s'.halted && Extends(env.td, s, s'))
    decreases s.room, 4, |CACHE| - i
  {
    hide FindFile, CacheItem, Sound, Known;
    ExtendsSame(env.td, s, s);
    if i < |CACHE| {
      var entry := CACHE[i];
      if entry.item != UNRESOLVED {
        ResolveExtends(env, s, i + 1);
      } else {
        FindFileExtends(env, s, entry.file);
        var (s1, found) := FindFile(env, s, entry.file);
        if !s1.halted {
          if found.None? {
            ResolveExtends(env, s1, i + 1);
            ExtendsThen(env, s, s1, i + 1);
          } else {
            var (item, size) := found.value;
            if (entry.size == 0 || size == entry.size) && (entry.max == 0 || size <= entry.max) {
              var e := entry.(item := item, size := size);
              KnownResolved(i, e);
              ItemExtends(env, s1, e);
              var (s2, ok) := CacheItem(env, s1, e);
              GrowsOn(s, s1, s2);
              if ok {
                ExtendsOn(env.td, s, s1, s2);
                ResolveExtends(env, s2, i + 1);
                ExtendsThen(env, s, s2, i + 1);
              }
            }
          }
        }
      }
    }
  }

  lemma ExtendsThen(env: Env, s: State, s1: State, i: nat)
    requires Extends(env.td, s, s1) && i <= |CACHE|
    requires var (s', ok) := CacheResolve(env, s1, i); Grows(s1, s') && (ok ==> Extends(env.td, s1, s'))
    ensures var (s', ok) := CacheResolve(env, s1, i); Grows(s, s') && (ok ==> Extends(env.td, s, s'))
  {
    hide CacheResolve, Sound;
    var (s', ok) := CacheResolve(env, s1, i);
    GrowsOn(s, s1, s');
    if ok {
      ExtendsOn(env.td, s, s1, s');
    }
  }

  lemma KnownResolved(i: nat, e: CacheEntry)
    requires i < |CACHE| && CACHE[i].item == UNRESOLVED
    requires e == CACHE[i].(item := e.item, size := e.size) && (CACHE[i].size == 0 || e.size == CACHE[i].size)
    ensures Known(e)
  {
    assert Stems(e, CACHE[i]);
  }

  // ----- what a successful select leaves behind

  lemma {:induction false} ItemCaches(env: Env, s: State, e: CacheEntry)
    requires !s.halted && CacheItem(env, s, e).1 && Cached(s.hobs, e.item).None? && (e.item == FILE_DIR || e.size > 0)
    ensures Cached(CacheItem(env, s, e).0.hobs, e.item).Some?
  {
    hide ItemSize, StoreItem, MeasureItem, DirectorySound, CacheResolve, Cached;
    ItemSizeGrows(env, s, e);
    var (s1, size) := ItemSize(env, s, e);
    StoreAdds(env, s1, e, size.value);
    var (s2, data) := StoreItem(env, s1, e, size.value);
    MeasureAdds(env, s2, e, data.value);
    var (s3, measured) := MeasureItem(env, s2, e, data.value);
    CachedAdded(s.hobs, e.item, data.value);
    if e.item == FILE_DIR {
      ResolveExtends(env, s3, 0);
      CachedStable(s3.hobs, CacheResolve(env, s3, 0).0.hobs, FILE_DIR);
    }
  }

  /** A select that succeeds ends at its own item and offset 0, with the item in the cache. */
  lemma SelectCaches(env: Env, s: State, item: nat)
    requires !s.halted && SelectItem(env, s, item).1
    ensures var s' := SelectItem(env, s, item).0;
            s'.area == WorkArea(item, 0, true) && !s'.halted && Cached(s'.hobs, item).Some?
  {
    hide Cached, CacheItem, ItemInCache;
    if Cached(s.hobs, item).None? {
      var e := ItemInCache(CACHE, item).value;
      StaticSizes(e);
      ItemCaches(env, Reset(s), e);
    }
  }

  lemma StaticSizes(e: CacheEntry)
    requires e in CACHE && e.item != UNRESOLVED
    ensures e.item == FILE_DIR || e.size > 0
  {
  }

  // ----- runs

  /** The calls of Cache.c, and those of the library it is built into. */
  datatype Op =
    SelectOp(item: nat) | ReadOp(n: nat) | ResetOp | LibSelectOp(item: nat) | LibReadOp(n: nat) | FindOp(name: string)

  datatype Reply = Selected(ok: bool) | Got(data: bytes) | Done | Found(file: Option<(nat, nat)>)

  /** One call; a stopped processor does nothing more and gives nothing. */
  function Do(env: Env, s: State, op: Op): (State, Reply) {
    if s.halted then (s, Got([]))
    else
      match op
      case SelectOp(item) => var (s', ok) := SelectItem(env, s, item); (s', Selected(ok))
      case ReadOp(n) => var (s', data) := CacheRead(s, n); (s', Got(data))
      case ResetOp => (Reset(s), Done)
      case LibSelectOp(item) => (LibSelect(env, s, item), Done)
      case LibReadOp(n) => var (s', data) := LibRead(env, s, n); (s', Got(data))
      case FindOp(name) => var (s', file) := FindFile(env, s, name); (s', Found(file))
  }

  function Run(env: Env, s: State, ops: seq<Op>): (State, seq<Reply>) {
    var n := |ops|;
    if n == 0 then (s, [])
    else
      var (before, replies) := Run(env, s, ops[..n - 1]);
      var (after, reply) := Do(env, before, ops[n - 1]);
      (after, replies + [reply])
  }

  /** Nothing cached, nothing read, nothing measured. */
  predicate Initial(s: State) {
    s.hobs == [] && s.makers == [] && s.trace == [] && s.log == [] && !s.halted && !s.area.reading
  }

  lemma DoKeeps(env: Env, s: State, op: Op)
    ensures var s' := Do(env, s, op).0; Grows(s, s') && (!s'.halted ==> Extends(env.td, s, s'))
  {
    hide SelectItem, LibSelect, LibRead, CacheRead, FindFile, Extends;
    ExtendsSame(env.td, s, s);
    if !s.halted {
      match op
      case SelectOp(item) => SelectExtends(env, s, item);
      case ReadOp(n) =>
        CacheReadGrows(s, n);
        ExtendsSame(env.td, s, CacheRead(s, n).0);
      case ResetOp => ExtendsSame(env.td, s, Reset(s));
      case LibSelectOp(item) => LibSelectExtends(env, s, item);
      case LibReadOp(n) =>
        LibReadGrows(env, s, n);
        ExtendsSame(env.td, s, LibRead(env, s, n).0);
      case FindOp(name) => FindFileExtends(env, s, name);
    }
  }

  lemma CacheReadGrows(s: State, n: nat)
    ensures var s' := CacheRead(s, n).0; Grows(s, s') && SameBlocks(s, s')
  {
    hide Cached;
  }

  lemma DoStaysHalted(env: Env, s: State, op: Op)
    ensures s.halted ==> Do(env, s, op).0.halted
  {
  }

  /** Whatever is called, blocks are only added, and as long as the processor runs every one of them was read once from the
      device behind its own select and fits the very entry it was made for, and the log holds exactly the events of the
      blocks made for marked entries, in order. */
  lemma {:induction false} RunKeeps(env: Env, s: State, ops: seq<Op>)
    ensures var s' := Run(env, s, ops).0;
            Grows(s, s') && (s.halted ==> s'.halted) && (!s'.halted && Sound(env.td, s) ==> Sound(env.td, s'))
  {
    hide Do, Sound;
    var n := |ops|;
    if n > 0 {
      RunKeeps(env, s, ops[..n - 1]);
      var before := Run(env, s, ops[..n - 1]).0;
      DoKeeps(env, before, ops[n - 1]);
      DoStaysHalted(env, before, ops[n - 1]);
      GrowsOn(s, before, Run(env, s, ops).0);
    }
  }

  lemma InitialSound(td: bool, s: State)
    requires Initial(s)
    ensures Sound(td, s)
  {
  }

  /** Once an item is cached, no later call changes its bytes, and selecting it again succeeds without the device. */
  lemma OneSnapshot(env: Env, s: State, ops: seq<Op>, item: nat)
    requires Cached(s.hobs, item).Some?
    ensures var s' := Run(env, s, ops).0;
            && Cached(s'.hobs, item) == Cached(s.hobs, item)
            && SelectItem(env, s', item) == (s'.(area := WorkArea(item, 0, true)), true)
  {
    hide Run, Cached, Sound;
    RunKeeps(env, s, ops);
    CachedStable(s.hobs, Run(env, s, ops).0.hobs, item);
  }

  // ----- reading what was selected

  /** Reads of these sizes. */
  function Reads(sizes: seq<nat>): (ops: seq<Op>)
    ensures |ops| == |sizes|
  {
    seq(|sizes|, i requires 0 <= i < |sizes| => ReadOp(sizes[i]))
  }

  /** What replies hold, put together. */
  function Collected(replies: seq<Reply>): bytes {
    var n := |replies|;
    if n == 0 then [] else Collected(replies[..n - 1]) + (if replies[n - 1].Got? then replies[n - 1].data else [])
  }

  function Min(a: nat, b: nat): nat {
    if a < b then a else b
  }

  lemma ReadsLast(env: Env, s: State, sizes: seq<nat>)
    requires sizes != []
    ensures var n := |sizes| - 1;
            var (before, replies) := Run(env, s, Reads(sizes[..n]));
            var (after, reply) := Do(env, before, ReadOp(sizes[n]));
            Run(env, s, Reads(sizes)) == (after, replies + [reply])
  {
    hide Do;
    assert Reads(sizes)[..|sizes| - 1] == Reads(sizes[..|sizes| - 1]);
  }

  lemma SumLast(sizes: seq<nat>)
    requires sizes != []
    ensures var n := |sizes| - 1;
            SumOf(sizes) == SumOf(sizes[..n]) + sizes[n] && (n > 0 ==> SumOf(sizes[..n]) >= SumOf(sizes[..n][..n - 1]))
  {
    var n := |sizes| - 1;
    if n > 0 {
      SumGrows(sizes[..n], n - 1);
    }
  }

  lemma NoReads(env: Env, s: State)
    ensures Run(env, s, Reads([])) == (s, []) && Collected([]) == [] && SumOf([]) == 0
  {
  }

  /** One more read, where `sum` bytes were asked for before. */
  lemma NextRead(env: Env, s: State, item: nat, data: bytes, sum: nat, n: nat)
    requires s.area == WorkArea(item, Min(sum, |data|), true) && Cached(s.hobs, item) == Some(data)
    requires s.halted ==> sum >= |data|
    ensures var (s', reply) := Do(env, s, ReadOp(n));
            && reply.Got? && data[..Min(sum, |data|)] + reply.data == data[..Min(sum + n, |data|)]
            && s' == s.(area := WorkArea(item, Min(sum + n, |data|), true), halted := s'.halted)
            && (s'.halted <==> sum >= |data|)
  {
    hide Cached;
    if !s.halted {
      OneRead(s, item, data, n);
    }
  }

  /** Reads behind a select return the cached bytes one piece behind the other and touch nothing but the work area; the
      processor stops exactly when one of them starts behind the last byte. */
  lemma {:induction false} ReadsAreSlices(env: Env, s: State, item: nat, data: bytes, sizes: seq<nat>)
    requires !s.halted && s.area == WorkArea(item, 0, true) && Cached(s.hobs, item) == Some(data)
    ensures var (s', replies) := Run(env, s, Reads(sizes));
            && Collected(replies) == data[..Min(SumOf(sizes), |data|)]
            && s' == s.(area := WorkArea(item, Min(SumOf(sizes), |data|), true), halted := s'.halted)
            && (s'.halted <==> sizes != [] && SumOf(sizes[..|sizes| - 1]) >= |data|)
    decreases |sizes|
  {
    hide Cached, Run, Do, SumOf, Collected, Reads;
    NoReads(env, s);
    if sizes != [] {
      var n := |sizes| - 1;
      SumLast(sizes);
      ReadsAreSlices(env, s, item, data, sizes[..n]);
      ReadsLast(env, s, sizes);
      var (before, replies) := Run(env, s, Reads(sizes[..n]));
      NextRead(env, before, item, data, SumOf(sizes[..n]), sizes[n]);
      ReplyLast(replies, Do(env, before, ReadOp(sizes[n])).1);
    }
  }

  lemma ReplyLast(replies: seq<Reply>, reply: Reply)
    ensures Collected(replies + [reply]) == Collected(replies) + (if reply.Got? then reply.data else [])
  {
    assert (replies + [reply])[..|replies|] == replies;
  }

  lemma {:induction false} SumGrows(sizes: seq<nat>, i: nat)
    requires i <= |sizes|
    ensures SumOf(sizes[..i]) <= SumOf(sizes)
    decreases |sizes|
  {
    var n := |sizes|;
    if i == n {
      assert sizes[..n] == sizes;
    } else {
      assert sizes[..n - 1][..i] == sizes[..i];
      SumGrows(sizes[..n - 1], i);
    }
  }

  lemma OneRead(s: State, item: nat, data: bytes, n: nat)
    requires s.area.item == item && s.area.reading && Cached(s.hobs, item) == Some(data) && s.area.offset <= |data|
    ensures var (s', got) := CacheRead(s, n);
            var to := if s.area.offset + n < |data| then s.area.offset + n else |data|;
            if s.area.offset == |data| then s' == Halt(s) && got == []
            else s' == s.(area := WorkArea(item, to, true)) && got == data[s.area.offset..to]
  {
    hide Cached;
  }

  // ----- which block serves

  /** Block `j` is the first one of the item that has data. */
  ghost predicate Serves(hobs: seq<Hob>, item: nat, j: nat) {
    && j < |hobs| && hobs[j].item == item && hobs[j].data != []
    && forall m | 0 <= m < j && hobs[m].item == item :: hobs[m].data == []
  }

  lemma {:induction false} CachedIsServed(hobs: seq<Hob>, item: nat) returns (j: nat)
    requires Cached(hobs, item).Some?
    ensures Serves(hobs, item, j) && Cached(hobs, item) == Some(hobs[j].data)
  {
    if hobs[0].item == item && hobs[0].data != [] {
      j := 0;
    } else {
      j := CachedIsServed(hobs[1..], item);
      j := j + 1;
    }
  }

  lemma ServedIsCached(hobs: seq<Hob>, item: nat, j: nat)
    requires Serves(hobs, item, j)
    ensures Cached(hobs, item) == Some(hobs[j].data)
    decreases j
  {
    if j > 0 {
      assert hobs[1..][j - 1] == hobs[j];
      ServedIsCached(hobs[1..], item, j - 1);
    }
  }

  lemma OneServes(hobs: seq<Hob>, item: nat, j: nat, k: nat)
    requires Serves(hobs, item, j) && Serves(hobs, item, k)
    ensures j == k
  {
  }

  /** In any run from the start, the reads behind a successful select give consecutive pieces of one payload, the data of one
      block: the answer to one device read behind the select of the item, within the bound and of the size of the very entry
      the block was made for, and on a TD measured under the name of that entry, if it is marked. However the run goes on, a
      later select of the item leaves the device alone and reads behind it give pieces of the same payload. */
  lemma RunReadsSnapshot(env: Env, s: State, before: seq<Op>, item: nat, sizes: seq<nat>, between: seq<Op>, again: seq<nat>)
      returns (j: nat)
    requires Initial(s)
    requires !Run(env, s, before).0.halted && SelectItem(env, Run(env, s, before).0, item).1
    ensures var s1 := SelectItem(env, Run(env, s, before).0, item).0;
            && |s1.makers| == |s1.hobs| && Serves(s1.hobs, item, j)
            && Born(env.td, s1.makers[j], s1.hobs[j], s1.trace, s1.log)
            && var payload := s1.hobs[j].data;
            && Collected(Run(env, s1, Reads(sizes)).1) == payload[..Min(SumOf(sizes), |payload|)]
            && var s2 := Run(env, Run(env, s1, Reads(sizes)).0, between).0;
            (!s2.halted ==>
               var (s3, ok) := SelectItem(env, s2, item);
               && ok && s3.trace == s2.trace
               && Collected(Run(env, s3, Reads(again)).1) == payload[..Min(SumOf(again), |payload|)])
  {
    hide Run, SelectItem, Born, Cached, Collected, SumOf, Reads, Logged, Serves;
    InitialSound(env.td, s);
    RunKeeps(env, s, before);
    var s0 := Run(env, s, before).0;
    var s1 := SelectItem(env, s0, item).0;
    SelectExtends(env, s0, item);
    SelectCaches(env, s0, item);
    j := CachedIsServed(s1.hobs, item);
    assert j < |s1.hobs| by { ServesInside(s1.hobs, item, j); }
    var payload := s1.hobs[j].data;
    ReadsAreSlices(env, s1, item, payload, sizes);
    var read := Run(env, s1, Reads(sizes)).0;
    OneSnapshot(env, read, between, item);
    var s2 := Run(env, read, between).0;
    if !s2.halted {
      ReadsAreSlices(env, SelectItem(env, s2, item).0, item, payload, again);
    }
  }

  lemma ServesInside(hobs: seq<Hob>, item: nat, j: nat)
    requires Serves(hobs, item, j)
    ensures j < |hobs|
  {
  }
}
