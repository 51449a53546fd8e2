/** Caching the directory: its nested lookups read the directory just cached, and caching it again never gets through. */
module FwCfgDirectory {
  import opened Bytes
  import opened FwCfgDevice
  import opened FwCfgCache
  import opened FwCfgRuns

  /** The selector and the size the directory gives for a name: those of the first entry of that name. */
  function Lookup(dir: bytes, name: string, i: nat): Option<(nat, nat)>
    requires DirectorySound(dir) && i <= UnBe(dir[..4])
    decreases UnBe(dir[..4]) - i
  {
    if i == UnBe(dir[..4]) then None
    else
      var at := 4 + 64 * i;
      if CString(dir[at + 8..at + 64]) == name then Some((UnBe(dir[at + 4..at + 6]), UnBe(dir[at..at + 4])))
      else Lookup(dir, name, i + 1)
  }

  /** No file of the table has the selector of the directory itself. */
  ghost predicate NoAlias(dir: bytes)
    requires DirectorySound(dir)
  {
    forall e <- CACHE | e.item == UNRESOLVED :: NamesOther(dir, e.file)
  }

  predicate NamesOther(dir: bytes, name: string)
    requires DirectorySound(dir)
  {
    var found := Lookup(dir, name, 0);
    found.Some? ==> found.value.0 != FILE_DIR
  }

  /** The directory is selected, at an offset. */
  predicate At(s: State, dir: bytes, offset: nat) {
    !s.halted && s.area == WorkArea(FILE_DIR, offset, true) && Cached(s.hobs, FILE_DIR) == Some(dir)
  }

  lemma ReadAhead(env: Env, s: State, dir: bytes, offset: nat, n: nat)
    requires At(s, dir, offset) && n > 0 && offset + n <= |dir|
    ensures var (s', b) := LibRead(env, s, n);
            && s' == s.(area := WorkArea(FILE_DIR, offset + n, true)) && At(s', dir, offset + n)
            && b == dir[offset..offset + n] && Padded(b, n) == b
  {
    hide Cached;
  }

  lemma {:induction false} FindFromLooksUp(env: Env, s: State, dir: bytes, name: string, i: nat)
    requires DirectorySound(dir) && i <= UnBe(dir[..4]) && At(s, dir, 4 + 64 * i)
    ensures var (s', found) := FindFrom(env, s, name, UnBe(dir[..4]), i);
            && s' == s.(area := WorkArea(FILE_DIR, s'.area.offset, true)) && found == Lookup(dir, name, i)
    decreases UnBe(dir[..4]) - i
  {
    hide LibRead, Padded, UnBe, CString;
    if i < UnBe(dir[..4]) {
      var at := 4 + 64 * i;
      ReadAhead(env, s, dir, at, 4);
      var s1 := LibRead(env, s, 4).0;
      ReadAhead(env, s1, dir, at + 4, 2);
      var s2 := LibRead(env, s1, 2).0;
      ReadAhead(env, s2, dir, at + 6, 2);
      var s3 := LibRead(env, s2, 2).0;
      ReadAhead(env, s3, dir, at + 8, 56);
      var s4 := LibRead(env, s3, 56).0;
      if CString(LibRead(env, s3, 56).1) != name {
        FindFromLooksUp(env, s4, dir, name, i + 1);
      }
    }
  }

  /** Once the directory is cached, finding a file is looking it up there: nothing but the work area changes. */
  lemma FindFileLooksUp(env: Env, s: State, dir: bytes, name: string)
    requires !s.halted && Cached(s.hobs, FILE_DIR) == Some(dir) && DirectorySound(dir)
    ensures var (s', found) := FindFile(env, s, name);
            s' == s.(area := s'.area) && found == Lookup(dir, name, 0)
  {
    hide LibRead, Padded, UnBe, FindFrom, Lookup, Cached;
    var s1 := s.(area := WorkArea(FILE_DIR, 0, true));
    assert LibSelect(env, s, FILE_DIR) == s1;
    ReadAhead(env, s1, dir, 0, 4);
    assert dir[0..4] == dir[..4];
    var s2 := LibRead(env, s1, 4).0;
    FindFromLooksUp(env, s2, dir, name, 0);
  }

  /** Between the two states no block of the directory was added and the device was not asked for it. */
  ghost predicate LeavesDirectory(s: State, s': State) {
    && Grows(s, s')
    && (forall j | |s.hobs| <= j < |s'.hobs| :: s'.hobs[j].item != FILE_DIR)
    && (forall k | |s.trace| <= k < |s'.trace| :: s'.trace[k] != Select(FILE_DIR))
  }

  lemma LeavesOn(a: State, b: State, c: State)
    requires LeavesDirectory(a, b) && LeavesDirectory(b, c)
    ensures LeavesDirectory(a, c)
  {
  }

  lemma ItemLeaves(env: Env, s: State, e: CacheEntry)
    requires !s.halted && e.item != FILE_DIR
    ensures var s' := CacheItem(env, s, e).0; LeavesDirectory(s, s') && !s'.halted
  {
    hide Answer;
  }

  lemma OnlyArea(s: State, s': State)
    requires s' == s.(area := s'.area)
    ensures LeavesDirectory(s, s')
  {
  }

  lemma LeavesGrows(s: State, s': State)
    requires LeavesDirectory(s, s')
    ensures Grows(s, s')
  {
  }

  // ----- a file with the selector of the directory

  /** Resolving starts again from the first entry behind the block that is filled: unless that gets through, the directory
      is not cached another time. */
  lemma AgainResolves(env: Env, s: State, e: CacheEntry, dir: bytes) returns (s': State)
    requires !s.halted && e.item == FILE_DIR && Cached(s.hobs, FILE_DIR) == Some(dir) && CacheItem(env, s, e).1
    ensures !s'.halted && s'.room < s.room && Cached(s'.hobs, FILE_DIR) == Some(dir) && CacheResolve(env, s', 0).1
  {
    hide ItemSize, StoreItem, MeasureItem, DirectorySound, CacheResolve, Cached;
    ItemSizeGrows(env, s, e);
    var (s1, size) := ItemSize(env, s, e);
    StoreAdds(env, s1, e, size.value);
    var (s2, data) := StoreItem(env, s1, e, size.value);
    MeasureAdds(env, s2, e, data.value);
    s' := MeasureItem(env, s2, e, data.value).0;
    CachedStable(s.hobs, s'.hobs, FILE_DIR);
  }

  /** With a file of the table that has the selector of the directory, resolving never succeeds: caching that file resolves
      again behind the same directory, with less room for blocks. */
  lemma {:induction false} AliasNeverResolves(env: Env, s: State, dir: bytes, i: nat, j: nat)
    requires !s.halted && i <= j < |CACHE| && Cached(s.hobs, FILE_DIR) == Some(dir) && DirectorySound(dir)
    requires CACHE[j].item == UNRESOLVED && !NamesOther(dir, CACHE[j].file)
    ensures !CacheResolve(env, s, i).1
    decreases s.room, |CACHE| - i
  {
    hide FindFile, CacheItem, Lookup, Cached, DirectorySound;
    var entry := CACHE[i];
    if CacheResolve(env, s, i).1 {
      if entry.item != UNRESOLVED {
        AliasNeverResolves(env, s, dir, i + 1, j);
      } else {
        FindFileLooksUp(env, s, dir, entry.file);
        var (s1, found) := FindFile(env, s, entry.file);
        if found.None? {
          AliasNeverResolves(env, s1, dir, i + 1, j);
        } else {
          var e := entry.(item := found.value.0, size := found.value.1);
          var s2 := CacheItem(env, s1, e).0;
          if e.item == FILE_DIR {
            var s3 := AgainResolves(env, s1, e, dir);
            AliasNeverResolves(env, s3, dir, 0, j);
          } else {
            ItemLeaves(env, s1, e);
            LeavesGrows(s1, s2);
            CachedStable(s1.hobs, s2.hobs, FILE_DIR);
            AliasNeverResolves(env, s2, dir, i + 1, j);
          }
        }
      }
    }
  }

  lemma Alias(dir: bytes) returns (j: nat)
    requires DirectorySound(dir) && !NoAlias(dir)
    ensures j < |CACHE| && CACHE[j].item == UNRESOLVED && !NamesOther(dir, CACHE[j].file)
  {
    hide Lookup, DirectorySound;
    var e :| e in CACHE && e.item == UNRESOLVED && !NamesOther(dir, e.file);
    j :| 0 <= j < |CACHE| && CACHE[j] == e;
  }

  lemma ResolvedHasNoAlias(env: Env, s: State, dir: bytes)
    requires !s.halted && Cached(s.hobs, FILE_DIR) == Some(dir) && DirectorySound(dir) && CacheResolve(env, s, 0).1
    ensures NoAlias(dir)
  {
    hide Lookup, DirectorySound, Cached, NoAlias;
    if !NoAlias(dir) {
      var j := Alias(dir);
      AliasNeverResolves(env, s, dir, 0, j);
    }
  }

  lemma AliasFree(dir: bytes, i: nat)
    requires DirectorySound(dir) && NoAlias(dir) && i < |CACHE| && CACHE[i].item == UNRESOLVED
    ensures var found := Lookup(dir, CACHE[i].file, 0); found.Some? ==> found.value.0 != FILE_DIR
  {
    hide Lookup, DirectorySound;
    assert CACHE[i] in CACHE && NamesOther(dir, CACHE[i].file);
  }

  // ----- what resolving adds

  /** Entry `i` of the table with the selector and the size the directory gives, if it lists it. */
  function Given(dir: bytes, i: nat): seq<CacheEntry>
    requires DirectorySound(dir) && i < |CACHE|
  {
    var found := Lookup(dir, CACHE[i].file, 0);
    if CACHE[i].item != UNRESOLVED || found.None? then []
    else [CACHE[i].(item := found.value.0, size := found.value.1)]
  }

  /** What the directory lists of the entries of the table from number `i` to `n`. */
  function Listed(dir: bytes, i: nat, n: nat): seq<CacheEntry>
    requires DirectorySound(dir) && i <= n <= |CACHE|
    decreases n - i
  {
    if i == n then [] else Given(dir, i) + Listed(dir, i + 1, n)
  }

  /** One block was added for each of these entries, none of them for the directory, and the device was not asked for it. */
  ghost predicate Makes(s: State, s': State, made: seq<CacheEntry>) {
    LeavesDirectory(s, s') && !s'.halted && s'.makers == s.makers + made && |s'.hobs| == |s.hobs| + |made|
  }

  lemma MakesOn(a: State, b: State, c: State, x: seq<CacheEntry>, y: seq<CacheEntry>)
    requires Makes(a, b, x) && Makes(b, c, y)
    ensures Makes(a, c, x + y)
  {
    LeavesOn(a, b, c);
    Assoc(a.makers, x, y);
  }

  lemma MakesNothing(s: State, s': State)
    requires s' == s.(area := s'.area) && !s.halted
    ensures Makes(s, s', [])
  {
  }

  lemma ItemMakes(env: Env, s: State, e: CacheEntry, dir: bytes)
    requires !s.halted && e.item != FILE_DIR && CacheItem(env, s, e).1 && Cached(s.hobs, FILE_DIR) == Some(dir)
    ensures var s' := CacheItem(env, s, e).0; Makes(s, s', [e]) && Cached(s'.hobs, FILE_DIR) == Some(dir)
  {
    hide CacheItem, Cached;
    ItemLeaves(env, s, e);
    ItemAdds(env, s, e);
    CachedStable(s.hobs, CacheItem(env, s, e).0.hobs, FILE_DIR);
  }

  lemma ItemAdds(env: Env, s: State, e: CacheEntry)
    requires !s.halted && e.item != FILE_DIR && CacheItem(env, s, e).1
    ensures var s' := CacheItem(env, s, e).0; s'.makers == s.makers + [e] && |s'.hobs| == |s.hobs| + 1
  {
    hide Answer;
  }

  lemma GivenIs(dir: bytes, i: nat)
    requires DirectorySound(dir) && i < |CACHE| && CACHE[i].item == UNRESOLVED
    ensures var found := Lookup(dir, CACHE[i].file, 0);
            Given(dir, i) ==
              if found.None? then [] else [CACHE[i].(item := found.value.0, size := found.value.1)]
  {
    hide Lookup, DirectorySound;
  }

  /** Resolving that succeeds makes one block for each listed entry in the order of the table, none of them for the directory,
      and does not ask the device for the directory. */
  lemma {:induction false} ResolveMakes(env: Env, s: State, dir: bytes, i: nat)
    requires !s.halted && i <= |CACHE| && Cached(s.hobs, FILE_DIR) == Some(dir) && DirectorySound(dir) && NoAlias(dir)
    requires CacheResolve(env, s, i).1
    ensures Makes(s, CacheResolve(env, s, i).0, Listed(dir, i, |CACHE|))
    decreases |CACHE| - i
  {
    hide FindFile, CacheItem, Lookup, Cached, DirectorySound, NoAlias, Makes, Given;
    MakesNothing(s, s);
    if i < |CACHE| {
      var entry := CACHE[i];
      var end := CacheResolve(env, s, i).0;
      var rest := Listed(dir, i + 1, |CACHE|);
      if entry.item != UNRESOLVED {
        ResolveMakes(env, s, dir, i + 1);
        GivenNothing(dir, i);
      } else {
        FindFileLooksUp(env, s, dir, entry.file);
        var (s1, found) := FindFile(env, s, entry.file);
        AliasFree(dir, i);
        GivenIs(dir, i);
        MakesNothing(s, s1);
        if found.None? {
          ResolveMakes(env, s1, dir, i + 1);
          MakesOn(s, s1, end, [], rest);
        } else {
          var e := entry.(item := found.value.0, size := found.value.1);
          ItemMakes(env, s1, e, dir);
          var s2 := CacheItem(env, s1, e).0;
          assert !s2.halted by { MakesRuns(s1, s2, [e]); }
          ResolveMakes(env, s2, dir, i + 1);
          MakesOn(s1, s2, end, [e], rest);
          MakesOn(s, s1, end, [], [e] + rest);
          assert [] + ([e] + rest) == [e] + rest;
        }
      }
    }
  }

  lemma GivenNothing(dir: bytes, i: nat)
    requires DirectorySound(dir) && i < |CACHE| && CACHE[i].item != UNRESOLVED
    ensures Listed(dir, i, |CACHE|) == Listed(dir, i + 1, |CACHE|)
  {
    hide DirectorySound, Lookup;
    assert [] + Listed(dir, i + 1, |CACHE|) == Listed(dir, i + 1, |CACHE|);
  }

  lemma MakesRuns(s: State, s': State, made: seq<CacheEntry>)
    requires Makes(s, s', made)
    ensures !s'.halted
  {
  }

  // ----- selecting the directory

  /** What the two selects of the directory give: the state its files are resolved from, and the stored directory. */
  function DirectoryStored(env: Env, s: State): (State, Option<bytes>) {
    var (s1, size) := ItemSize(env, s, CACHE[0]);
    if size.None? then (s1, None) else StoreItem(env, s1, CACHE[0], size.value)
  }

  /** The two selects of the directory before its block is filled: the count, and the whole. */
  lemma DirectoryRead(env: Env, s: State)
    requires !s.halted && !s.area.reading && Cached(s.hobs, FILE_DIR).None?
    ensures var (s2, data) := DirectoryStored(env, s);
            var (s', ok) := CacheItem(env, s, CACHE[0]);
            && (ok ==> data.Some? && DirectorySound(data.value))
            && (data.Some? && DirectorySound(data.value) ==>
                  && (s', ok) == CacheResolve(env, s2, 0) && !s2.halted
                  && s2.hobs == s.hobs + [Hob(FILE_DIR, data.value)] && s2.makers == s.makers + [CACHE[0]]
                  && Cached(s2.hobs, FILE_DIR) == Some(data.value)
                  && |s2.trace| == |s.trace| + 4 && Grows(s, s2)
                  && s2.trace[|s.trace|] == Select(FILE_DIR) && s2.trace[|s.trace| + 1].Fetch?
                  && s2.trace[|s.trace| + 2] == Select(FILE_DIR) && s2.trace[|s.trace| + 3] == Fetch(data.value))
  {
    hide UnBe, Padded, Answer, CacheResolve, Cached;
    var (s2, data) := DirectoryStored(env, s);
    if data.Some? {
      CachedAdded(s.hobs, FILE_DIR, data.value);
    }
  }

  /** Every successful select of an uncached directory reads it with two selects and never selects it on the device again;
      it leaves exactly one block for it, whose size fits the count stored in it, and behind that one block for each file of
      the table the directory lists, none of which has the selector of the directory. */
  lemma DirectoryCachedOnce(env: Env, s: State)
    requires !s.halted && Cached(s.hobs, FILE_DIR).None? && SelectItem(env, s, FILE_DIR).1
    ensures var s' := SelectItem(env, s, FILE_DIR).0;
            var t := |s.trace|;
            && s'.area == WorkArea(FILE_DIR, 0, true)
            && |s'.hobs| > |s.hobs| && s'.hobs[|s.hobs|].item == FILE_DIR
            && var dir := s'.hobs[|s.hobs|].data;
            && Cached(s'.hobs, FILE_DIR) == Some(dir) && DirectorySound(dir) && |dir| <= CACHE[0].max && NoAlias(dir)
            && |s'.trace| >= t + 4 && s'.trace[t] == Select(FILE_DIR)
            && s'.trace[t + 2] == Select(FILE_DIR) && s'.trace[t + 3] == Fetch(dir)
            && (forall k | t + 4 <= k < |s'.trace| :: s'.trace[k] != Select(FILE_DIR))
            && (forall j | |s.hobs| < j < |s'.hobs| :: s'.hobs[j].item != FILE_DIR)
            && s'.makers == s.makers + [CACHE[0]] + Listed(dir, 0, |CACHE|)
            && |s'.hobs| == |s.hobs| + 1 + |Listed(dir, 0, |CACHE|)|
  {
    hide CacheItem, DirectoryStored, CacheResolve, Cached, DirectorySound, NoAlias, Listed;
    var start := Reset(s);
    assert ItemInCache(CACHE, FILE_DIR) == Some(CACHE[0]);
    DirectoryRead(env, start);
    var (s2, data) := DirectoryStored(env, start);
    var dir := data.value;
    var s3 := CacheResolve(env, s2, 0).0;
    SelectCaches(env, s, FILE_DIR);
    ResolvedHasNoAlias(env, s2, dir);
    ResolveMakes(env, s2, dir, 0);
    CachedStable(s2.hobs, s3.hobs, FILE_DIR);
    SoundIsSmall(dir);
    assert s3.hobs[|s.hobs|] == s2.hobs[|s.hobs|];
  }

  /** A directory that lists its own selector for a file of the table is never selected: whatever the device answers
      afterwards, the processor stops. */
  lemma AliasStops(env: Env, s: State)
    requires !s.halted && Cached(s.hobs, FILE_DIR).None?
    requires var dir := DirectoryStored(env, Reset(s)).1;
             dir.Some? && DirectorySound(dir.value) && !NoAlias(dir.value)
    ensures var (s', ok) := SelectItem(env, s, FILE_DIR); s'.halted && !ok
  {
    hide CacheItem, DirectoryStored, CacheResolve, Cached, DirectorySound, NoAlias;
    assert ItemInCache(CACHE, FILE_DIR) == Some(CACHE[0]);
    DirectoryRead(env, Reset(s));
    var (s2, data) := DirectoryStored(env, Reset(s));
    if CacheResolve(env, s2, 0).1 {
      ResolvedHasNoAlias(env, s2, data.value);
    }
  }

  lemma SoundIsSmall(dir: bytes)
    requires DirectorySound(dir)
    ensures |dir| <= CACHE[0].max
  {
  }

  /** A file of size zero is put in a block that counts as no cache: selecting it later is left to the device. */
  lemma ZeroSizeIsNotCached(env: Env, s: State, e: CacheEntry)
    requires !s.halted && e.item != FILE_DIR && e.size == 0 && CacheItem(env, s, e).1
    requires Cached(s.hobs, e.item).None? && ItemInCache(CACHE, e.item).None?
    ensures var s' := CacheItem(env, s, e).0;
            && |s'.hobs| == |s.hobs| + 1 && s'.hobs[|s.hobs|] == Hob(e.item, [])
            && SelectItem(env, s', e.item) == (s', false)
  {
    hide Cached, Answer, CacheResolve;
    CachedAdded(s.hobs, e.item, []);
  }

  /** What is neither cached nor in the table with a selector of its own is left to the device: it is selected there, and reads
      give the device's next bytes, unmeasured and uncached. */
  lemma UnlistedIsNotCached(env: Env, s: State, item: nat, n: nat)
    requires !s.halted && Cached(s.hobs, item).None?
    requires forall e <- CACHE :: e.item != item || e.item == UNRESOLVED
    ensures var s1 := LibSelect(env, s, item);
            && s1.trace == s.trace + [Select(item)] && s1.pos == s.pos && !s1.halted
            && s1.hobs == s.hobs && s1.makers == s.makers && s1.log == s.log && s1.room == s.room
            && var (s2, b) := LibRead(env, s1, n);
            && b == Answer(env.stream, s.pos, n) && s2.pos == s.pos + n && s2.trace == s1.trace + [Fetch(b)]
            && !s2.halted && s2.hobs == s.hobs && s2.log == s.log
  {
    hide Cached, Answer, ItemInCache, CACHE;
    NotListed(CACHE, item);
  }

  lemma NotListed(entries: seq<CacheEntry>, item: nat)
    requires forall e <- entries :: e.item != item || e.item == UNRESOLVED
    ensures ItemInCache(entries, item).None?
  {
  }

  // ----- a device that answers well

  /** What listed files there are from table entry `i` on have the size the table fixes, stay within its bound, and do not have
      the selector of the directory. */
  ghost predicate Fine(dir: bytes, i: nat)
    requires DirectorySound(dir) && i <= |CACHE|
  {
    forall t | i <= t < |CACHE| :: FineAt(dir, t)
  }

  predicate FineAt(dir: bytes, t: nat)
    requires DirectorySound(dir) && t < |CACHE|
  {
    var found := Lookup(dir, CACHE[t].file, 0);
    CACHE[t].item == UNRESOLVED && found.Some? ==>
      && found.value.0 != FILE_DIR && found.value.1 <= CACHE[t].max
      && (CACHE[t].size != 0 ==> found.value.1 == CACHE[t].size)
  }

  /** The room the blocks of these entries take. */
  function RoomFor(made: seq<CacheEntry>): nat {
    if made == [] then 0 else made[0].size + ITEM_HEADER + RoomFor(made[1..])
  }

  /** The blocks of these entries, read one behind the other. */
  function Filled(stream: Stream, pos: nat, made: seq<CacheEntry>): seq<Hob>
    decreases |made|
  {
    if made == [] then []
    else [Hob(made[0].item, Answer(stream, pos, made[0].size))] + Filled(stream, pos + made[0].size, made[1..])
  }

  /** Every measurement succeeds and every block is granted that there is room for. */
  ghost predicate Willing(env: Env) {
    forall n :: env.measures(n) && env.grants(n)
  }

  lemma ItemFills(env: Env, s: State, e: CacheEntry)
    requires !s.halted && e.item != FILE_DIR && e.size <= e.max && Willing(env) && s.room >= e.size + ITEM_HEADER
    ensures var (s', ok) := CacheItem(env, s, e);
            && ok && !s'.halted && s'.pos == s.pos + e.size && s'.room == s.room - e.size - ITEM_HEADER
            && s'.hobs == s.hobs + [Hob(e.item, Answer(env.stream, s.pos, e.size))]
  {
    if e.size == 0 {
      assert Answer(env.stream, s.pos, 0) == [];
    }
  }

  /** With room for the files it lists, a fine directory is resolved, and their blocks hold consecutive answers. */
  lemma {:induction false} ResolveFills(env: Env, s: State, dir: bytes, i: nat)
    requires !s.halted && i <= |CACHE| && Cached(s.hobs, FILE_DIR) == Some(dir) && DirectorySound(dir)
    requires Fine(dir, i) && Willing(env) && s.room >= RoomFor(Listed(dir, i, |CACHE|))
    ensures var (s', ok) := CacheResolve(env, s, i);
            ok && !s'.halted && s'.hobs == s.hobs + Filled(env.stream, s.pos, Listed(dir, i, |CACHE|))
    decreases |CACHE| - i
  {
    hide FindFile, CacheItem, Lookup, Cached, DirectorySound, Given, Fine, Willing, Answer;
    if i < |CACHE| {
      var entry := CACHE[i];
      var rest := Listed(dir, i + 1, |CACHE|);
      FineNext(dir, i);
      if entry.item != UNRESOLVED {
        GivenNothing(dir, i);
        ResolveFills(env, s, dir, i + 1);
      } else {
        FindFileLooksUp(env, s, dir, entry.file);
        var (s1, found) := FindFile(env, s, entry.file);
        GivenIs(dir, i);
        if found.None? {
          assert [] + rest == rest;
          ResolveFills(env, s1, dir, i + 1);
        } else {
          var e := entry.(item := found.value.0, size := found.value.1);
          FilledNext(env.stream, s.pos, e, rest);
          ItemFills(env, s1, e);
          var s2 := CacheItem(env, s1, e).0;
          CachedStable(s1.hobs, s2.hobs, FILE_DIR);
          ResolveFills(env, s2, dir, i + 1);
          var h := Hob(e.item, Answer(env.stream, s.pos, e.size));
          Assoc(s.hobs, [h], Filled(env.stream, s.pos + e.size, rest));
        }
      }
    }
  }

  lemma FineNext(dir: bytes, i: nat)
    requires DirectorySound(dir) && i < |CACHE| && Fine(dir, i)
    ensures FineAt(dir, i) && Fine(dir, i + 1)
  {
    hide FineAt, DirectorySound;
  }

  lemma FilledNext(stream: Stream, pos: nat, e: CacheEntry, rest: seq<CacheEntry>)
    ensures RoomFor([e] + rest) == e.size + ITEM_HEADER + RoomFor(rest)
    ensures Filled(stream, pos, [e] + rest) ==
              [Hob(e.item, Answer(stream, pos, e.size))] + Filled(stream, pos + e.size, rest)
  {
    assert ([e] + rest)[1..] == rest;
  }

  /** What the device says first: a count, and then a directory with that count stored in it. */
  predicate Offers(stream: Stream, pos: nat, dir: bytes) {
    && DirectorySound(dir)
    && Answer(stream, pos, 4) == dir[..4] && Answer(stream, pos + 4, |dir|) == dir
  }

  /** A device that offers a fine directory has it cached, with its files read one behind the other. */
  lemma DirectoryFills(env: Env, s: State, dir: bytes)
    requires !s.halted && Cached(s.hobs, FILE_DIR).None? && Willing(env) && Offers(env.stream, s.pos, dir) && Fine(dir, 0)
    requires s.room >= |dir| + ITEM_HEADER + RoomFor(Listed(dir, 0, |CACHE|))
    ensures var (s', ok) := SelectItem(env, s, FILE_DIR);
            && ok && Cached(s'.hobs, FILE_DIR) == Some(dir)
            && s'.hobs == s.hobs + [Hob(FILE_DIR, dir)]
                          + Filled(env.stream, s.pos + 4 + |dir|, Listed(dir, 0, |CACHE|))
  {
    hide CacheItem, SelectItem, DirectoryStored, CacheResolve, Cached, Fine, Willing, Listed, Filled, Offers, DirectorySound;
    var start := Reset(s);
    OffersSound(env.stream, s.pos, dir);
    StoredIs(env, start, dir);
    DirectoryRead(env, start);
    var s2 := DirectoryStored(env, start).0;
    ResolveFills(env, s2, dir, 0);
    SelectsDirectory(env, s);
    SelectCaches(env, s, FILE_DIR);
    CachedStable(s2.hobs, CacheResolve(env, s2, 0).0.hobs, FILE_DIR);
  }

  lemma OffersSound(stream: Stream, pos: nat, dir: bytes)
    requires Offers(stream, pos, dir)
    ensures DirectorySound(dir)
  {
  }

  lemma SelectsDirectory(env: Env, s: State)
    requires !s.halted && Cached(s.hobs, FILE_DIR).None?
    ensures var (s', ok) := CacheItem(env, Reset(s), CACHE[0]);
            ok && !s'.halted ==> SelectItem(env, s, FILE_DIR) == (s'.(area := WorkArea(FILE_DIR, 0, true)), true)
  {
    hide CacheItem, Cached;
    assert ItemInCache(CACHE, FILE_DIR) == Some(CACHE[0]);
  }

  lemma StoredIs(env: Env, s: State, dir: bytes)
    requires !s.halted && !s.area.reading && Willing(env) && Offers(env.stream, s.pos, dir)
    requires s.room >= |dir| + ITEM_HEADER
    ensures var (s', data) := DirectoryStored(env, s);
            data == Some(dir) && s'.pos == s.pos + 4 + |dir| && s'.room == s.room - |dir| - ITEM_HEADER
  {
    hide ItemSize, Answer, DirectorySound;
    SizeIs(env, s, dir);
    var s1 := ItemSize(env, s, CACHE[0]).0;
    assert env.grants(|dir| + ITEM_HEADER);
    OffersData(env.stream, s.pos, dir);
  }

  lemma OffersData(stream: Stream, pos: nat, dir: bytes)
    requires Offers(stream, pos, dir)
    ensures |dir| > 0 && Answer(stream, pos + 4, |dir|) == dir
  {
  }

  lemma SizeIs(env: Env, s: State, dir: bytes)
    requires !s.halted && !s.area.reading && Offers(env.stream, s.pos, dir)
    ensures ItemSize(env, s, CACHE[0]) == (DevRead(env, DevSelect(s, FILE_DIR), 4).0, Some(|dir|))
  {
    hide UnBe, Answer;
    assert Padded(Answer(env.stream, s.pos, 4), 4) == dir[..4];
  }
}
