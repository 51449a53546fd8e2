/** Which blocks a run makes, which of them serves an item, and whether its bytes are the measured ones. */
module FwCfgHistory {
  import opened Bytes
  import opened FwCfgDevice
  import opened FwCfgCache
  import opened FwCfgRuns
  import opened FwCfgDirectory

  /** The items the table gives a selector, besides the directory. */
  predicate Static(e: CacheEntry) {
    e == CACHE[1] || e == CACHE[2]
  }

  /** Blocks made for an entry with a selector of its own serve that selector. */
  ghost predicate FixedServe(s: State)
    requires |s.makers| == |s.hobs|
  {
    forall j | 0 <= j < |s.makers| && (Static(s.makers[j]) || s.makers[j] == CACHE[0]) ::
      Serves(s.hobs, s.makers[j].item, j)
  }

  ghost predicate AllStatic(makers: seq<CacheEntry>) {
    forall e <- makers :: Static(e)
  }

  /** The blocks of a run: some for static items, then, once the directory is cached, one for it and one for each file of the
      table it lists, in order, and again some for static items. */
  ghost predicate History(s: State, pre: seq<CacheEntry>, post: seq<CacheEntry>) {
    && |s.makers| == |s.hobs| && FixedServe(s) && AllStatic(pre) && AllStatic(post)
    && var dir := Cached(s.hobs, FILE_DIR);
    if dir.None? then s.makers == pre && post == []
    else
      && DirectorySound(dir.value) && NoAlias(dir.value)
      && s.makers == pre + [CACHE[0]] + Listed(dir.value, 0, |CACHE|) + post
  }

  lemma SameHistory(s: State, s': State, pre: seq<CacheEntry>, post: seq<CacheEntry>)
    requires History(s, pre, post) && SameBlocks(s, s')
    ensures History(s', pre, post)
  {
  }

  lemma InitialHistory(s: State)
    requires Initial(s)
    ensures History(s, [], [])
  {
  }

  // ----- serving under growth

  lemma ServesStays(hobs: seq<Hob>, hobs': seq<Hob>, item: nat, j: nat)
    requires Serves(hobs, item, j) && hobs <= hobs'
    ensures Serves(hobs', item, j)
  {
  }

  lemma LastServes(hobs: seq<Hob>, h: Hob)
    requires Cached(hobs, h.item).None? && h.data != []
    ensures Serves(hobs + [h], h.item, |hobs|)
  {
    hide Cached;
    forall m | 0 <= m < |hobs| && hobs[m].item == h.item ensures hobs[m].data == [] {
      NotCached(hobs, h.item, m);
    }
  }

  lemma {:induction false} NotCached(hobs: seq<Hob>, item: nat, m: nat)
    requires Cached(hobs, item).None? && m < |hobs| && hobs[m].item == item
    ensures hobs[m].data == []
  {
    if m > 0 {
      NotCached(hobs[1..], item, m - 1);
    }
  }

  // ----- the entries a directory lists

  lemma {:induction false} ListedEntry(dir: bytes, i: nat, n: nat, k: nat) returns (t: nat)
    requires DirectorySound(dir) && i <= n <= |CACHE| && k < |Listed(dir, i, n)|
    ensures i <= t < n && CACHE[t].item == UNRESOLVED
    ensures var found := Lookup(dir, CACHE[t].file, 0);
            found.Some? && Listed(dir, i, n)[k] == CACHE[t].(item := found.value.0, size := found.value.1)
    decreases n - i
  {
    hide Lookup, DirectorySound;
    var listed := CACHE[i].item == UNRESOLVED && Lookup(dir, CACHE[i].file, 0).Some?;
    if listed && k == 0 {
      t := i;
    } else {
      t := ListedEntry(dir, i + 1, n, if listed then k - 1 else k);
    }
  }

  /** The names in the table differ. */
  lemma FilesDiffer(a: nat, b: nat)
    requires a < |CACHE| && b < |CACHE| && CACHE[a].file == CACHE[b].file
    ensures a == b
  {
    var sizes: seq<nat> := [7, 9, 16, 8, 17, 19, 23, 22];
    assert |CACHE[a].file| == sizes[a] && |CACHE[b].file| == sizes[b];
  }

  lemma ListedNotFixed(dir: bytes, e: CacheEntry)
    requires DirectorySound(dir) && e in Listed(dir, 0, |CACHE|)
    ensures !Static(e) && e != CACHE[0]
  {
    hide Lookup, DirectorySound, Listed;
    var k: nat :| k < |Listed(dir, 0, |CACHE|)| && Listed(dir, 0, |CACHE|)[k] == e;
    var t := ListedEntry(dir, 0, |CACHE|, k);
    TableFixed(t);
    if e.file == CACHE[0].file { FilesDiffer(t, 0); }
    if e.file == CACHE[1].file { FilesDiffer(t, 1); }
    if e.file == CACHE[2].file { FilesDiffer(t, 2); }
  }

  lemma TableFixed(t: nat)
    requires t < |CACHE|
    ensures CACHE[t].item == UNRESOLVED <==> t > 2
  {
  }

  // ----- one select

  lemma StaticSelect(env: Env, s: State, item: nat, pre: seq<CacheEntry>, post: seq<CacheEntry>)
      returns (pre': seq<CacheEntry>, post': seq<CacheEntry>)
    requires !s.halted && History(s, pre, post) && item != FILE_DIR && Cached(s.hobs, item).None?
    requires SelectItem(env, s, item).1
    ensures var s' := SelectItem(env, s, item).0;
            && History(s', pre', post') && (Cached(s'.hobs, FILE_DIR).Some? ==> pre' == pre)
            && ItemInCache(CACHE, item).Some? && s'.makers == s.makers + [ItemInCache(CACHE, item).value]
  {
    hide Cached, CacheItem, ItemInCache, History, Serves, FixedServe;
    var e := ItemInCache(CACHE, item).value;
    StaticEntry(e);
    var s1 := CacheItem(env, Reset(s), e).0;
    var h := StaticBlock(env, Reset(s), e);
    pre', post' := StaticHistory(s, s1, e, h, pre, post);
    SameHistory(s1, SelectItem(env, s, item).0, pre', post');
  }

  lemma StaticEntry(e: CacheEntry)
    requires e in CACHE && e.item != UNRESOLVED && e.item != FILE_DIR
    ensures Static(e) && e.size == 4
  {
  }

  lemma StaticBlock(env: Env, s: State, e: CacheEntry) returns (h: Hob)
    requires !s.halted && e.item != FILE_DIR && CacheItem(env, s, e).1
    ensures h.item == e.item && |h.data| == e.size
    ensures var s' := CacheItem(env, s, e).0; s'.hobs == s.hobs + [h] && s'.makers == s.makers + [e]
  {
    hide Answer, CacheResolve;
    h := CacheItem(env, s, e).0.hobs[|s.hobs|];
  }

  lemma StaticHistory(s: State, s': State, e: CacheEntry, h: Hob, pre: seq<CacheEntry>, post: seq<CacheEntry>)
      returns (pre': seq<CacheEntry>, post': seq<CacheEntry>)
    requires History(s, pre, post) && Static(e) && h.item == e.item && h.data != []
    requires Cached(s.hobs, e.item).None? && s'.hobs == s.hobs + [h] && s'.makers == s.makers + [e]
    ensures History(s', pre', post') && (Cached(s'.hobs, FILE_DIR).Some? ==> pre' == pre)
  {
    hide Cached, DirectorySound, NoAlias, Listed, Serves;
    CachedLast(s.hobs, h, FILE_DIR);
    forall j | 0 <= j < |s'.makers| && (Static(s'.makers[j]) || s'.makers[j] == CACHE[0])
      ensures Serves(s'.hobs, s'.makers[j].item, j)
    {
      if j < |s.makers| {
        ServesStays(s.hobs, s'.hobs, s.makers[j].item, j);
      } else {
        LastServes(s.hobs, h);
      }
    }
    if Cached(s.hobs, FILE_DIR).None? {
      pre', post' := pre + [e], [];
    } else {
      pre', post' := pre, post + [e];
    }
  }

  lemma DirectoryHistory(env: Env, s: State, pre: seq<CacheEntry>, post: seq<CacheEntry>)
    requires !s.halted && History(s, pre, post) && Cached(s.hobs, FILE_DIR).None? && SelectItem(env, s, FILE_DIR).1
    ensures History(SelectItem(env, s, FILE_DIR).0, pre, [])
  {
    hide Cached, DirectorySound, NoAlias, Listed, Serves, SelectItem, FixedServe;
    DirectoryCachedOnce(env, s);
    SelectExtends(env, s, FILE_DIR);
    var s' := SelectItem(env, s, FILE_DIR).0;
    var dir := Cached(s'.hobs, FILE_DIR).value;
    DirectoryServes(s, s', dir);
    assert s'.makers == pre + [CACHE[0]] + Listed(dir, 0, |CACHE|) + [];
  }

  lemma DirectoryServes(s: State, s': State, dir: bytes)
    requires |s.makers| == |s.hobs| && FixedServe(s) && |s'.makers| == |s'.hobs| && Grows(s, s')
    requires DirectorySound(dir) && s'.makers == s.makers + [CACHE[0]] + Listed(dir, 0, |CACHE|)
    requires Cached(s.hobs, FILE_DIR).None? && s'.hobs[|s.hobs|] == Hob(FILE_DIR, dir)
    ensures FixedServe(s')
  {
    hide Cached, DirectorySound, Listed, Serves;
    var n := |s.hobs|;
    forall j | 0 <= j < |s'.makers| && (Static(s'.makers[j]) || s'.makers[j] == CACHE[0])
      ensures Serves(s'.hobs, s'.makers[j].item, j)
    {
      if j < n {
        ServesStays(s.hobs, s'.hobs, s.makers[j].item, j);
      } else if j == n {
        SoundHasData(dir);
        LastServes(s.hobs, s'.hobs[n]);
        assert s.hobs + [s'.hobs[n]] == s'.hobs[..n + 1];
        ServesStays(s'.hobs[..n + 1], s'.hobs, FILE_DIR, n);
      } else {
        ListedNotFixed(dir, s'.makers[j]);
      }
    }
  }

  lemma SoundHasData(dir: bytes)
    requires DirectorySound(dir)
    ensures dir != []
  {
  }

  // ----- every run

  lemma SelectHistory(env: Env, s: State, item: nat, pre: seq<CacheEntry>, post: seq<CacheEntry>)
      returns (pre': seq<CacheEntry>, post': seq<CacheEntry>)
    requires !s.halted && History(s, pre, post) && !SelectItem(env, s, item).0.halted
    ensures var s' := SelectItem(env, s, item).0;
            History(s', pre', post') && (Cached(s'.hobs, FILE_DIR).Some? ==> pre' == pre)
  {
    hide Cached, CacheItem, History;
    pre', post' := pre, post;
    if Cached(s.hobs, item).Some? || ItemInCache(CACHE, item).None? {
      SameHistory(s, SelectItem(env, s, item).0, pre, post);
    } else if item == FILE_DIR {
      post' := [];
      DirectoryHistory(env, s, pre, post);
    } else {
      pre', post' := StaticSelect(env, s, item, pre, post);
    }
  }

  lemma LibSelectHistory(env: Env, s: State, item: nat, pre: seq<CacheEntry>, post: seq<CacheEntry>)
      returns (pre': seq<CacheEntry>, post': seq<CacheEntry>)
    requires !s.halted && History(s, pre, post) && !LibSelect(env, s, item).halted
    ensures var s' := LibSelect(env, s, item);
            History(s', pre', post') && (Cached(s'.hobs, FILE_DIR).Some? ==> pre' == pre)
  {
    hide Cached, SelectItem, History;
    pre', post' := SelectHistory(env, s, item, pre, post);
    SameHistory(SelectItem(env, s, item).0, LibSelect(env, s, item), pre', post');
  }

  lemma FindHistory(env: Env, s: State, name: string, pre: seq<CacheEntry>, post: seq<CacheEntry>)
      returns (pre': seq<CacheEntry>, post': seq<CacheEntry>)
    requires !s.halted && History(s, pre, post) && !FindFile(env, s, name).0.halted
    ensures var s' := FindFile(env, s, name).0;
            History(s', pre', post') && (Cached(s'.hobs, FILE_DIR).Some? ==> pre' == pre)
  {
    hide Cached, LibSelect, LibRead, FindFrom, UnBe, Padded, History;
    pre', post' := LibSelectHistory(env, s, FILE_DIR, pre, post);
    var s1 := LibSelect(env, s, FILE_DIR);
    LibReadGrows(env, s1, 4);
    var (s2, count) := LibRead(env, s1, 4);
    FindFromGrows(env, s2, name, UnBe(Padded(count, 4)), 0);
    SameHistory(s1, FindFile(env, s, name).0, pre', post');
  }

  lemma DoHistory(env: Env, s: State, op: Op, pre: seq<CacheEntry>, post: seq<CacheEntry>)
      returns (pre': seq<CacheEntry>, post': seq<CacheEntry>)
    requires !s.halted && History(s, pre, post) && !Do(env, s, op).0.halted
    ensures var s' := Do(env, s, op).0;
            History(s', pre', post') && (Cached(s'.hobs, FILE_DIR).Some? ==> pre' == pre)
  {
    hide Cached, SelectItem, LibSelect, LibRead, CacheRead, FindFile, History;
    pre', post' := pre, post;
    match op
    case SelectOp(item) => pre', post' := SelectHistory(env, s, item, pre, post);
    case ReadOp(n) =>
      CacheReadGrows(s, n);
      SameHistory(s, CacheRead(s, n).0, pre, post);
    case ResetOp => SameHistory(s, Reset(s), pre, post);
    case LibSelectOp(item) => pre', post' := LibSelectHistory(env, s, item, pre, post);
    case LibReadOp(n) =>
      LibReadGrows(env, s, n);
      SameHistory(s, LibRead(env, s, n).0, pre, post);
    case FindOp(name) => pre', post' := FindHistory(env, s, name, pre, post);
  }

  /** As long as the processor runs, whatever was called: the directory and every static item were cached at most once, the
      blocks made with the directory are exactly those of the files of the table it lists, in order, and what was cached
      before it stays as it was. */
  lemma {:induction false} RunHistory(env: Env, s: State, ops: seq<Op>, pre: seq<CacheEntry>, post: seq<CacheEntry>)
      returns (pre': seq<CacheEntry>, post': seq<CacheEntry>)
    requires !s.halted && History(s, pre, post) && !Run(env, s, ops).0.halted
    ensures History(Run(env, s, ops).0, pre', post') && (Cached(s.hobs, FILE_DIR).Some? ==> pre' == pre)
  {
    hide Do, History, Cached;
    pre', post' := pre, post;
    var n := |ops|;
    if n > 0 {
      var before := Run(env, s, ops[..n - 1]).0;
      DoStaysHalted(env, before, ops[n - 1]);
      pre', post' := RunHistory(env, s, ops[..n - 1], pre, post);
      RunKeeps(env, s, ops[..n - 1]);
      DoKeeps(env, before, ops[n - 1]);
      if Cached(s.hobs, FILE_DIR).Some? {
        CachedStable(s.hobs, before.hobs, FILE_DIR);
        CachedStable(before.hobs, Do(env, before, ops[n - 1]).0.hobs, FILE_DIR);
      }
      pre', post' := DoHistory(env, before, ops[n - 1], pre', post');
    }
  }

  // ----- which block comes first

  /** None of these entries has the selector and any data. */
  predicate Quiet(makers: seq<CacheEntry>, item: nat) {
    forall m | 0 <= m < |makers| && makers[m].item == item :: makers[m].size == 0
  }

  lemma QuietParts(a: seq<CacheEntry>, b: seq<CacheEntry>, item: nat)
    ensures Quiet(a + b, item) <==> Quiet(a, item) && Quiet(b, item)
  {
    forall m | 0 <= m < |a| ensures (a + b)[m] == a[m] {}
    forall m | 0 <= m < |b| ensures (a + b)[|a| + m] == b[m] {}
  }

  /** The sizes of the blocks are those of their entries. */
  lemma BlockSize(td: bool, s: State, item: nat, m: nat)
    requires Sound(td, s) && item != FILE_DIR && m < |s.hobs|
    ensures s.hobs[m].item == s.makers[m].item && (s.hobs[m].item == item ==> |s.hobs[m].data| == s.makers[m].size)
  {
    hide ReadOnce, Known, DirectorySound;
    assert Born(td, s.makers[m], s.hobs[m], s.trace, s.log);
  }

  /** A block serves its item exactly when it has data and nothing in front of it has that selector and data. */
  lemma ServesExactly(td: bool, s: State, item: nat, j: nat)
    requires Sound(td, s) && item != FILE_DIR && j < |s.hobs| && s.makers[j].item == item && s.makers[j].size > 0
    ensures Serves(s.hobs, item, j) <==> Quiet(s.makers[..j], item)
  {
    hide Sound;
    assert |s.makers| == |s.hobs| by { SoundPairs(td, s); }
    forall m: nat | m <= j
      ensures s.hobs[m].item == s.makers[m].item && (s.hobs[m].item == item ==> |s.hobs[m].data| == s.makers[m].size)
    {
      BlockSize(td, s, item, m);
    }
    forall m | 0 <= m < j ensures s.makers[..j][m] == s.makers[m] {}
  }

  lemma SoundPairs(td: bool, s: State)
    requires Sound(td, s)
    ensures |s.makers| == |s.hobs|
  {
  }

  lemma UncachedExactly(td: bool, s: State, item: nat)
    requires Sound(td, s) && item != FILE_DIR
    ensures Cached(s.hobs, item).None? <==> Quiet(s.makers, item)
  {
    hide Sound, Cached;
    SoundPairs(td, s);
    forall m: nat | m < |s.hobs|
      ensures s.hobs[m].item == s.makers[m].item && (s.hobs[m].item == item ==> |s.hobs[m].data| == s.makers[m].size)
    {
      BlockSize(td, s, item, m);
    }
    if Cached(s.hobs, item).Some? {
      var j := CachedIsServed(s.hobs, item);
      assert s.hobs[j].data != [] && s.makers[j].size != 0;
    } else {
      forall m | 0 <= m < |s.makers| && s.makers[m].item == item ensures s.makers[m].size == 0 {
        NotCached(s.hobs, item, m);
      }
    }
  }
}
