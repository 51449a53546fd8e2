/** When the bytes served for a marked entry are the measured ones: exactly, over every run. */
module FwCfgMeasured {
  import opened Bytes
  import opened FwCfgDevice
  import opened FwCfgCache
  import opened FwCfgRuns
  import opened FwCfgDirectory
  import opened FwCfgHistory

  // ----- claims on a selector

  /** Entry `m` of the table is a file the directory lists with that selector and with data. */
  predicate Claims(dir: bytes, m: nat, item: nat)
    requires DirectorySound(dir) && m < |CACHE|
  {
    var found := Lookup(dir, CACHE[m].file, 0);
    CACHE[m].item == UNRESOLVED && found.Some? && found.value.0 == item && found.value.1 > 0
  }

  /** No entry of the table from number `i` to `n` claims the selector. */
  predicate Unclaimed(dir: bytes, i: nat, n: nat, item: nat)
    requires DirectorySound(dir) && i <= n <= |CACHE|
  {
    forall m | i <= m < n :: !Claims(dir, m, item)
  }

  lemma {:induction false} ListedQuiet(dir: bytes, i: nat, n: nat, item: nat)
    requires DirectorySound(dir) && i <= n <= |CACHE|
    ensures Quiet(Listed(dir, i, n), item) <==> Unclaimed(dir, i, n, item)
    decreases n - i
  {
    hide Given, DirectorySound, Quiet, Unclaimed, Claims;
    if i == n {
      NoneListed(dir, i, item);
    } else {
      ListedQuiet(dir, i + 1, n, item);
      UnclaimedNext(dir, i, n, item);
      QuietParts(Given(dir, i), Listed(dir, i + 1, n), item);
      GivenQuiet(dir, i, item);
    }
  }

  lemma GivenQuiet(dir: bytes, i: nat, item: nat)
    requires DirectorySound(dir) && i < |CACHE|
    ensures Quiet(Given(dir, i), item) <==> !Claims(dir, i, item)
  {
    hide Lookup, DirectorySound;
    if Given(dir, i) != [] {
      QuietOne(Given(dir, i)[0], item);
    }
  }

  lemma NoneListed(dir: bytes, i: nat, item: nat)
    requires DirectorySound(dir) && i <= |CACHE|
    ensures Quiet(Listed(dir, i, i), item) && Unclaimed(dir, i, i, item)
  {
  }

  lemma UnclaimedNext(dir: bytes, i: nat, n: nat, item: nat)
    requires DirectorySound(dir) && i < n <= |CACHE|
    ensures Unclaimed(dir, i, n, item) <==> !Claims(dir, i, item) && Unclaimed(dir, i + 1, n, item)
  {
    hide Claims, DirectorySound;
  }

  lemma QuietOne(e: CacheEntry, item: nat)
    ensures Quiet([e], item) <==> (e.item == item ==> e.size == 0)
  {
    assert [e][0] == e;
  }

  lemma {:induction false} ListedSplit(dir: bytes, i: nat, t: nat, n: nat)
    requires DirectorySound(dir) && i <= t <= n <= |CACHE|
    ensures Listed(dir, i, n) == Listed(dir, i, t) + Listed(dir, t, n)
    decreases t - i
  {
    hide Given, DirectorySound;
    if i < t {
      ListedSplit(dir, i + 1, t, n);
      Assoc(Given(dir, i), Listed(dir, i + 1, t), Listed(dir, t, n));
    }
  }

  // ----- names in the log

  predicate LogsAt(td: bool, makers: seq<CacheEntry>, hobs: seq<Hob>, m: nat, ev: Event)
    requires |makers| == |hobs|
  {
    m < |hobs| && td && makers[m].measure && ev == Event(makers[m].file, hobs[m].data)
  }

  lemma {:induction false} LoggedExactly(td: bool, makers: seq<CacheEntry>, hobs: seq<Hob>, ev: Event)
    requires |makers| == |hobs|
    ensures ev in Logged(td, makers, hobs) <==> exists m :: LogsAt(td, makers, hobs, m, ev)
    decreases |hobs|
  {
    if hobs != [] {
      var n := |hobs| - 1;
      LoggedExactly(td, makers[..n], hobs[..n], ev);
      if m: nat :| LogsAt(td, makers[..n], hobs[..n], m, ev) {
        assert LogsAt(td, makers, hobs, m, ev);
      }
      if m: nat :| LogsAt(td, makers, hobs, m, ev) {
        if m < n {
          assert LogsAt(td, makers[..n], hobs[..n], m, ev);
        }
      }
      if makers[n].measure && td && ev == Event(makers[n].file, hobs[n].data) {
        assert LogsAt(td, makers, hobs, n, ev);
      }
    }
  }

  /** No entry has that name. */
  ghost predicate Nameless(makers: seq<CacheEntry>, file: string) {
    forall m | 0 <= m < |makers| :: makers[m].file != file
  }

  lemma NamelessParts(a: seq<CacheEntry>, b: seq<CacheEntry>, file: string)
    requires Nameless(a, file) && Nameless(b, file)
    ensures Nameless(a + b, file)
  {
  }

  /** The only events under the name of an entry are those of its blocks; when it has one block, there is one. */
  lemma OneEvent(td: bool, s: State, j: nat, b: bytes)
    requires Sound(td, s) && j < |s.makers|
    requires Nameless(s.makers[..j], s.makers[j].file) && Nameless(s.makers[j + 1..], s.makers[j].file)
    ensures |s.makers| == |s.hobs|
    ensures Event(s.makers[j].file, b) in s.log <==> td && s.makers[j].measure && b == s.hobs[j].data
  {
    hide AllBorn, Logged;
    var ev := Event(s.makers[j].file, b);
    LoggedExactly(td, s.makers, s.hobs, ev);
    forall m | 0 <= m < |s.makers| && m != j ensures s.makers[m].file != s.makers[j].file {
      Elsewhere(s.makers, j, m);
    }
    if td && s.makers[j].measure && b == s.hobs[j].data {
      assert LogsAt(td, s.makers, s.hobs, j, ev);
    }
  }

  lemma Elsewhere(makers: seq<CacheEntry>, j: nat, m: nat)
    requires j < |makers| && m < |makers| && m != j
    requires Nameless(makers[..j], makers[j].file) && Nameless(makers[j + 1..], makers[j].file)
    ensures makers[m].file != makers[j].file
  {
    var other := if m < j then makers[..j][m] else makers[j + 1..][m - j - 1];
    assert other == makers[m];
  }

  lemma NoEvent(td: bool, s: State, file: string, b: bytes)
    requires Sound(td, s) && Nameless(s.makers, file)
    ensures Event(file, b) !in s.log
  {
    hide AllBorn, Logged;
    LoggedExactly(td, s.makers, s.hobs, Event(file, b));
  }

  lemma ListedNameless(dir: bytes, i: nat, n: nat, t: nat)
    requires DirectorySound(dir) && i <= n <= |CACHE| && t < |CACHE| && !(i <= t < n && CACHE[t].item == UNRESOLVED)
    ensures Nameless(Listed(dir, i, n), CACHE[t].file)
  {
    hide Lookup, DirectorySound, Listed;
    forall k | 0 <= k < |Listed(dir, i, n)| ensures Listed(dir, i, n)[k].file != CACHE[t].file {
      var m := ListedEntry(dir, i, n, k);
      if CACHE[m].file == CACHE[t].file {
        FilesDiffer(m, t);
      }
    }
  }

  lemma StaticNameless(makers: seq<CacheEntry>, t: nat)
    requires AllStatic(makers) && 2 < t < |CACHE|
    ensures Nameless(makers, CACHE[t].file) && CACHE[0].file != CACHE[t].file
  {
    forall m | 0 <= m < |makers| ensures makers[m].file != CACHE[t].file {
      assert makers[m] in makers;
      if makers[m] == CACHE[1] && makers[m].file == CACHE[t].file { FilesDiffer(1, t); }
      if makers[m] == CACHE[2] && makers[m].file == CACHE[t].file { FilesDiffer(2, t); }
    }
    if CACHE[0].file == CACHE[t].file { FilesDiffer(0, t); }
  }

  // ----- the files of the directory

  /** Where the block of table entry `t` is, once the directory is cached. */
  function Place(pre: seq<CacheEntry>, dir: bytes, t: nat): nat
    requires DirectorySound(dir) && t < |CACHE|
  {
    |pre| + 1 + |Listed(dir, 0, t)|
  }

  lemma PlacedParts(makers: seq<CacheEntry>, pre: seq<CacheEntry>, post: seq<CacheEntry>, dir: bytes, t: nat)
    requires DirectorySound(dir) && t < |CACHE| && CACHE[t].item == UNRESOLVED && Lookup(dir, CACHE[t].file, 0).Some?
    requires makers == pre + [CACHE[0]] + Listed(dir, 0, |CACHE|) + post
    ensures var (item, size) := Lookup(dir, CACHE[t].file, 0).value;
            var j := Place(pre, dir, t);
            && j < |makers| && makers[j] == CACHE[t].(item := item, size := size)
            && makers[..j] == pre + [CACHE[0]] + Listed(dir, 0, t)
            && makers[j + 1..] == Listed(dir, t + 1, |CACHE|) + post
  {
    hide Lookup, DirectorySound, Listed;
    var (item, size) := Lookup(dir, CACHE[t].file, 0).value;
    var e := CACHE[t].(item := item, size := size);
    ListedSplit(dir, 0, t, |CACHE|);
    ListedHead(dir, t);
    var a := pre + [CACHE[0]] + Listed(dir, 0, t);
    var b := Listed(dir, t + 1, |CACHE|) + post;
    assert makers == a + [e] + b;
  }

  lemma ListedHead(dir: bytes, t: nat)
    requires DirectorySound(dir) && t < |CACHE| && CACHE[t].item == UNRESOLVED && Lookup(dir, CACHE[t].file, 0).Some?
    ensures var (item, size) := Lookup(dir, CACHE[t].file, 0).value;
            Listed(dir, t, |CACHE|) == [CACHE[t].(item := item, size := size)] + Listed(dir, t + 1, |CACHE|)
  {
    hide Lookup, DirectorySound;
    assert Given(dir, t) + Listed(dir, t + 1, |CACHE|) == Listed(dir, t, |CACHE|);
  }

  lemma PlacedNames(pre: seq<CacheEntry>, post: seq<CacheEntry>, dir: bytes, t: nat)
    requires DirectorySound(dir) && 2 < t < |CACHE| && AllStatic(pre) && AllStatic(post)
    ensures Nameless(pre + [CACHE[0]] + Listed(dir, 0, t), CACHE[t].file)
    ensures Nameless(Listed(dir, t + 1, |CACHE|) + post, CACHE[t].file)
  {
    hide DirectorySound, Listed, AllStatic, Nameless;
    StaticNameless(pre, t);
    StaticNameless(post, t);
    ListedNameless(dir, 0, t, t);
    ListedNameless(dir, t + 1, |CACHE|, t);
    NamelessOne(CACHE[0], CACHE[t].file);
    NamelessParts(pre, [CACHE[0]], CACHE[t].file);
    NamelessParts(pre + [CACHE[0]], Listed(dir, 0, t), CACHE[t].file);
    NamelessParts(Listed(dir, t + 1, |CACHE|), post, CACHE[t].file);
  }

  lemma NamelessOne(e: CacheEntry, file: string)
    requires e.file != file
    ensures Nameless([e], file)
  {
  }

  lemma PlacedQuiet(pre: seq<CacheEntry>, dir: bytes, t: nat, item: nat)
    requires DirectorySound(dir) && t < |CACHE| && item != FILE_DIR
    ensures Quiet(pre + [CACHE[0]] + Listed(dir, 0, t), item) <==> Quiet(pre, item) && Unclaimed(dir, 0, t, item)
  {
    hide DirectorySound, Listed, Quiet, Unclaimed;
    ListedQuiet(dir, 0, t, item);
    QuietOne(CACHE[0], item);
    QuietParts(pre, [CACHE[0]], item);
    QuietParts(pre + [CACHE[0]], Listed(dir, 0, t), item);
  }

  /** The block of a listed file in a state with a history. */
  lemma PlacedBlock(td: bool, s: State, pre: seq<CacheEntry>, post: seq<CacheEntry>, dir: bytes, t: nat)
    requires Sound(td, s) && History(s, pre, post) && Cached(s.hobs, FILE_DIR) == Some(dir)
    requires t < |CACHE| && CACHE[t].item == UNRESOLVED
    requires DirectorySound(dir) && Lookup(dir, CACHE[t].file, 0).Some?
    ensures |s.makers| == |s.hobs|
    ensures var (item, size) := Lookup(dir, CACHE[t].file, 0).value;
            var j := Place(pre, dir, t);
            && j < |s.hobs| && s.makers[j] == CACHE[t].(item := item, size := size)
            && item != FILE_DIR && s.hobs[j].item == item && |s.hobs[j].data| == size
            && (size > 0 ==> (Serves(s.hobs, item, j) <==> Quiet(pre, item) && Unclaimed(dir, 0, t, item)))
            && (forall b :: Event(CACHE[t].file, b) in s.log <==> td && CACHE[t].measure && b == s.hobs[j].data)
  {
    hide Cached, DirectorySound, Lookup, Listed, Quiet, Unclaimed, Serves, Sound, AllStatic, Nameless, Place, FixedServe;
    SoundPairs(td, s);
    var (item, size) := Lookup(dir, CACHE[t].file, 0).value;
    var j := Place(pre, dir, t);
    PlacedParts(s.makers, pre, post, dir, t);
    AliasFree(dir, t);
    BlockSize(td, s, item, j);
    if size > 0 {
      ServesExactly(td, s, item, j);
    }
    PlacedQuiet(pre, dir, t, item);
    PlacedEvents(td, s, pre, post, dir, t);
  }

  lemma PlacedEvents(td: bool, s: State, pre: seq<CacheEntry>, post: seq<CacheEntry>, dir: bytes, t: nat)
    requires Sound(td, s) && |s.makers| == |s.hobs| && AllStatic(pre) && AllStatic(post)
    requires t < |CACHE| && CACHE[t].item == UNRESOLVED && DirectorySound(dir)
    requires var j := Place(pre, dir, t);
             && j < |s.makers| && s.makers[j].file == CACHE[t].file && s.makers[j].measure == CACHE[t].measure
             && s.makers[..j] == pre + [CACHE[0]] + Listed(dir, 0, t)
             && s.makers[j + 1..] == Listed(dir, t + 1, |CACHE|) + post
    ensures var j := Place(pre, dir, t);
            forall b :: Event(CACHE[t].file, b) in s.log <==> td && CACHE[t].measure && b == s.hobs[j].data
  {
    hide DirectorySound, Listed, Sound, AllStatic, Nameless, Place;
    var j := Place(pre, dir, t);
    TableFixed(t);
    PlacedNames(pre, post, dir, t);
    forall b: bytes ensures Event(CACHE[t].file, b) in s.log <==> td && CACHE[t].measure && b == s.hobs[j].data {
      OneEvent(td, s, j, b);
    }
  }

  /** Split a run from the start at the call that caches the directory. If the processor still runs, every listed file of the
      table has a block of its listed size; a marked one is measured once on a TD, with the bytes of that block, others never.
      Unless the file is empty, its selector is served from that block exactly when nothing was cached for the selector
      before that call and no earlier file of the table claims it; so what is served is what was measured under its name
      exactly then, or when the device gave the same bytes twice. */
  lemma MarkedFile(env: Env, s: State, before: seq<Op>, op: Op, after: seq<Op>, t: nat) returns (j: nat)
    requires Initial(s) && t < |CACHE| && CACHE[t].item == UNRESOLVED
    requires var s0 := Run(env, s, before).0;
             var s1 := Do(env, s0, op).0;
             && !s0.halted && Cached(s0.hobs, FILE_DIR).None? && !s1.halted && !Run(env, s1, after).0.halted
             && var dir := Cached(s1.hobs, FILE_DIR);
             && dir.Some? && DirectorySound(dir.value)
             && Lookup(dir.value, CACHE[t].file, 0).Some?
    ensures var s0 := Run(env, s, before).0;
            var s1 := Do(env, s0, op).0;
            var s2 := Run(env, s1, after).0;
            var dir := Cached(s1.hobs, FILE_DIR).value;
            var (item, size) := Lookup(dir, CACHE[t].file, 0).value;
            && |s2.makers| == |s2.hobs| && j < |s2.hobs| && s2.makers[j] == CACHE[t].(item := item, size := size)
            && s2.hobs[j].item == item && |s2.hobs[j].data| == size
            && (forall b :: Event(CACHE[t].file, b) in s2.log <==> env.td && CACHE[t].measure && b == s2.hobs[j].data)
            && (size > 0 ==>
                  && Cached(s2.hobs, item).Some?
                  && var served := Cached(s2.hobs, item).value;
                  var own := Cached(s0.hobs, item).None? && Unclaimed(dir, 0, t, item);
                  && (Serves(s2.hobs, item, j) <==> own)
                  && (env.td && CACHE[t].measure ==>
                        (Event(CACHE[t].file, served) in s2.log <==> own || served == s2.hobs[j].data)))
  {
    hide Run, Do, Cached, DirectorySound, Lookup, Sound, History, Quiet, Unclaimed, Serves, Place;
    var s0 := Run(env, s, before).0;
    var s1 := Do(env, s0, op).0;
    var s2 := Run(env, s1, after).0;
    var dir := Cached(s1.hobs, FILE_DIR).value;
    var item := Lookup(dir, CACHE[t].file, 0).value.0;
    var pre, post := FromStart(env, s, before);
    UncachedHistory(s0, pre, post);
    var pre1, post1 := DoHistory(env, s0, op, pre, post);
    DoKeeps(env, s0, op);
    RunKeeps(env, s1, after);
    CachedStable(s1.hobs, s2.hobs, FILE_DIR);
    var pre2, post2 := RunHistory(env, s1, after, pre1, post1);
    PlacedBlock(env.td, s2, pre2, post2, dir, t);
    UncachedExactly(env.td, s0, item);
    j := Place(pre2, dir, t);
    if s2.hobs[j].data != [] {
      HasData(s2.hobs, item, j);
    }
  }

  /** A run from the start is sound and has a history. */
  lemma FromStart(env: Env, s: State, ops: seq<Op>) returns (pre: seq<CacheEntry>, post: seq<CacheEntry>)
    requires Initial(s) && !Run(env, s, ops).0.halted
    ensures Sound(env.td, Run(env, s, ops).0) && History(Run(env, s, ops).0, pre, post)
  {
    hide Run, Sound, History;
    InitialSound(env.td, s);
    InitialHistory(s);
    RunKeeps(env, s, ops);
    pre, post := RunHistory(env, s, ops, [], []);
  }

  lemma UncachedHistory(s: State, pre: seq<CacheEntry>, post: seq<CacheEntry>)
    requires History(s, pre, post) && Cached(s.hobs, FILE_DIR).None?
    ensures s.makers == pre && post == []
  {
  }

  /** A block with data serves its selector, or another one does in front of it. */
  lemma HasData(hobs: seq<Hob>, item: nat, j: nat)
    requires j < |hobs| && hobs[j].item == item && hobs[j].data != []
    ensures Cached(hobs, item).Some?
    ensures Serves(hobs, item, j) ==> Cached(hobs, item) == Some(hobs[j].data)
  {
    hide Cached;
    if Cached(hobs, item).None? {
      NotCached(hobs, item, j);
    }
    if Serves(hobs, item, j) {
      ServedIsCached(hobs, item, j);
    }
  }

  // ----- the static items

  /** After any run, select a static item: what serves it is a block of its own, measured on a TD under its name, exactly when
      it had one before, or the directory is not cached yet, or none of the listed files of the table claims its selector.
      Otherwise it is served from the block of such a file and never measured under its own name. */
  lemma MarkedStatic(env: Env, s: State, before: seq<Op>, t: nat) returns (j: nat)
    requires Initial(s) && 1 <= t <= 2 && !Run(env, s, before).0.halted
    requires SelectItem(env, Run(env, s, before).0, CACHE[t].item).1
    ensures var s0 := Run(env, s, before).0;
            var s1 := SelectItem(env, s0, CACHE[t].item).0;
            var dir := Cached(s0.hobs, FILE_DIR);
            && |s1.makers| == |s1.hobs| && Serves(s1.hobs, CACHE[t].item, j)
            && (dir.Some? ==> DirectorySound(dir.value))
            && (s1.makers[j] == CACHE[t] <==>
                  CACHE[t] in s0.makers || (dir.Some? ==> Unclaimed(dir.value, 0, |CACHE|, CACHE[t].item)))
            && (forall b :: Event(CACHE[t].file, b) in s1.log <==>
                  env.td && s1.makers[j] == CACHE[t] && b == s1.hobs[j].data)
  {
    hide Run, SelectItem, Cached, DirectorySound, Sound, History, Quiet, Unclaimed, Serves, Listed;
    var s0 := Run(env, s, before).0;
    var item := CACHE[t].item;
    var s1 := SelectItem(env, s0, item).0;
    var pre, post := FromStart(env, s, before);
    SelectCaches(env, s0, item);
    SelectExtends(env, s0, item);
    SoundPairs(env.td, s1);
    j := CachedIsServed(s1.hobs, item);
    ServesInside(s1.hobs, item, j);
    var pre', post' := SelectHistory(env, s0, item, pre, post);
    StaticInside(env, s0, t, pre, post);
    StaticServes(s1, pre', post', t, j);
    UncachedExactly(env.td, s0, item);
    StaticQuiet(s0, pre, post, t);
    HistorySound(s0, pre, post);
    StaticEvents(env.td, s1, pre', post', t, j);
  }

  lemma HistorySound(s: State, pre: seq<CacheEntry>, post: seq<CacheEntry>)
    requires History(s, pre, post)
    ensures Cached(s.hobs, FILE_DIR).Some? ==> DirectorySound(Cached(s.hobs, FILE_DIR).value)
  {
  }

  lemma StaticItem(t: nat)
    requires 1 <= t <= 2
    ensures ItemInCache(CACHE, CACHE[t].item) == Some(CACHE[t])
  {
    hide ItemInCache;
    assert CACHE[0..] == CACHE;
    ItemNext(0, t);
    if t == 2 {
      ItemNext(1, t);
    }
    ItemHere(t);
  }

  lemma ItemNext(i: nat, t: nat)
    requires i < |CACHE| && t < |CACHE| && CACHE[i].item != CACHE[t].item
    ensures ItemInCache(CACHE[i..], CACHE[t].item) == ItemInCache(CACHE[i + 1..], CACHE[t].item)
  {
    assert CACHE[i..][1..] == CACHE[i + 1..];
  }

  lemma ItemHere(t: nat)
    requires t < |CACHE| && CACHE[t].item != UNRESOLVED
    ensures ItemInCache(CACHE[t..], CACHE[t].item) == Some(CACHE[t])
  {
    assert CACHE[t..][0] == CACHE[t];
  }

  lemma SelectCached(env: Env, s: State, item: nat)
    requires Cached(s.hobs, item).Some?
    ensures SelectItem(env, s, item).0.makers == s.makers
  {
    hide Cached;
  }

  /** Selecting a static item makes a block for it exactly when its selector is not cached. */
  lemma StaticInside(env: Env, s: State, t: nat, pre: seq<CacheEntry>, post: seq<CacheEntry>)
    requires !s.halted && 1 <= t <= 2 && History(s, pre, post) && SelectItem(env, s, CACHE[t].item).1
    ensures var s' := SelectItem(env, s, CACHE[t].item).0;
            s'.makers == if Cached(s.hobs, CACHE[t].item).None? then s.makers + [CACHE[t]] else s.makers
  {
    hide Cached, SelectItem, ItemInCache, History;
    if Cached(s.hobs, CACHE[t].item).None? {
      var pre', post' := StaticSelect(env, s, CACHE[t].item, pre, post);
      StaticItem(t);
    } else {
      SelectCached(env, s, CACHE[t].item);
    }
  }

  /** The block of a static item, once there is one, serves it. */
  lemma StaticServes(s: State, pre: seq<CacheEntry>, post: seq<CacheEntry>, t: nat, j: nat)
    requires History(s, pre, post) && 1 <= t <= 2 && Serves(s.hobs, CACHE[t].item, j)
    ensures j < |s.makers| == |s.hobs| && (s.makers[j] == CACHE[t] <==> CACHE[t] in s.makers)
  {
    hide Cached, DirectorySound, Listed, NoAlias, Serves;
    ServesInside(s.hobs, CACHE[t].item, j);
    if CACHE[t] in s.makers {
      var k: nat :| k < |s.makers| && s.makers[k] == CACHE[t];
      OneServes(s.hobs, CACHE[t].item, j, k);
    }
  }

  /** Its selector is free of data unless it was selected before or a listed file claims it. */
  lemma StaticQuiet(s: State, pre: seq<CacheEntry>, post: seq<CacheEntry>, t: nat)
    requires History(s, pre, post) && 1 <= t <= 2
    ensures var dir := Cached(s.hobs, FILE_DIR);
            && (dir.Some? ==> DirectorySound(dir.value))
            && (Quiet(s.makers, CACHE[t].item) <==>
                  CACHE[t] !in s.makers && (dir.Some? ==> Unclaimed(dir.value, 0, |CACHE|, CACHE[t].item)))
  {
    hide Cached, DirectorySound, NoAlias, FixedServe, Quiet, Unclaimed, Listed, AllStatic;
    var item := CACHE[t].item;
    OtherStatic(pre, t);
    OtherStatic(post, t);
    var dir := Cached(s.hobs, FILE_DIR);
    if dir.Some? {
      ListedQuiet(dir.value, 0, |CACHE|, item);
      QuietOne(CACHE[0], item);
      var made := Listed(dir.value, 0, |CACHE|);
      QuietParts(pre, [CACHE[0]], item);
      QuietParts(pre + [CACHE[0]], made, item);
      QuietParts(pre + [CACHE[0]] + made, post, item);
      if CACHE[t] in made { ListedNotFixed(dir.value, CACHE[t]); }
    }
  }

  lemma OtherStatic(makers: seq<CacheEntry>, t: nat)
    requires AllStatic(makers) && 1 <= t <= 2
    ensures Quiet(makers, CACHE[t].item) <==> CACHE[t] !in makers
  {
    forall m | 0 <= m < |makers| ensures makers[m].size == 4 && (makers[m].item == CACHE[t].item <==> makers[m] == CACHE[t]) {
      assert makers[m] in makers;
    }
    if CACHE[t] in makers {
      var m: nat :| m < |makers| && makers[m] == CACHE[t];
    }
  }

  lemma StaticEvents(td: bool, s: State, pre: seq<CacheEntry>, post: seq<CacheEntry>, t: nat, j: nat)
    requires Sound(td, s) && History(s, pre, post) && 1 <= t <= 2 && Serves(s.hobs, CACHE[t].item, j)
    ensures j < |s.makers| == |s.hobs|
    ensures forall b :: Event(CACHE[t].file, b) in s.log <==> td && s.makers[j] == CACHE[t] && b == s.hobs[j].data
  {
    hide Cached, DirectorySound, Listed, NoAlias, Serves, Sound;
    SoundPairs(td, s);
    ServesInside(s.hobs, CACHE[t].item, j);
    var file := CACHE[t].file;
    forall k | 0 <= k < |s.makers| && k != j ensures s.makers[k].file != file {
      if s.makers[k].file == file {
        StaticNamed(s, pre, post, t, k);
        OneServes(s.hobs, CACHE[t].item, j, k);
      }
    }
    if s.makers[j].file == file {
      StaticNamed(s, pre, post, t, j);
      forall b: bytes ensures Event(file, b) in s.log <==> td && b == s.hobs[j].data {
        OneEvent(td, s, j, b);
      }
    } else {
      forall b: bytes ensures Event(file, b) !in s.log {
        NoEvent(td, s, file, b);
      }
    }
  }

  /** What has the name of a static item was made for it. */
  lemma StaticNamed(s: State, pre: seq<CacheEntry>, post: seq<CacheEntry>, t: nat, k: nat)
    requires History(s, pre, post) && 1 <= t <= 2 && k < |s.makers| && s.makers[k].file == CACHE[t].file
    ensures |s.makers| == |s.hobs| && s.makers[k] == CACHE[t] && Serves(s.hobs, CACHE[t].item, k)
  {
    hide Cached, DirectorySound, Listed, NoAlias, Serves;
    FilesDiffer(1, 1);
    if Static(s.makers[k]) {
      if s.makers[k] == CACHE[1] { FilesDiffer(1, t); } else { FilesDiffer(2, t); }
    } else if s.makers[k] == CACHE[0] {
      FilesDiffer(0, t);
    } else {
      var dir := Cached(s.hobs, FILE_DIR).value;
      ListedNameless(dir, 0, |CACHE|, t);
    }
  }
}
