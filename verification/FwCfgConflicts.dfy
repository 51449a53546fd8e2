/** Two devices whose directory lets one item be served from the block of another: what is served was never measured, or was
    not what was measured. */
module FwCfgConflicts {
  import opened Bytes
  import opened FwCfgDevice
  import opened FwCfgCache
  import opened FwCfgRuns
  import opened FwCfgDirectory
  import opened FwCfgHistory

  // ----- directories spelled out

  predicate Plain(name: string) {
    |name| <= 56 && forall k | 0 <= k < |name| :: 0 < name[k] as int < 256
  }

  lemma PlainFits(name: string)
    requires Plain(name)
    ensures |name| <= 56
  {
  }

  /** `n` bytes for a name, padded with zeros. */
  function Field(name: string, n: nat): (b: bytes)
    ensures |b| == n
    decreases n
  {
    if name == "" || n == 0 then Zeros(n) else [name[0] as int % 256] + Field(name[1..], n - 1)
  }

  lemma {:induction false} FieldReads(name: string, n: nat)
    requires Plain(name) && |name| <= n
    ensures CString(Field(name, n)) == name
  {
    if name != "" {
      FieldReads(name[1..], n - 1);
      assert Field(name, n)[1..] == Field(name[1..], n - 1);
    }
  }

  function DirEntry(size: byte, select: byte, name: string): (b: bytes)
    ensures |b| == 64
  {
    [0, 0, 0, size] + [0, select] + [0, 0] + Field(name, 56)
  }

  lemma UnBe4(n: byte)
    ensures UnBe([0, 0, 0, n]) == n && UnBe([0, n]) == n
  {
    hide UnBe;
    UnBeLast([], 0);
    UnBeLast([0], 0);
    UnBeLast([0, 0], 0);
    UnBeLast([0, 0, 0], n);
    UnBeLast([0], n);
    assert [] + [0] == [0] && [0] + [0] == [0, 0] && [0, 0] + [0] == [0, 0, 0];
    assert [0, 0, 0] + [n] == [0, 0, 0, n] && [0] + [n] == [0, n];
    UnBeNothing();
  }

  lemma UnBeNothing()
    ensures UnBe([]) == 0
  {
  }

  lemma UnBeLast(b: bytes, n: byte)
    ensures UnBe(b + [n]) == UnBe(b) * 256 + n
  {
    assert (b + [n])[..|b|] == b;
  }

  /** An entry of a directory that is spelled so. */
  predicate SpelledAt(dir: bytes, i: nat, size: byte, select: byte, name: string) {
    && Plain(name)
    && |dir| >= 4 + 64 * i + 64
    && dir[4 + 64 * i..4 + 64 * i + 64] == DirEntry(size, select, name)
  }

  lemma EntryReads(dir: bytes, i: nat, size: byte, select: byte, name: string)
    requires SpelledAt(dir, i, size, select, name)
    ensures var at := 4 + 64 * i;
            && CString(dir[at + 8..at + 64]) == name
            && UnBe(dir[at + 4..at + 6]) == select && UnBe(dir[at..at + 4]) == size
  {
    hide CString, UnBe, Plain, Field;
    var at := 4 + 64 * i;
    var e := dir[at..at + 64];
    assert |name| <= 56 by { PlainFits(name); }
    FieldReads(name, 56);
    UnBe4(size);
    UnBe4(select);
    assert e[8..] == Field(name, 56) && dir[at + 8..at + 64] == e[8..];
    assert e[4..6] == [0, select] && dir[at + 4..at + 6] == e[4..6];
    assert e[..4] == [0, 0, 0, size] && dir[at..at + 4] == e[..4];
  }

  /** Looking a name up, one spelled entry further. */
  lemma LookupNext(dir: bytes, i: nat, size: byte, select: byte, name: string, wanted: string)
    requires DirectorySound(dir) && i < UnBe(dir[..4]) && SpelledAt(dir, i, size, select, name)
    ensures Lookup(dir, wanted, i) ==
      if name == wanted then Some((select as nat, size as nat)) else Lookup(dir, wanted, i + 1)
  {
    hide CString, UnBe, SpelledAt;
    EntryReads(dir, i, size, select, name);
  }

  lemma LookupEnd(dir: bytes, wanted: string)
    requires DirectorySound(dir)
    ensures Lookup(dir, wanted, UnBe(dir[..4])) == None
  {
    hide UnBe;
  }

  // ----- devices spelled out

  /** A device that gives the count, the directory, and then the contents of its files. */
  function Says(dir: bytes, rest: bytes): Stream
    requires |dir| >= 4
  {
    (p: nat) => if p < 4 then dir[p] else if p - 4 < |dir + rest| then (dir + rest)[p - 4] else 0
  }

  lemma SaysOffers(dir: bytes, rest: bytes)
    requires DirectorySound(dir)
    ensures Offers(Says(dir, rest), 0, dir)
  {
    hide UnBe;
    assert Answer(Says(dir, rest), 0, 4) == dir[..4];
    assert Answer(Says(dir, rest), 4, |dir|) == dir;
  }

  lemma SaysThen(dir: bytes, rest: bytes, at: nat, n: nat)
    requires DirectorySound(dir) && at + n <= |rest|
    ensures Answer(Says(dir, rest), 4 + |dir| + at, n) == rest[at..at + n]
  {
  }

  function Start(): (s: State)
    ensures Initial(s)
  {
    State([], [], WorkArea(UNRESOLVED, 0, false), 0, [], [], 0x1000, false)
  }

  function TdWith(dir: bytes, rest: bytes): (env: Env)
    requires |dir| >= 4
    ensures Willing(env) && env.td && env.stream == Says(dir, rest)
  {
    Env(Says(dir, rest), true, _ => true, _ => true)
  }

  lemma PlainE820()
    ensures Plain(CACHE[3].file)
  {
    assert CACHE[3].file == "etc/e820";
  }

  lemma PlainMemoryEnd()
    ensures Plain(CACHE[6].file)
  {
    assert CACHE[6].file == "etc/reserved-memory-end";
  }

  // ----- a file with the selector of the signature

  /** One file, 4 bytes of the unmarked "etc/e820", under this selector. */
  function E820Dir(select: byte): bytes {
    [0, 0, 0, 1] + DirEntry(4, select, CACHE[3].file)
  }

  lemma E820DirIs(select: byte)
    ensures DirectorySound(E820Dir(select)) && UnBe(E820Dir(select)[..4]) == 1 && |E820Dir(select)| == 68
    ensures SpelledAt(E820Dir(select), 0, 4, select, CACHE[3].file)
  {
    hide UnBe, DirEntry, Plain;
    PlainE820();
    UnBe4(1);
    var e := DirEntry(4, select, CACHE[3].file);
    assert ([0, 0, 0, 1] + e)[..4] == [0, 0, 0, 1] && ([0, 0, 0, 1] + e)[4..68] == e;
  }

  lemma E820Lookup(select: byte, name: string)
    ensures DirectorySound(E820Dir(select))
    ensures Lookup(E820Dir(select), name, 0) == if name == CACHE[3].file then Some((select as nat, 4)) else None
  {
    hide E820Dir, SpelledAt, DirectorySound, Lookup, UnBe;
    var dir := E820Dir(select);
    E820DirIs(select);
    LookupEnd(dir, name);
    LookupNext(dir, 0, 4, select, CACHE[3].file, name);
  }

  /** The directory whose only file has the selector of the signature. */
  function SignatureDir(): bytes {
    E820Dir(SIGNATURE)
  }

  function SignatureFile(): CacheEntry {
    CACHE[3].(item := SIGNATURE, size := 4)
  }

  lemma SignatureGiven(t: nat)
    requires t < |CACHE|
    ensures var dir := SignatureDir();
            && DirectorySound(dir) && FineAt(dir, t)
            && Given(dir, t) == if t == 3 then [SignatureFile()] else []
  {
    hide E820Dir, Lookup, DirectorySound;
    E820Lookup(SIGNATURE, CACHE[t].file);
    if CACHE[t].file == CACHE[3].file {
      FilesDiffer(t, 3);
    }
  }

  lemma SignatureListed()
    ensures DirectorySound(SignatureDir()) && Fine(SignatureDir(), 0)
    ensures Listed(SignatureDir(), 0, |CACHE|) == [SignatureFile()]
  {
    hide E820Dir, DirectorySound, Given, FineAt, Listed;
    E820DirIs(SIGNATURE);
    forall t: nat | t < |CACHE| ensures FineAt(SignatureDir(), t) {
      SignatureGiven(t);
    }
    SignatureGiven(0); SignatureGiven(1); SignatureGiven(2); SignatureGiven(3);
    SignatureGiven(4); SignatureGiven(5); SignatureGiven(6); SignatureGiven(7);
    ListedUnfolds(SignatureDir());
  }

  lemma ListedUnfolds(dir: bytes)
    requires DirectorySound(dir)
    ensures Given(dir, 0) == Given(dir, 1) == Given(dir, 2) == Given(dir, 4) == Given(dir, 5) == Given(dir, 7) == [] ==>
      Listed(dir, 0, |CACHE|) == Given(dir, 3) + Given(dir, 6)
  {
    hide Given, DirectorySound;
    assert Listed(dir, 6, |CACHE|) == Given(dir, 6) + (Given(dir, 7) + []);
    assert Listed(dir, 4, |CACHE|) == Given(dir, 4) + (Given(dir, 5) + Listed(dir, 6, |CACHE|));
    assert Listed(dir, 2, |CACHE|) == Given(dir, 2) + (Given(dir, 3) + Listed(dir, 4, |CACHE|));
  }

  // ----- what selecting such a directory leaves

  /** The blocks, their makers and the log of a device that offers a fine directory. */
  lemma Selected(env: Env, s: State, dir: bytes, made: seq<CacheEntry>)
    requires Initial(s) && Willing(env) && Offers(env.stream, s.pos, dir)
    requires DirectorySound(dir) && Fine(dir, 0) && Listed(dir, 0, |CACHE|) == made
    requires |dir| + ITEM_HEADER + RoomFor(made) <= s.room
    ensures var (s', ok) := SelectItem(env, s, FILE_DIR);
            && ok && s'.hobs == [Hob(FILE_DIR, dir)] + Filled(env.stream, s.pos + 4 + |dir|, made)
            && |s'.makers| == |s'.hobs| && s'.makers == [CACHE[0]] + made
            && s'.log == Logged(env.td, s'.makers, s'.hobs)
  {
    hide DirectorySound, Listed, Fine, Willing, Offers, SelectItem, Filled, RoomFor, Sound, Serves;
    InitialUncached(s);
    DirectoryFills(env, s, dir);
    DirectoryCachedOnce(env, s);
    InitialSound(env.td, s);
    SelectExtends(env, s, FILE_DIR);
    var s' := SelectItem(env, s, FILE_DIR).0;
    SoundLogs(env.td, s');
    assert s'.hobs == [] + [Hob(FILE_DIR, dir)] + Filled(env.stream, s.pos + 4 + |dir|, made);
    assert s'.makers == [] + [CACHE[0]] + made;
  }

  lemma InitialUncached(s: State)
    requires Initial(s)
    ensures Cached(s.hobs, FILE_DIR).None?
  {
  }

  lemma SoundLogs(td: bool, s: State)
    requires Sound(td, s)
    ensures |s.makers| == |s.hobs| && s.log == Logged(td, s.makers, s.hobs)
  {
  }

  lemma LoggedLast(td: bool, makers: seq<CacheEntry>, hobs: seq<Hob>, e: CacheEntry, h: Hob)
    requires |makers| == |hobs|
    ensures Logged(td, makers + [e], hobs + [h]) ==
      Logged(td, makers, hobs) + (if e.measure && td then [Event(e.file, h.data)] else [])
  {
    var n := |hobs|;
    assert (makers + [e])[..n] == makers && (hobs + [h])[..n] == hobs;
  }

  lemma CachedSelect(env: Env, s: State, item: nat)
    requires Cached(s.hobs, item).Some?
    ensures SelectItem(env, s, item) == (s.(area := WorkArea(item, 0, true)), true)
  {
    hide Cached;
  }

  lemma FilledOne(stream: Stream, pos: nat, e: CacheEntry)
    ensures Filled(stream, pos, [e]) == [Hob(e.item, Answer(stream, pos, e.size))] && RoomFor([e]) == e.size + 8
  {
    hide Answer;
    assert [e][1..] == [];
  }

  lemma FilledTwo(stream: Stream, pos: nat, e: CacheEntry, f: CacheEntry)
    ensures Filled(stream, pos, [e] + [f]) ==
      [Hob(e.item, Answer(stream, pos, e.size))] + [Hob(f.item, Answer(stream, pos + e.size, f.size))]
    ensures RoomFor([e] + [f]) == e.size + f.size + 16
  {
    hide Answer, Filled, RoomFor;
    FilledNext(stream, pos, e, [f]);
    FilledOne(stream, pos + e.size, f);
  }

  /** Behind that directory the signature is served on a TD, four bytes of it, and nothing at all was measured. */
  lemma SignatureUnmeasured(contents: bytes)
    requires |contents| == 4
    ensures var env := TdWith(SignatureDir(), contents);
            var (s1, ok1) := SelectItem(env, Start(), FILE_DIR);
            var (s2, ok2) := SelectItem(env, s1, SIGNATURE);
            ok1 && ok2 && Cached(s2.hobs, SIGNATURE) == Some(contents) && s2.log == []
  {
    hide E820Dir, SelectItem, Cached, Listed, Fine, TdWith, DirectorySound;
    SignatureListed();
    E820DirIs(SIGNATURE);
    Unmeasured(SignatureDir(), SignatureFile(), contents);
  }

  /** When the only listed file is unmarked. */
  lemma Unmeasured(dir: bytes, e: CacheEntry, contents: bytes)
    requires DirectorySound(dir) && Fine(dir, 0) && Listed(dir, 0, |CACHE|) == [e]
    requires |dir| >= 4 && 0 < |contents| == e.size && |dir| + e.size <= 0x800 && !e.measure && e.item != FILE_DIR
    ensures var env := TdWith(dir, contents);
            var (s1, ok1) := SelectItem(env, Start(), FILE_DIR);
            var (s2, ok2) := SelectItem(env, s1, e.item);
            ok1 && ok2 && Cached(s2.hobs, e.item) == Some(contents) && s2.log == []
  {
    hide DirectorySound, Listed, Fine, SelectItem, Logged, Cached, Filled, Says, RoomFor, Answer, Offers, Willing;
    var env := TdWith(dir, contents);
    SaysOffers(dir, contents);
    FilledOne(env.stream, 4 + |dir|, e);
    Selected(env, Start(), dir, [e]);
    SaysThen(dir, contents, 0, e.size);
    assert contents[0..e.size] == contents;
    var s1 := SelectItem(env, Start(), FILE_DIR).0;
    var d, h := Hob(FILE_DIR, dir), Hob(e.item, contents);
    assert s1.hobs == [d] + [h];
    NothingLogged();
    LoggedLast(true, [], [], CACHE[0], d);
    LoggedLast(true, [CACHE[0]], [d], e, h);
    assert [] + [d] == [d] && [] + [CACHE[0]] == [CACHE[0]];
    CachedPair(d, h);
    CachedSelect(env, s1, e.item);
  }

  lemma NothingLogged()
    ensures Logged(true, [], []) == []
  {
  }

  lemma CachedPair(d: Hob, h: Hob)
    requires d.item != h.item && h.data != []
    ensures Cached([d] + [h], h.item) == Some(h.data)
  {
    CachedLast([d], h, h.item);
    assert [d][1..] == [];
  }

  // ----- two files with one selector

  /** The unmarked "etc/e820" and the marked "etc/reserved-memory-end", 8 bytes each, under one selector. */
  function SharedDir(): bytes {
    [0, 0, 0, 2] + DirEntry(8, 0x20, CACHE[3].file) + DirEntry(8, 0x20, CACHE[6].file)
  }

  function SharedFile(t: nat): CacheEntry
    requires t < |CACHE|
  {
    CACHE[t].(item := 0x20, size := 8)
  }

  lemma SharedDirIs()
    ensures DirectorySound(SharedDir()) && UnBe(SharedDir()[..4]) == 2 && |SharedDir()| == 132
    ensures SpelledAt(SharedDir(), 0, 8, 0x20, CACHE[3].file) && SpelledAt(SharedDir(), 1, 8, 0x20, CACHE[6].file)
  {
    hide UnBe, DirEntry, Plain;
    PlainE820();
    PlainMemoryEnd();
    UnBe4(2);
    var e, f := DirEntry(8, 0x20, CACHE[3].file), DirEntry(8, 0x20, CACHE[6].file);
    var dir := [0, 0, 0, 2] + e + f;
    assert dir[..4] == [0, 0, 0, 2] && dir[4..68] == e && dir[68..132] == f;
  }

  lemma SharedLookup(name: string)
    ensures DirectorySound(SharedDir())
    ensures Lookup(SharedDir(), name, 0) ==
      if name == CACHE[3].file || name == CACHE[6].file then Some((0x20, 8)) else None
  {
    hide SharedDir, SpelledAt, DirectorySound, Lookup, UnBe;
    SharedDirIs();
    LookupEnd(SharedDir(), name);
    LookupNext(SharedDir(), 0, 8, 0x20, CACHE[3].file, name);
    LookupNext(SharedDir(), 1, 8, 0x20, CACHE[6].file, name);
  }

  lemma SharedGiven(t: nat)
    requires t < |CACHE|
    ensures var dir := SharedDir();
            && DirectorySound(dir) && FineAt(dir, t)
            && Given(dir, t) == if t == 3 || t == 6 then [SharedFile(t)] else []
  {
    hide SharedDir, Lookup, DirectorySound;
    SharedLookup(CACHE[t].file);
    if CACHE[t].file == CACHE[3].file {
      FilesDiffer(t, 3);
    }
    if CACHE[t].file == CACHE[6].file {
      FilesDiffer(t, 6);
    }
  }

  lemma SharedListed()
    ensures DirectorySound(SharedDir()) && Fine(SharedDir(), 0)
    ensures Listed(SharedDir(), 0, |CACHE|) ==
      [SharedFile(3)] + [SharedFile(6)]
  {
    hide SharedDir, DirectorySound, Given, FineAt, Listed;
    SharedDirIs();
    forall t: nat | t < |CACHE| ensures FineAt(SharedDir(), t) {
      SharedGiven(t);
    }
    SharedGiven(0); SharedGiven(1); SharedGiven(2); SharedGiven(3);
    SharedGiven(4); SharedGiven(5); SharedGiven(6); SharedGiven(7);
    ListedUnfolds(SharedDir());
  }

  /** The blocks behind a directory that lists two files of the table. */
  lemma TwoBlocks(dir: bytes, e: CacheEntry, f: CacheEntry, first: bytes, second: bytes)
    requires DirectorySound(dir) && Fine(dir, 0) && Listed(dir, 0, |CACHE|) == [e] + [f]
    requires |dir| >= 4 && |first| == e.size && |second| == f.size && |dir| + e.size + f.size <= 0x800
    ensures var env := TdWith(dir, first + second);
            var (s', ok) := SelectItem(env, Start(), FILE_DIR);
            && ok && s'.hobs == [Hob(FILE_DIR, dir)] + [Hob(e.item, first)] + [Hob(f.item, second)]
            && |s'.makers| == |s'.hobs| && s'.makers == [CACHE[0]] + [e] + [f]
            && s'.log == Logged(true, s'.makers, s'.hobs)
  {
    hide DirectorySound, Listed, Fine, SelectItem, Logged, Filled, Says, RoomFor, Answer, Offers, Willing;
    var env := TdWith(dir, first + second);
    var at := 4 + |dir|;
    SaysOffers(dir, first + second);
    FilledTwo(env.stream, at, e, f);
    Selected(env, Start(), dir, [e] + [f]);
    SaysThen(dir, first + second, 0, e.size);
    SaysThen(dir, first + second, e.size, f.size);
    TwoParts(first, second);
    var s' := SelectItem(env, Start(), FILE_DIR).0;
    Assoc([Hob(FILE_DIR, dir)], [Hob(e.item, first)], [Hob(f.item, second)]);
    Assoc([CACHE[0]], [e], [f]);
  }

  lemma TwoParts(a: bytes, b: bytes)
    ensures (a + b)[0..|a|] == a && (a + b)[|a|..|a| + |b|] == b
  {
  }

  /** Behind that directory the second answer is measured under the name of the marked file, and every select of its selector
      serves the first one. */
  lemma MeasuredNotServed(first: bytes, second: bytes)
    requires |first| == 8 && |second| == 8
    ensures var env := TdWith(SharedDir(), first + second);
            var (s1, ok1) := SelectItem(env, Start(), FILE_DIR);
            var (s2, ok2) := SelectItem(env, s1, 0x20);
            && ok1 && ok2 && Cached(s2.hobs, 0x20) == Some(first)
            && s2.log == [Event(CACHE[6].file, second)]
  {
    hide SharedDir, SelectItem, Cached, Listed, Fine, TdWith, DirectorySound;
    SharedListed();
    SharedDirIs();
    SecondMeasured(SharedDir(), SharedFile(3), SharedFile(6), first, second);
  }

  /** When an unmarked and a marked file share a selector. */
  lemma SecondMeasured(dir: bytes, e: CacheEntry, f: CacheEntry, first: bytes, second: bytes)
    requires DirectorySound(dir) && Fine(dir, 0) && Listed(dir, 0, |CACHE|) == [e] + [f]
    requires |dir| >= 4 && 0 < |first| == e.size && |second| == f.size && |dir| + e.size + f.size <= 0x800
    requires !e.measure && f.measure && e.item == f.item != FILE_DIR
    ensures var env := TdWith(dir, first + second);
            var (s1, ok1) := SelectItem(env, Start(), FILE_DIR);
            var (s2, ok2) := SelectItem(env, s1, e.item);
            ok1 && ok2 && Cached(s2.hobs, e.item) == Some(first) && s2.log == [Event(f.file, second)]
  {
    hide DirectorySound, Listed, Fine, SelectItem, Logged, Cached, TdWith;
    TwoBlocks(dir, e, f, first, second);
    var env := TdWith(dir, first + second);
    var s1 := SelectItem(env, Start(), FILE_DIR).0;
    SecondLogged(e, f, Hob(FILE_DIR, dir), Hob(e.item, first), Hob(f.item, second));
    CachedSelect(env, s1, e.item);
  }

  lemma SecondLogged(e: CacheEntry, f: CacheEntry, d: Hob, h: Hob, k: Hob)
    requires !e.measure && f.measure && d.item != h.item && h.data != []
    ensures Logged(true, [CACHE[0]] + [e] + [f], [d] + [h] + [k]) == [Event(f.file, k.data)]
    ensures Cached([d] + [h] + [k], h.item) == Some(h.data)
  {
    hide Logged, Cached;
    NothingLogged();
    LoggedLast(true, [], [], CACHE[0], d);
    assert [] + [d] == [d] && [] + [CACHE[0]] == [CACHE[0]];
    LoggedLast(true, [CACHE[0]], [d], e, h);
    LoggedLast(true, [CACHE[0]] + [e], [d] + [h], f, k);
    CachedPair(d, h);
    CachedLast([d] + [h], k, h.item);
  }

  // ----- a file with the selector of the directory

  /** A device that offers a directory whose file has the selector of the directory stops the processor. */
  lemma AliasOffered(contents: bytes)
    ensures var (s', ok) := SelectItem(TdWith(E820Dir(FILE_DIR), contents), Start(), FILE_DIR); s'.halted && !ok
  {
    hide E820Dir, DirectorySound, SelectItem, Says, Offers, Willing, DirectoryStored, NoAlias;
    var dir := E820Dir(FILE_DIR);
    E820DirIs(FILE_DIR);
    SaysOffers(dir, contents);
    StoredIs(TdWith(dir, contents), Reset(Start()), dir);
    AliasListed();
    AliasStops(TdWith(dir, contents), Start());
  }

  lemma AliasListed()
    ensures DirectorySound(E820Dir(FILE_DIR)) && !NoAlias(E820Dir(FILE_DIR))
  {
    hide E820Dir, DirectorySound, Lookup;
    E820Lookup(FILE_DIR, CACHE[3].file);
    assert CACHE[3] in CACHE && !NamesOther(E820Dir(FILE_DIR), CACHE[3].file);
  }
}
