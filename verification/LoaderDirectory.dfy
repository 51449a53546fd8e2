/** What the loader learns from the device, read off the bytes of its answers: the wire format of sizes and of the directory
    (FWCFG_FILE of QemuLoader.c), stated without the functions that parse it. */
module LoaderDirectory {
  import opened Bytes
  import opened FwCfgDevice
  import opened QemuLoader

  /** A file of the directory. */
  datatype File = File(size: nat, select: nat, name: string)

  /** The 64 bytes of the device from `at` on spell the file: its size in four bytes and its selector in two, the highest
      first, two bytes of any kind, and its name in 56 bytes, with a terminator where it is shorter. */
  predicate Spells(stream: Stream, at: nat, file: File) {
    && file.size == 0x100_0000 * stream(at) + 0x1_0000 * stream(at + 1) + 0x100 * stream(at + 2) + stream(at + 3)
    && file.select == 0x100 * stream(at + 4) + stream(at + 5)
    && NameSpelled(stream, at + 8, 56, file.name)
  }

  predicate NameSpelled(stream: Stream, at: nat, n: nat, name: string) {
    && |name| <= n
    && (forall k | 0 <= k < |name| :: stream(at + k) != 0 && name[k] == stream(at + k) as char)
    && (|name| < n ==> stream(at + |name|) == 0)
  }

  /** The device answers so to the two size keys, the count and the directory: sizes with the lowest byte first, the count
      with the highest first, and then the files. */
  ghost predicate Answers(stream: Stream, pos: nat, initrd: nat, cmdline: nat, files: seq<File>) {
    && initrd == stream(pos) + 0x100 * stream(pos + 1) + 0x1_0000 * stream(pos + 2) + 0x100_0000 * stream(pos + 3)
    && cmdline == stream(pos + 4) + 0x100 * stream(pos + 5) + 0x1_0000 * stream(pos + 6) + 0x100_0000 * stream(pos + 7)
    && |files| == 0x100_0000 * stream(pos + 8) + 0x1_0000 * stream(pos + 9) + 0x100 * stream(pos + 10) + stream(pos + 11)
    && forall k | 0 <= k < |files| :: Spells(stream, pos + 12 + 64 * k, files[k])
  }

  /** File `k` is the last one for a blob. */
  predicate LastFor(files: seq<File>, name: string, k: nat) {
    k < |files| && files[k].name == "etc/boot/" + name && forall j | k < j < |files| :: files[j].name != "etc/boot/" + name
  }

  // ----- numbers

  lemma UnBeStep(b: bytes)
    requires b != []
    ensures UnBe(b) == 256 * UnBe(b[..|b| - 1]) + b[|b| - 1]
  {
  }

  lemma UnBeNone()
    ensures UnBe([]) == 0
  {
  }

  lemma UnBe2(b: bytes)
    requires |b| == 2
    ensures UnBe(b) == 0x100 * b[0] as nat + b[1] as nat
  {
    hide UnBe;
    UnBeStep(b);
    UnBeStep(b[..1]);
    assert b[..1][..0] == [];
    UnBeNone();
  }

  lemma UnBe4(b: bytes)
    requires |b| == 4
    ensures UnBe(b) == 0x100_0000 * b[0] as nat + 0x1_0000 * b[1] as nat + 0x100 * b[2] as nat + b[3] as nat
  {
    hide UnBe;
    UnBeStep(b);
    UnBeStep(b[..3]);
    assert b[..3][..2] == b[..2];
    UnBe2(b[..2]);
  }

  // ----- names

  lemma {:induction false} CStringIs(b: bytes, name: string)
    requires |name| <= |b|
    requires forall k | 0 <= k < |name| :: b[k] != 0 && name[k] == b[k] as char
    requires |name| < |b| ==> b[|name|] == 0
    ensures CString(b) == name
  {
    if name != "" {
      CStringIs(b[1..], name[1..]);
    }
  }

  lemma Unprefixed(name: string, wanted: string)
    ensures name == "etc/boot/" + wanted <==> "etc/boot/" <= name && name[9..] == wanted
  {
    if "etc/boot/" <= name {
      assert name == name[..9] + name[9..];
    }
  }

  // ----- one entry

  lemma EntryNumbers(stream: Stream, at: nat, file: File)
    requires Spells(stream, at, file)
    ensures var e := Answer(stream, at, 64); UnBe(e[0..4]) == file.size && UnBe(e[4..6]) == file.select
  {
    hide UnBe;
    var e := Answer(stream, at, 64);
    UnBe4(e[0..4]);
    UnBe2(e[4..6]);
  }

  lemma EntryName(stream: Stream, at: nat, file: File)
    requires Spells(stream, at, file)
    ensures |file.name| <= 56 && CString(Answer(stream, at, 64)[8..]) == file.name
  {
    hide CString;
    var field := Answer(stream, at, 64)[8..];
    forall k | 0 <= k < |file.name| ensures field[k] != 0 && file.name[k] == field[k] as char {
      assert file.name[k] == stream((at + 8) + k) as char && stream((at + 8) + k) != 0;
      assert field[k] == stream((at + 8) + k);
    }
    assert |file.name| < 56 ==> field[|file.name|] == stream((at + 8) + |file.name|);
    CStringIs(field, file.name);
  }

  /** An entry changes the item of its name, which gets its size and its selector, and nothing else. */
  lemma EntryChanges(stream: Stream, at: nat, file: File, items: seq<Item>, i: nat)
    requires Spells(stream, at, file) && Shape(items) && i < |items|
    ensures |Named(items, Answer(stream, at, 64))| == |items|
    ensures Named(items, Answer(stream, at, 64))[i] ==
      if file.name == "etc/boot/" + items[i].name then items[i].(size := file.size, dataKey := Some(file.select)) else items[i]
  {
    hide UnBe, CString, LookupItem, Spells, Shape, Answer;
    EntryNumbers(stream, at, file);
    EntryName(stream, at, file);
    Unprefixed(file.name, items[i].name);
    var name := BlobName(Answer(stream, at, 64));
    if name.Some? {
      var j := LookupItem(items, name.value, 0);
      if j.Some? && items[j.value].name == items[i].name {
        NamesDiffer(items, i, j.value);
      }
    }
  }

  lemma NamesDiffer(items: seq<Item>, i: nat, j: nat)
    requires Shape(items) && i < |items| && j < |items| && items[i].name == items[j].name
    ensures i == j
  {
    var n := LOADER_ITEMS;
    assert n[0].name[0] == 'k' && n[1].name[0] == 'i' && n[2].name[0] == 'c' && n[3].name[0] == 'E' && n[4].name[0] == 's';
    assert items[i].name == n[i].name && items[j].name == n[j].name;
  }

  // ----- all entries

  lemma EntryAt(stream: Stream, at: nat, count: nat, k: nat)
    requires k < count
    ensures Answer(stream, at, count * 64)[k * 64..(k + 1) * 64] == Answer(stream, at + 64 * k, 64)
  {
  }

  /** The item after `n` files, of which the last one of its name decides. */
  function Settled(files: seq<File>, n: nat, item: Item): Item
    requires n <= |files|
  {
    if n == 0 then item
    else if files[n - 1].name == "etc/boot/" + item.name then item.(size := files[n - 1].size, dataKey := Some(files[n - 1].select))
    else Settled(files, n - 1, item)
  }

  ghost predicate AllSpelled(stream: Stream, at: nat, files: seq<File>) {
    forall k | 0 <= k < |files| :: Spells(stream, at + 64 * k, files[k])
  }

  lemma {:induction false} EntriesChange(stream: Stream, at: nat, files: seq<File>, n: nat, items: seq<Item>, i: nat)
    requires AllSpelled(stream, at, files) && n <= |files|
    requires Shape(items) && AllUnfetched(items) && i < |items|
    ensures var after := NamedAll(items, Answer(stream, at, |files| * 64), n);
            |after| == |items| && after[i] == Settled(files, n, items[i])
  {
    hide Spells, Named, Answer, AllUnfetched, Shape;
    var dir := Answer(stream, at, |files| * 64);
    if n > 0 {
      EntriesChange(stream, at, files, n - 1, items, i);
      var before := NamedAll(items, dir, n - 1);
      NamedAllKeeps(items, dir, n - 1);
      SettledName(files, n - 1, items[i]);
      EntryAt(stream, at, |files|, n - 1);
      EntryChanges(stream, at + 64 * (n - 1), files[n - 1], before, i);
    }
  }

  lemma {:induction false} SettledName(files: seq<File>, n: nat, item: Item)
    requires n <= |files|
    ensures var after := Settled(files, n, item);
            after.name == item.name && after == item.(size := after.size, dataKey := after.dataKey)
  {
    if n > 0 {
      SettledName(files, n - 1, item);
    }
  }

  lemma {:induction false} SettledIs(files: seq<File>, n: nat, item: Item)
    requires n <= |files|
    ensures (forall j | 0 <= j < n :: files[j].name != "etc/boot/" + item.name) ==> Settled(files, n, item) == item
    ensures forall k: nat | LastFor(files[..n], item.name, k) ::
              Settled(files, n, item) == item.(size := files[k].size, dataKey := Some(files[k].select))
  {
    if n > 0 {
      SettledIs(files, n - 1, item);
      forall k: nat | LastFor(files[..n], item.name, k)
        ensures Settled(files, n, item) == item.(size := files[k].size, dataKey := Some(files[k].select))
      {
        if k < n - 1 {
          assert files[..n][n - 1] == files[n - 1];
          assert LastFor(files[..n - 1], item.name, k);
        }
      }
    }
  }

  // ----- every device answers something

  function NameAt(stream: Stream, at: nat, n: nat): (name: string)
    ensures NameSpelled(stream, at, n, name)
    decreases n
  {
    if n == 0 || stream(at) == 0 then ""
    else
      var rest := NameAt(stream, at + 1, n - 1);
      assert forall k | 0 <= k < |rest| :: rest[k] == stream(at + 1 + k) as char;
      [stream(at) as char] + rest
  }

  function FileAt(stream: Stream, at: nat): File {
    File(0x100_0000 * stream(at) as nat + 0x1_0000 * stream(at + 1) as nat + 0x100 * stream(at + 2) as nat + stream(at + 3) as nat,
         0x100 * stream(at + 4) as nat + stream(at + 5) as nat, NameAt(stream, at + 8, 56))
  }

  /** Whatever the device says, it spells two sizes, a count and that many files. */
  lemma EveryDeviceAnswers(stream: Stream, pos: nat) returns (initrd: nat, cmdline: nat, files: seq<File>)
    ensures Answers(stream, pos, initrd, cmdline, files)
  {
    hide NameAt;
    initrd := stream(pos) as nat + 0x100 * stream(pos + 1) as nat + 0x1_0000 * stream(pos + 2) as nat
              + 0x100_0000 * stream(pos + 3) as nat;
    cmdline := stream(pos + 4) as nat + 0x100 * stream(pos + 5) as nat + 0x1_0000 * stream(pos + 6) as nat
               + 0x100_0000 * stream(pos + 7) as nat;
    var count: nat := 0x100_0000 * stream(pos + 8) as nat + 0x1_0000 * stream(pos + 9) as nat + 0x100 * stream(pos + 10) as nat
                      + stream(pos + 11) as nat;
    files := seq(count, k requires 0 <= k < count => FileAt(stream, pos + 12 + 64 * k));
    forall k | 0 <= k < count ensures Spells(stream, pos + 12 + 64 * k, files[k]) {
      FileSpelled(stream, pos + 12 + 64 * k);
    }
  }

  lemma FileSpelled(stream: Stream, at: nat)
    ensures Spells(stream, at, FileAt(stream, at))
  {
    hide NameAt, NameSpelled;
  }

  // ----- what the loader starts its fetches with

  lemma AnsweredNumbers(stream: Stream, pos: nat, initrd: nat, cmdline: nat, files: seq<File>)
    requires Answers(stream, pos, initrd, cmdline, files)
    ensures UnLe(Answer(stream, pos, 4)) == initrd && UnLe(Answer(stream, pos + 4, 4)) == cmdline
    ensures UnBe(Answer(stream, pos + 8, 4)) == |files|
  {
    hide Spells, UnLe, UnBe;
    UnLe4(Answer(stream, pos, 4));
    UnLe4(Answer(stream, pos + 4, 4));
    UnBe4(Answer(stream, pos + 8, 4));
  }

  lemma KeyedItems()
    ensures |LOADER_ITEMS| == 5
    ensures LOADER_ITEMS[0].sizeKey == LOADER_ITEMS[3].sizeKey == LOADER_ITEMS[4].sizeKey == None
    ensures LOADER_ITEMS[1].sizeKey == Some(0x0b) && LOADER_ITEMS[2].sizeKey == Some(0x14)
  {
  }

  /** The sizes of the initrd and the command line are the answers to their size keys, in that order. */
  lemma SizesRead(items: seq<Item>, stream: Stream, pos: nat, initrd: nat, cmdline: nat, files: seq<File>)
    requires Answers(stream, pos, initrd, cmdline, files) && items == LOADER_ITEMS
    ensures |items| == 5
    ensures Sized(items, stream, pos, 5) == (items[1 := items[1].(size := initrd)][2 := items[2].(size := cmdline)], pos + 8)
    ensures SizeReads(items, stream, pos, 5) ==
      [Select(0x0b), Fetch(Answer(stream, pos, 4)), Select(0x14), Fetch(Answer(stream, pos + 4, 4))]
    ensures UnBe(Answer(stream, pos + 8, 4)) == |files|
  {
    KeyedItems();
    AnsweredNumbers(stream, pos, initrd, cmdline, files);
    SizesOf(items, stream, pos);
  }

  lemma SizesOf(items: seq<Item>, stream: Stream, pos: nat)
    requires |items| == 5 && items[0].sizeKey == items[3].sizeKey == items[4].sizeKey == None
    requires items[1].sizeKey == Some(0x0b) && items[2].sizeKey == Some(0x14)
    ensures var first, second := UnLe(Answer(stream, pos, 4)), UnLe(Answer(stream, pos + 4, 4));
            Sized(items, stream, pos, 5) == (items[1 := items[1].(size := first)][2 := items[2].(size := second)], pos + 8)
    ensures SizeReads(items, stream, pos, 5) ==
      [Select(0x0b), Fetch(Answer(stream, pos, 4)), Select(0x14), Fetch(Answer(stream, pos + 4, 4))]
  {
    hide UnLe, Sized, SizeReads, Answer;
    NoSizes(items, stream, pos);
    SizesStep(items, stream, pos, 0);
    SizesStep(items, stream, pos, 1);
    SizesStep(items, stream, pos, 2);
    SizesStep(items, stream, pos, 3);
    SizesStep(items, stream, pos, 4);
  }

  /** Each of the five items starts with the size and the selector of the last file of its name; without such a file, the
      initrd and the command line keep their answered sizes and fixed selectors, and the others stay without a blob. */
  lemma DiscoveredIs(stream: Stream, pos: nat, initrd: nat, cmdline: nat, files: seq<File>, i: nat)
    requires Answers(stream, pos, initrd, cmdline, files) && i < 5
    ensures var items := Discovered(stream, pos);
            var name := ["kernel", "initrd", "cmdline", "EFI\\BOOT\\BOOTX64.EFI", "startup.nsh"][i];
            && |items| == 5 && items[i].name == name && items[i].data == None
            && (forall k: nat | LastFor(files, name, k) ::
                  items[i].size == files[k].size && items[i].dataKey == Some(files[k].select))
            && ((forall k | 0 <= k < |files| :: files[k].name != "etc/boot/" + name) ==>
                  && items[i].size == (if i == 1 then initrd else if i == 2 then cmdline else 0)
                  && items[i].dataKey == (if i == 1 then Some(0x12) else if i == 2 then Some(0x15) else None))
  {
    hide Spells, Sized, NamedAll, AllUnfetched, Answer, UnBe;
    SizesRead(LOADER_ITEMS, stream, pos, initrd, cmdline, files);
    InitialItems();
    SizedKeeps(LOADER_ITEMS, stream, pos, 5);
    var sized := Sized(LOADER_ITEMS, stream, pos, 5).0;
    EntriesChange(stream, pos + 12, files, |files|, sized, i);
    SettledIs(files, |files|, sized[i]);
    SettledName(files, |files|, sized[i]);
    assert files[..|files|] == files;
  }

  /** The device is asked for the two sizes, and then the directory is read in one piece behind its count. */
  lemma DiscoveryAsks(stream: Stream, pos: nat, initrd: nat, cmdline: nat, files: seq<File>)
    requires Answers(stream, pos, initrd, cmdline, files)
    ensures DiscoveryReads(stream, pos) ==
      [Select(0x0b), Fetch(Answer(stream, pos, 4)), Select(0x14), Fetch(Answer(stream, pos + 4, 4)),
       Select(0x19), Fetch(Answer(stream, pos + 8, 4)), Fetch(Answer(stream, pos + 12, |files| * 64))]
  {
    hide Spells, Sized, SizeReads, UnBe, Answer;
    SizesRead(LOADER_ITEMS, stream, pos, initrd, cmdline, files);
  }

  // ----- what is read and counted

  /** A blob is read in pieces of a megabyte, one behind the other, and a last one of what is left. */
  lemma {:induction false} ChunksAre(data: bytes)
    ensures var n := (|data| + 0xf_ffff) / 0x10_0000;
            && |Chunks(data)| == n
            && forall k | 0 <= k < n ::
                 var from := k * 0x10_0000;
                 var to := if from + 0x10_0000 < |data| then from + 0x10_0000 else |data|;
                 from < to && Chunks(data)[k] == Fetch(data[from..to])
    decreases |data|
  {
    hide Chunks;
    if data == [] {
      NoChunks();
    } else {
      ChunksStep(data);
      var m := if |data| < SIZE_1MB then |data| else SIZE_1MB;
      var rest := data[m..];
      ChunksAre(rest);
      var n := (|data| + 0xf_ffff) / 0x10_0000;
      forall k | 0 <= k < n
        ensures var from := k * 0x10_0000;
                var to := if from + 0x10_0000 < |data| then from + 0x10_0000 else |data|;
                from < to && Chunks(data)[k] == Fetch(data[from..to])
      {
        if k > 0 {
          assert Chunks(data)[k] == Chunks(rest)[k - 1];
        }
      }
    }
  }

  lemma NoChunks()
    ensures Chunks([]) == []
  {
  }

  /** The entries of a directory listing are exactly the items that are not empty, in ascending order. */
  lemma {:induction false} NonEmptyExactly(items: seq<Item>)
    ensures forall i: nat :: i in NonEmpty(items) <==> i < |items| && items[i].size != 0
    ensures forall j, k | 0 <= j < k < |NonEmpty(items)| :: NonEmpty(items)[j] < NonEmpty(items)[k]
  {
    var n := |items|;
    if n > 0 {
      NonEmptyExactly(items[..n - 1]);
      assert forall i: nat :: i in NonEmpty(items) <==> i in NonEmpty(items[..n - 1]) || (i == n - 1 && items[n - 1].size != 0);
      var before := NonEmpty(items[..n - 1]);
      forall k | 0 <= k < |before| ensures before[k] < n - 1 {
        assert before[k] in before;
      }
    }
  }
}
