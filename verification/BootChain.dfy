/** From the hashes a guest is launched with to the bytes its boot files serve: SevHashes, the verifier, the loader and
    the file system together. */
module BootChain {
  import opened Bytes
  import opened FwCfgDevice
  import opened BlobVerifier
  import opened SevHashes
  import QemuLoader
  import opened StubFiles

  /** A piece of the blob of item `i`, whose name and SHA-256 the table vouches for. */
  ghost predicate Vouched(mem: Memory, sha: Sha256, table: nat, size: nat, v: Volume, i: nat, at: nat, content: bytes) {
    && PieceOf(v, i, at, content)
    && v.items[i].name in ["kernel", "initrd", "cmdline"]
    && var e := FirstWith(Entries(mem, table, size), FindBlobEntryGuid(v.items[i].name).value);
    e.Some? && sha(v.items[i].data.value) == Some(e.value.data) && |e.value.data| == SHA256_DIGEST_SIZE
  }

  lemma BlobVouched(mem: Memory, sha: Sha256, table: nat, size: nat, v: Volume, i: nat, at: nat, content: bytes)
    requires ReadyVolume(v) && QemuLoader.AllPass(mem, sha, Some(table), size, v.items) && size > 0
    requires PieceOf(v, i, at, content)
    ensures Vouched(mem, sha, table, size, v, i, at, content)
  {
    hide FirstWith, Entries, FindBlobEntryGuid;
    assert QemuLoader.Fetched(v.items[i]);
    assert QemuLoader.Passes(mem, sha, Some(table), size, v.items[i]);
    SuccessMeans(mem, sha, table, size, v.items[i].name, v.items[i].data.value);
  }

  /** With a table that holds anything, whatever any run of opens, seeks, reads and initrd loads copies out is a piece of a
      blob that has one of the three names and the SHA-256 the table gives for that name. */
  lemma ServedIsVouched(mem: Memory, sha: Sha256, table: nat, size: nat, v: Volume, ops: seq<FsOp>, k: nat)
    requires ReadyVolume(v) && QemuLoader.AllPass(mem, sha, Some(table), size, v.items) && size > 0
    requires k < |Run(v, ops).1| && Run(v, ops).1[k] != []
    ensures exists i, at :: Vouched(mem, sha, table, size, v, i, at, Run(v, ops).1[k])
  {
    hide Run, ReadyVolume, QemuLoader.AllPass, PieceOf, Vouched;
    RunServes(v, ops, k);
    var content := Run(v, ops).1[k];
    var i, at :| PieceOf(v, i, at, content);
    BlobVouched(mem, sha, table, size, v, i, at, content);
    assert Vouched(mem, sha, table, size, v, i, at, content);
  }

  /** Files whose name has no GUID are empty once verification is on. */
  lemma OtherNamesEmpty(mem: Memory, sha: Sha256, table: nat, size: nat, v: Volume, i: nat)
    requires ReadyVolume(v) && QemuLoader.AllPass(mem, sha, Some(table), size, v.items) && size > 0
    requires i < |v.items| && v.items[i].name !in ["kernel", "initrd", "cmdline"]
    ensures v.items[i].size == 0 && v.items[i].data.None?
  {
    assert QemuLoader.Fetched(v.items[i]);
    if v.items[i].dataKey.Some? {
      assert QemuLoader.Passes(mem, sha, Some(table), size, v.items[i]);
      SuccessMeans(mem, sha, table, size, v.items[i].name, QemuLoader.Contents(v.items[i]));
    }
  }

  /** A piece of a blob whose SHA-256 is the one the guest was launched with. */
  ghost predicate Launched(sha: Sha256, hs: Hashes, v: Volume, i: nat, at: nat, content: bytes) {
    && PieceOf(v, i, at, content)
    && v.items[i].name in ["kernel", "initrd", "cmdline"]
    && sha(v.items[i].data.value) == Some(HashOf(hs, v.items[i].name))
  }

  /** A guest whose memory holds the page of its launch hashes only ever serves pieces of the kernel, initrd and command
      line with those hashes. */
  lemma ServedIsLaunched(mem: Memory, sha: Sha256, hs: Hashes, page: nat, offset: nat, window: nat,
                         v: Volume, ops: seq<FsOp>, k: nat)
    requires Digests(hs) && offset + 176 <= PAGE && page + offset > 0 && window >= 168
    requires ConstructPage(hs, offset).Some? ==> BlobVerifier.Read(mem, page, PAGE) == ConstructPage(hs, offset).value
    requires ReadyVolume(v)
    requires var (table, size) := Located(mem, page + offset, window); QemuLoader.AllPass(mem, sha, table, size, v.items)
    requires k < |Run(v, ops).1| && Run(v, ops).1[k] != []
    ensures exists i, at :: Launched(sha, hs, v, i, at, Run(v, ops).1[k])
  {
    hide Run, ReadyVolume, QemuLoader.AllPass, PieceOf, Vouched, ConstructPage, Located, Verified, BlobVerifier.Read, Digests;
    RunServes(v, ops, k);
    var content := Run(v, ops).1[k];
    var i, at :| PieceOf(v, i, at, content);
    BlobLaunched(mem, sha, hs, page, offset, window, v, i, at, content);
    assert Launched(sha, hs, v, i, at, content);
  }

  lemma BlobLaunched(mem: Memory, sha: Sha256, hs: Hashes, page: nat, offset: nat, window: nat,
                     v: Volume, i: nat, at: nat, content: bytes)
    requires Digests(hs) && offset + 176 <= PAGE && page + offset > 0 && window >= 168
    requires ConstructPage(hs, offset).Some? ==> BlobVerifier.Read(mem, page, PAGE) == ConstructPage(hs, offset).value
    requires ReadyVolume(v)
    requires var (table, size) := Located(mem, page + offset, window); QemuLoader.AllPass(mem, sha, table, size, v.items)
    requires PieceOf(v, i, at, content)
    ensures Launched(sha, hs, v, i, at, content)
  {
    hide ConstructPage, Located, Verified, BlobVerifier.Read, Digests;
    assert QemuLoader.Fetched(v.items[i]);
    var (table, size) := Located(mem, page + offset, window);
    assert QemuLoader.Passes(mem, sha, table, size, v.items[i]);
    PageVerifies(mem, sha, hs, page, offset, window, v.items[i].name, v.items[i].data.value);
  }

  // ----- the driver from its start

  /** What the `k`th call of a run copies out, if anything, is a piece of a blob the table vouches for. */
  ghost predicate CallVouched(mem: Memory, sha: Sha256, table: nat, size: nat, v: Volume, ops: seq<FsOp>, k: nat)
    requires ReadyVolume(v)
  {
    var served := Run(v, ops).1;
    k < |served| && served[k] != [] ==> exists i, at :: Vouched(mem, sha, table, size, v, i, at, served[k])
  }

  ghost predicate RunsVouched(mem: Memory, sha: Sha256, table: nat, size: nat, v: Volume)
    requires ReadyVolume(v)
  {
    forall ops: seq<FsOp>, k: nat :: CallVouched(mem, sha, table, size, v, ops, k)
  }

  ghost predicate CallLaunched(sha: Sha256, hs: Hashes, v: Volume, ops: seq<FsOp>, k: nat)
    requires ReadyVolume(v)
  {
    var served := Run(v, ops).1;
    k < |served| && served[k] != [] ==> exists i, at :: Launched(sha, hs, v, i, at, served[k])
  }

  ghost predicate RunsLaunched(sha: Sha256, hs: Hashes, v: Volume)
    requires ReadyVolume(v)
  {
    forall ops: seq<FsOp>, k: nat :: CallLaunched(sha, hs, v, ops, k)
  }

  /** Files with other names are empty. */
  predicate OthersEmpty(v: Volume) {
    forall i | 0 <= i < |v.items| && v.items[i].name !in ["kernel", "initrd", "cmdline"] ::
      v.items[i].size == 0 && v.items[i].data.None?
  }

  /** The page of the launch hashes lies in memory around the table's address. */
  predicate HoldsPage(mem: Memory, hs: Hashes, base: nat, offset: nat, window: nat) {
    && Digests(hs) && offset + 176 <= PAGE && 0 < base && offset <= base && window >= 168
    && ConstructPage(hs, offset) == Some(BlobVerifier.Read(mem, base - offset, PAGE))
  }

  lemma AllVouched(mem: Memory, sha: Sha256, table: nat, size: nat, v: Volume)
    requires ReadyVolume(v) && QemuLoader.AllPass(mem, sha, Some(table), size, v.items) && size > 0
    ensures RunsVouched(mem, sha, table, size, v) && OthersEmpty(v)
  {
    hide Run, ReadyVolume, QemuLoader.AllPass, Vouched;
    forall ops: seq<FsOp>, k: nat ensures CallVouched(mem, sha, table, size, v, ops, k) {
      if k < |Run(v, ops).1| && Run(v, ops).1[k] != [] {
        ServedIsVouched(mem, sha, table, size, v, ops, k);
      }
    }
    forall i | 0 <= i < |v.items| && v.items[i].name !in ["kernel", "initrd", "cmdline"]
      ensures v.items[i].size == 0 && v.items[i].data.None?
    {
      OtherNamesEmpty(mem, sha, table, size, v, i);
    }
  }

  lemma AllLaunched(mem: Memory, sha: Sha256, hs: Hashes, base: nat, offset: nat, window: nat, v: Volume)
    requires HoldsPage(mem, hs, base, offset, window) && ReadyVolume(v)
    requires var (table, size) := Located(mem, base, window); QemuLoader.AllPass(mem, sha, table, size, v.items)
    ensures RunsLaunched(sha, hs, v)
  {
    hide Run, ReadyVolume, QemuLoader.AllPass, Launched, ConstructPage, Located, BlobVerifier.Read, Digests;
    forall ops: seq<FsOp>, k: nat ensures CallLaunched(sha, hs, v, ops, k) {
      if k < |Run(v, ops).1| && Run(v, ops).1[k] != [] {
        ServedIsLaunched(mem, sha, hs, base - offset, offset, window, v, ops, k);
      }
    }
  }

  // ----- files by name

  /** The path opens the file `name`, which begins with no backslash itself. */
  predicate Opens(path: string, name: string) {
    PathTo(path, name) && (name == "" || name[0] != '\\')
  }

  /** Reads of these sizes through a handle opened for a path, when they ask for more than any blob holds. */
  function WholeFile(v: Volume, path: string, sizes: seq<nat>): (content: Option<bytes>)
    requires ReadyVolume(v)
  {
    var file := Open(v, Handle(None, 0), path, 1).1;
    if file.Some? && Valid(v, file.value) && SumOf(sizes) >= 0x1_0000_0000 then Some(ReadAll(v, file.value, sizes).1) else None
  }

  /** What the file of this name holds, if it is not empty, has one of the three names, and the SHA-256 the first entry of the
      table with that name's GUID gives. */
  ghost predicate FileVouched(mem: Memory, sha: Sha256, table: nat, size: nat, v: Volume, path: string, name: string, sizes: seq<nat>)
    requires ReadyVolume(v)
  {
    var content := WholeFile(v, path, sizes);
    Opens(path, name) && content.Some? && content.value != [] ==>
      && name in ["kernel", "initrd", "cmdline"]
      && var e := FirstWith(Entries(mem, table, size), FindBlobEntryGuid(name).value);
      e.Some? && sha(content.value) == Some(e.value.data) && |e.value.data| == 32
  }

  ghost predicate FilesVouched(mem: Memory, sha: Sha256, table: nat, size: nat, v: Volume)
    requires ReadyVolume(v)
  {
    forall path, name, sizes :: FileVouched(mem, sha, table, size, v, path, name, sizes)
  }

  /** What the file of this name holds, if it is not empty, has the SHA-256 the guest was launched with for that name. */
  ghost predicate FileLaunched(sha: Sha256, hs: Hashes, v: Volume, path: string, name: string, sizes: seq<nat>)
    requires ReadyVolume(v)
  {
    var content := WholeFile(v, path, sizes);
    Opens(path, name) && content.Some? && content.value != [] ==>
      || (name == "kernel" && sha(content.value) == Some(hs.kernel))
      || (name == "initrd" && sha(content.value) == Some(hs.initrd))
      || (name == "cmdline" && sha(content.value) == Some(hs.cmdline))
  }

  ghost predicate FilesLaunched(sha: Sha256, hs: Hashes, v: Volume)
    requires ReadyVolume(v)
  {
    forall path, name, sizes :: FileLaunched(sha, hs, v, path, name, sizes)
  }

  lemma {:induction false} FirstOf(v: Volume, name: string, i: nat) returns (first: nat)
    requires i < |v.items| && v.items[i].name == name
    ensures FirstNamed(v, name, first)
    decreases i
  {
    if j: nat :| j < i && v.items[j].name == name {
      first := FirstOf(v, name, j);
    } else {
      first := i;
    }
  }

  lemma OneName(path: string, name: string, v: Volume, i: nat)
    requires QemuLoader.Shape(v.items) && i < |v.items| && PathTo(path, v.items[i].name) && Opens(path, name)
    ensures v.items[i].name == name
  {
    NoBackslash(v, i);
    assert ("\\" + name)[1..] == name && ("\\" + v.items[i].name)[1..] == v.items[i].name;
  }

  /** What is read of a file is the blob of an item of its name. */
  lemma WholeBlob(v: Volume, path: string, name: string, sizes: seq<nat>) returns (i: nat)
    requires ReadyVolume(v) && Opens(path, name)
    requires WholeFile(v, path, sizes).Some? && WholeFile(v, path, sizes).value != []
    ensures i < |v.items| && v.items[i].name == name
    ensures v.items[i].data == WholeFile(v, path, sizes)
  {
    hide Open, ReadAll, QemuLoader.Fetched, QemuLoader.Shape, PathTo, Opens;
    OpenDecides(v, Handle(None, 0), path, 1);
    var k: nat :| k < |v.items| && PathTo(path, v.items[k].name);
    i := FirstOf(v, v.items[k].name, k);
    OpenServes(v, 0, path, v.items[k].name, i, sizes);
    SmallBlob(v, i);
    var blob := if v.items[i].data.Some? then v.items[i].data.value else [];
    assert blob[..|blob|] == blob && WholeFile(v, path, sizes).value == blob;
    OneName(path, name, v, i);
  }

  lemma SmallBlob(v: Volume, i: nat)
    requires ReadyVolume(v) && i < |v.items|
    ensures v.items[i].size < 0x1_0000_0000
  {
    assert QemuLoader.Fetched(v.items[i]);
  }

  lemma AllFilesVouched(mem: Memory, sha: Sha256, table: nat, size: nat, v: Volume)
    requires ReadyVolume(v) && QemuLoader.AllPass(mem, sha, Some(table), size, v.items) && size > 0
    ensures FilesVouched(mem, sha, table, size, v)
  {
    hide WholeFile, ReadyVolume, QemuLoader.AllPass, Opens, Vouched;
    forall path, name, sizes ensures FileVouched(mem, sha, table, size, v, path, name, sizes) {
      var content := WholeFile(v, path, sizes);
      if Opens(path, name) && content.Some? && content.value != [] {
        var i := WholeBlob(v, path, name, sizes);
        WholePiece(v, i);
        BlobVouched(mem, sha, table, size, v, i, 0, content.value);
        VouchedMeans(mem, sha, table, size, v, i, 0, content.value);
      }
    }
  }

  lemma WholePiece(v: Volume, i: nat)
    requires i < |v.items| && v.items[i].data.Some?
    ensures PieceOf(v, i, 0, v.items[i].data.value)
  {
  }

  lemma VouchedMeans(mem: Memory, sha: Sha256, table: nat, size: nat, v: Volume, i: nat, at: nat, content: bytes)
    requires Vouched(mem, sha, table, size, v, i, at, content)
    ensures i < |v.items| && v.items[i].data.Some? && v.items[i].name in ["kernel", "initrd", "cmdline"]
    ensures var e := FirstWith(Entries(mem, table, size), FindBlobEntryGuid(v.items[i].name).value);
            e.Some? && sha(v.items[i].data.value) == Some(e.value.data) && |e.value.data| == 32
  {
    hide Entries, FirstWith, FindBlobEntryGuid;
  }

  lemma AllFilesLaunched(mem: Memory, sha: Sha256, hs: Hashes, base: nat, offset: nat, window: nat, v: Volume)
    requires HoldsPage(mem, hs, base, offset, window) && ReadyVolume(v)
    requires var (table, size) := Located(mem, base, window); QemuLoader.AllPass(mem, sha, table, size, v.items)
    ensures FilesLaunched(sha, hs, v)
  {
    hide WholeFile, ReadyVolume, QemuLoader.AllPass, Opens, ConstructPage, Located, BlobVerifier.Read, Digests;
    forall path, name, sizes ensures FileLaunched(sha, hs, v, path, name, sizes) {
      var content := WholeFile(v, path, sizes);
      if Opens(path, name) && content.Some? && content.value != [] {
        var i := WholeBlob(v, path, name, sizes);
        WholePiece(v, i);
        BlobLaunched(mem, sha, hs, base - offset, offset, window, v, i, 0, content.value);
      }
    }
  }

  /** The verifier's constructor and then the driver's entry point. If the file system is installed and the table holds
      anything, every run of calls only ever copies out pieces of blobs the table vouches for, and files with other names are
      empty; if the table is the one a guest was launched with, what is copied out are pieces of the blobs of that launch.
      What is read in full of a file opened by name has the hash that the table, or that launch, gives for that name. */
  method Boot(available: bool, dev: Device, mem: Memory, base: nat, window: nat, sha: Sha256, allocatesDir: bool,
              allocates: nat -> bool, installs: (bool, bool), ghost hs: Hashes, ghost offset: nat)
      returns (status: QemuLoader.Status, loader: QemuLoader.Loader)
    modifies dev
    ensures fresh(loader)
    ensures status != QemuLoader.Success ==> !loader.fileSystem
    ensures var v := Volume(loader.items, loader.fetchedItems);
            var (table, size) := Located(mem, base, window);
            loader.fileSystem ==>
              && ReadyVolume(v)
              && QemuLoader.OnlyData(QemuLoader.Discovered(dev.stream, old(dev.pos)), v.items)
              && (size > 0 ==> table.Some? && RunsVouched(mem, sha, table.value, size, v) && OthersEmpty(v)
                                   && FilesVouched(mem, sha, table.value, size, v))
              && (HoldsPage(mem, hs, base, offset, window) ==> RunsLaunched(sha, hs, v) && FilesLaunched(sha, hs, v))
  {
    hide RunsVouched, FilesVouched, FilesLaunched, OthersEmpty, RunsLaunched, HoldsPage, ReadyVolume, QemuLoader.OnlyData, QemuLoader.Discovered;
    hide QemuLoader.AllPass, QemuLoader.Ready, QemuLoader.FetchedFrom, Located;
    var verifier := new Verifier(mem, base, window);
    LocatedSmall(mem, base, window);
    loader := new QemuLoader.Loader();
    status := loader.QemuLoaderEntrypoint(available, dev, verifier, mem, sha, allocatesDir, allocates, installs);
    if loader.fileSystem {
      ghost var v := Volume(loader.items, loader.fetchedItems);
      ReadyIs(v, loader.totalBytes);
      if verifier.mTableSize > 0 {
        AllVouched(mem, sha, verifier.mTable.value, verifier.mTableSize, v);
        AllFilesVouched(mem, sha, verifier.mTable.value, verifier.mTableSize, v);
      }
      if HoldsPage(mem, hs, base, offset, window) {
        AllLaunched(mem, sha, hs, base, offset, window, v);
        AllFilesLaunched(mem, sha, hs, base, offset, window, v);
      }
    }
  }

  lemma ReadyIs(v: Volume, total: nat)
    requires QemuLoader.Ready(v.items, v.fetched, total)
    ensures ReadyVolume(v)
  {
  }

  lemma LocatedSmall(mem: Memory, base: nat, size: nat)
    ensures Located(mem, base, size).1 < 0x1_0000
    ensures Located(mem, base, size).1 > 0 ==> Located(mem, base, size).0.Some?
  {
    hide LenAt, GuidAt;
  }
}
