/** What each section and each processor adds to a launch digest, as hashes of records spelled out: PAGE_INFO, Table 67 of
    section 8.17.2 of the SEV-SNP Firmware ABI Specification. */
module SnpRecords {
  import opened Bytes
  import opened Hashing
  import opened LaunchDigest
  import opened SevHashes
  import opened SnpMeasure

  /** The digest before, the digest of the contents, the length of the record (112 bytes), the page type, five zeros, and the
      address. */
  function Next(h: Hash, ld: bytes, pageType: byte, gpa: int, contents: bytes): bytes {
    h(ld + contents + [0x70, 0] + [pageType] + [0, 0, 0, 0, 0] + Le(gpa, 8))
  }

  /** `n` pages without contents, one behind the other. */
  function NextZeros(h: Hash, ld: bytes, gpa: int, n: nat): bytes {
    if n == 0 then ld else Next(h, NextZeros(h, ld, gpa, n - 1), 3, gpa + (n - 1) * 4096, Zeros(48))
  }

  lemma RecordIs(h: Hash, ld: bytes, u: Update)
    ensures h(PageInfo(ld, u)) == Next(h, ld, u.pageType, u.gpa, u.contents)
  {
    hide Le;
    RecordLength();
    RecordParts(ld, u.contents, [0x70, 0], [u.pageType], [0, 0, 0, 0, 0], Le(u.gpa, 8));
    assert [u.pageType, 0, 0, 0, 0, 0] == [u.pageType] + [0, 0, 0, 0, 0];
  }

  lemma RecordLength()
    ensures Le(0x70, 2) == [0x70, 0]
  {
    hide Le;
    LeByte(0x70, 2);
  }

  lemma RecordParts(a: bytes, b: bytes, c: bytes, d: bytes, e: bytes, f: bytes)
    ensures a + (b + (c + (d + e) + f)) == a + b + c + d + e + f
  {
  }

  lemma OneUpdate(h: Hash, ld: bytes, u: Update)
    ensures Launched(h, ld, [u]) == Next(h, ld, u.pageType, u.gpa, u.contents)
  {
    hide Launched, PageInfo, Next;
    LaunchedOne(h, ld, u);
    RecordIs(h, ld, u);
  }

  lemma NextZerosStep(h: Hash, ld: bytes, gpa: int, n: nat)
    ensures NextZeros(h, ld, gpa, 0) == ld
    ensures NextZeros(h, ld, gpa, n + 1) == Next(h, NextZeros(h, ld, gpa, n), 3, gpa + n * 4096, Zeros(48))
  {
    hide Next, Zeros;
  }

  lemma NoZeroPages(h: Hash, ld: bytes, gpa: int)
    ensures Launched(h, ld, ZeroPages(gpa, 0)) == ld
  {
    hide Launched;
    LaunchedOne(h, ld, Update(ZERO, gpa, []));
    assert ZeroPages(gpa, 0) == [];
  }

  lemma OneMoreZero(h: Hash, ld: bytes, gpa: int, m: nat, before: bytes)
    requires Launched(h, ld, ZeroPages(gpa, m)) == before && NextZeros(h, ld, gpa, m) == before
    ensures Launched(h, ld, ZeroPages(gpa, m + 1)) == NextZeros(h, ld, gpa, m + 1)
  {
    hide Launched, PageInfo, Next, NextZeros, Zeros, ZeroPages;
    ZeroPagesMore(h, gpa, m, ld);
    NextZerosStep(h, ld, gpa, m);
    RecordIs(h, before, Update(ZERO, gpa + m * 4096, Zeros(48)));
  }

  lemma {:induction false} ZerosLaunched(h: Hash, ld: bytes, gpa: int, n: nat)
    ensures Launched(h, ld, ZeroPages(gpa, n)) == NextZeros(h, ld, gpa, n)
  {
    hide Launched, PageInfo, Next, NextZeros, Zeros, ZeroPages;
    if n == 0 {
      NoZeroPages(h, ld, gpa);
      NextZerosStep(h, ld, gpa, 0);
    } else {
      ZerosLaunched(h, ld, gpa, n - 1);
      OneMoreZero(h, ld, gpa, n - 1, NextZeros(h, ld, gpa, n - 1));
    }
  }

  lemma OnePage(h: Hash, ld: bytes, gpa: int, page: bytes)
    requires |page| == 4096
    ensures Launched(h, ld, NormalPages(h, gpa, page, 1)) == Next(h, ld, 1, gpa, h(page))
  {
    hide Launched, Next;
    assert PageAt(page, 0) == page;
    assert NormalPages(h, gpa, page, 1) == [Update(NORMAL, gpa, h(page))];
    OneUpdate(h, ld, Update(NORMAL, gpa, h(page)));
  }

  // ----- one section

  /** A guest of one section without processors. Unmeasured memory and a calling area (types 1 and 4) add a record of type 3
      without contents for each page; the secrets page (type 2) one of type 5, the CPUID page (type 3) one of type 6, also
      without contents; the page of the hashes (type 0x10) one of type 1 with its digest. Anything else is refused. */
  lemma OneSection(h: Hash, ovmf: bytes, d: Desc, hs: Hashes, hashesAt: int, bsp: bytes, ap: bytes)
    ensures var page := ConstructPage(hs, hashesAt % 4096);
            Measured(h, ovmf, [d], hs, hashesAt, bsp, ap, 0) ==
              if d.secType == 1 || d.secType == 4 then
                if d.size % 4096 == 0 then Some(NextZeros(h, ovmf, d.gpa, d.size / 4096)) else None
              else if d.secType == 2 then Some(Next(h, ovmf, 5, d.gpa, Zeros(48)))
              else if d.secType == 3 then Some(Next(h, ovmf, 6, d.gpa, Zeros(48)))
              else if d.secType == 0x10 && page.Some? && |page.value| == 4096 then Some(Next(h, ovmf, 1, d.gpa, h(page.value)))
              else None
  {
    hide ConstructPage, Launched, Next, NextZeros, Zeros, NormalPages, ZeroPages;
    var page := ConstructPage(hs, hashesAt % 4096);
    JustOne(h, d, page, bsp, ap);
    ZerosLaunched(h, ovmf, d.gpa, d.size / 4096);
    OneUpdate(h, ovmf, Update(SECRETS, d.gpa, Zeros(48)));
    OneUpdate(h, ovmf, Update(CPUID, d.gpa, Zeros(48)));
    if page.Some? && |page.value| == 4096 {
      OnePage(h, ovmf, d.gpa, page.value);
    }
  }

  lemma JustOne(h: Hash, d: Desc, page: Option<bytes>, bsp: bytes, ap: bytes)
    ensures MetadataUpdates(h, [d], page) == SectionUpdates(h, d, page)
    ensures forall us: seq<Update> :: us + VmsaUpdates(h, bsp, ap, 0) == us
  {
    hide SectionUpdates;
    assert [d][..0] == [];
    var us := SectionUpdates(h, d, page);
    if us.Some? {
      assert [] + us.value == us.value;
    }
  }

  // ----- any number of sections and processors

  /** Sections are folded in order: the digest of one more is that of it alone on top of the digest of those before it. */
  lemma SectionsFold(h: Hash, ovmf: bytes, sections: seq<Desc>, d: Desc, hs: Hashes, hashesAt: int, bsp: bytes, ap: bytes)
    ensures Measured(h, ovmf, [], hs, hashesAt, bsp, ap, 0) == Some(ovmf)
    ensures var before := Measured(h, ovmf, sections, hs, hashesAt, bsp, ap, 0);
            Measured(h, ovmf, sections + [d], hs, hashesAt, bsp, ap, 0) ==
              if before.None? then None else Measured(h, before.value, [d], hs, hashesAt, bsp, ap, 0)
  {
    hide ConstructPage, Launched, SectionUpdates;
    var page := ConstructPage(hs, hashesAt % 4096);
    LaunchedOne(h, ovmf, Update(VMSA, 0, []));
    JustOne(h, d, page, bsp, ap);
    assert (sections + [d])[..|sections|] == sections;
    var first, last := MetadataUpdates(h, sections, page), SectionUpdates(h, d, page);
    if first.Some? && last.Some? {
      LaunchedConcat(h, ovmf, first.value, last.value);
    }
  }

  /** Each processor adds a record of type 2 at the fixed address with the digest of its save area, which is the first one for
      the boot processor and the second one for all others, and has to be one page. */
  lemma ProcessorsFold(h: Hash, ovmf: bytes, sections: seq<Desc>, hs: Hashes, hashesAt: int, bsp: bytes, ap: bytes, n: nat)
    ensures var before := Measured(h, ovmf, sections, hs, hashesAt, bsp, ap, n);
            var area := if n == 0 then bsp else ap;
            Measured(h, ovmf, sections, hs, hashesAt, bsp, ap, n + 1) ==
              if before.None? || |area| != 4096 then None
              else Some(Next(h, before.value, 2, 0xFFFFFFFFF000, h(area)))
  {
    hide ConstructPage, Launched, MetadataUpdates, PageInfo, VmsaUpdates, Next;
    var metadata := MetadataUpdates(h, sections, ConstructPage(hs, hashesAt % 4096));
    if metadata.Some? {
      var ld := Launched(h, ovmf, metadata.value);
      LaunchedConcat(h, ovmf, metadata.value, VmsaUpdates(h, bsp, ap, n));
      LaunchedConcat(h, ovmf, metadata.value, VmsaUpdates(h, bsp, ap, n + 1));
      VmsaMore(h, bsp, ap, n, ld);
      RecordIs(h, Launched(h, ld, VmsaUpdates(h, bsp, ap, n)), Update(VMSA, VMSA_GPA, h(if n == 0 then bsp else ap)));
    }
  }
}
