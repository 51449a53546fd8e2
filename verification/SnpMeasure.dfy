/** The predicted launch digest of an SEV-SNP guest (`snp_measure` of measure.js), and what it pins down. */
module SnpMeasure {
  import opened Bytes
  import opened Hashing
  import opened LaunchDigest
  import BlobVerifier
  import opened SevHashes

  const SNP_SEC_MEM := 1
  const SNP_SECRETS := 2
  const SNP_CPUID := 3
  const SVSM_CAA := 4
  const SNP_KERNEL_HASHES := 0x10

  /** A section of the firmware's SEV metadata. */
  datatype Desc = Desc(gpa: nat, size: nat, secType: nat)

  /** What one section adds; nothing for an unknown type, or a size that is no number of pages. */
  function SectionUpdates(h: Hash, d: Desc, hashes: Option<bytes>): Option<seq<Update>> {
    if d.secType == SNP_SEC_MEM || d.secType == SVSM_CAA then
      if d.size % 4096 == 0 then Some(ZeroPages(d.gpa, d.size / 4096)) else None
    else if d.secType == SNP_SECRETS then Some([Update(SECRETS, d.gpa, Zeros(48))])
    else if d.secType == SNP_CPUID then Some([Update(CPUID, d.gpa, Zeros(48))])
    else if d.secType == SNP_KERNEL_HASHES then
      var page :- hashes;
      if |page| == 4096 then Some(NormalPages(h, d.gpa, page, 1)) else None
    else None
  }

  function MetadataUpdates(h: Hash, sections: seq<Desc>, hashes: Option<bytes>): Option<seq<Update>> {
    var n := |sections|;
    if n == 0 then Some([])
    else
      var before :- MetadataUpdates(h, sections[..n - 1], hashes);
      var last :- SectionUpdates(h, sections[n - 1], hashes);
      Some(before + last)
  }

  /** The save area of the first processor and those of the others. */
  function VmsaUpdates(h: Hash, bsp: bytes, ap: bytes, vcpus: nat): (us: seq<Update>)
    ensures |us| == vcpus && forall i | 0 <= i < vcpus :: us[i] == Update(VMSA, VMSA_GPA, h(if i == 0 then bsp else ap))
  {
    seq(vcpus, i requires 0 <= i < vcpus => Update(VMSA, VMSA_GPA, h(if i == 0 then bsp else ap)))
  }

  function Measured(h: Hash, ovmf: bytes, sections: seq<Desc>, hs: Hashes, hashesAt: int, bsp: bytes, ap: bytes,
                    vcpus: nat): Option<bytes>
  {
    var metadata :- MetadataUpdates(h, sections, ConstructPage(hs, hashesAt % 4096));
    if (vcpus > 0 && |bsp| != 4096) || (vcpus > 1 && |ap| != 4096) then None
    else Some(Launched(h, ovmf, metadata + VmsaUpdates(h, bsp, ap, vcpus)))
  }

  lemma LaunchedOne(h: Hash, ld: bytes, u: Update)
    ensures Launched(h, ld, [u]) == h(PageInfo(ld, u)) && Launched(h, ld, []) == ld
  {
    LaunchedMore(h, ld, [], u);
    assert [] + [u] == [u];
    assert Tails([]) == [];
  }

  /** One section of `snp_measure`. */
  method AddSection(gctx: GCTX, d: Desc, hs: Hashes, hashesAt: int) returns (ok: bool)
    requires |gctx.ld| == 48
    modifies gctx`ld
    ensures var updates := SectionUpdates(gctx.h, d, ConstructPage(hs, hashesAt % 4096));
            (ok <==> updates.Some?) && (ok ==> |gctx.ld| == 48 && gctx.ld == Launched(gctx.h, old(gctx.ld), updates.value))
  {
    hide ConstructPage, Launched, PageInfo, ZeroPages, NormalPages, Zeros;
    if d.secType == SNP_SEC_MEM {
      ok := gctx.UpdateZeroPages(d.gpa, d.size);
    } else if d.secType == SNP_SECRETS {
      LaunchedOne(gctx.h, gctx.ld, Update(SECRETS, d.gpa, Zeros(48)));
      ok := gctx.UpdatePage(SECRETS, d.gpa, Zeros(48));
    } else if d.secType == SNP_CPUID {
      LaunchedOne(gctx.h, gctx.ld, Update(CPUID, d.gpa, Zeros(48)));
      ok := gctx.UpdatePage(CPUID, d.gpa, Zeros(48));
    } else if d.secType == SNP_KERNEL_HASHES {
      var page := Page(hs, hashesAt % 4096);
      assert (hashesAt % 4096) % 4096 == hashesAt % 4096;
      if page.None? || |page.value| != 4096 { return false; }
      ok := gctx.UpdateNormalPages(d.gpa, page.value);
    } else if d.secType == SVSM_CAA {
      ok := gctx.UpdateZeroPages(d.gpa, d.size);
    } else {
      ok := false;
    }
  }

  method MeasureSnp(h: Hash, ovmf: bytes, sections: seq<Desc>, hs: Hashes, hashesAt: int, bsp: bytes, ap: bytes, vcpus: nat)
    returns (r: Option<bytes>)
    requires |ovmf| == 48
    ensures r == Measured(h, ovmf, sections, hs, hashesAt, bsp, ap, vcpus)
  {
    hide ConstructPage, Launched, PageInfo, SectionUpdates, VmsaUpdates;
    var gctx := new GCTX(h, ovmf);
    ghost var page := ConstructPage(hs, hashesAt % 4096);
    ghost var added: seq<Update> := [];
    LaunchedOne(h, ovmf, Update(VMSA, 0, []));
    for i := 0 to |sections|
      invariant gctx.h == h && |gctx.ld| == 48
      invariant MetadataUpdates(h, sections[..i], page) == Some(added) && gctx.ld == Launched(h, ovmf, added)
    {
      assert sections[..i + 1][..i] == sections[..i];
      var ok := AddSection(gctx, sections[i], hs, hashesAt);
      if !ok {
        MetadataFails(h, sections, page, i + 1);
        return None;
      }
      ghost var more := SectionUpdates(h, sections[i], page).value;
      LaunchedConcat(h, ovmf, added, more);
      added := added + more;
    }
    assert sections[..|sections|] == sections;
    ghost var before := gctx.ld;
    assert Launched(h, before, VmsaUpdates(h, bsp, ap, 0)) == before by { NoVmsa(h, bsp, ap, before); }
    for i := 0 to vcpus
      invariant gctx.h == h && |gctx.ld| == 48
      invariant gctx.ld == Launched(h, before, VmsaUpdates(h, bsp, ap, i))
      invariant (i > 0 ==> |bsp| == 4096) && (i > 1 ==> |ap| == 4096)
    {
      VmsaMore(h, bsp, ap, i, before);
      var ok := gctx.UpdateVmsaPage(if i == 0 then bsp else ap);
      if !ok { return None; }
    }
    LaunchedConcat(h, ovmf, added, VmsaUpdates(h, bsp, ap, vcpus));
    r := Some(gctx.ld);
  }

  lemma NoVmsa(h: Hash, bsp: bytes, ap: bytes, ld: bytes)
    ensures Launched(h, ld, VmsaUpdates(h, bsp, ap, 0)) == ld
  {
  }

  lemma VmsaMore(h: Hash, bsp: bytes, ap: bytes, i: nat, ld: bytes)
    ensures Launched(h, ld, VmsaUpdates(h, bsp, ap, i + 1))
         == h(PageInfo(Launched(h, ld, VmsaUpdates(h, bsp, ap, i)), Update(VMSA, VMSA_GPA, h(if i == 0 then bsp else ap))))
  {
    hide Launched, PageInfo;
    var u := Update(VMSA, VMSA_GPA, h(if i == 0 then bsp else ap));
    assert VmsaUpdates(h, bsp, ap, i + 1) == VmsaUpdates(h, bsp, ap, i) + [u];
    LaunchedMore(h, ld, VmsaUpdates(h, bsp, ap, i), u);
  }

  lemma {:induction false} MetadataFails(h: Hash, sections: seq<Desc>, hashes: Option<bytes>, i: nat)
    requires i <= |sections| && MetadataUpdates(h, sections[..i], hashes).None?
    ensures MetadataUpdates(h, sections, hashes).None?
    decreases |sections|
  {
    hide SectionUpdates;
    var n := |sections|;
    if i == n {
      assert sections[..n] == sections;
    } else {
      assert sections[..n - 1][..i] == sections[..i];
      MetadataFails(h, sections[..n - 1], hashes, i);
    }
  }

  // ----- the digest pins the hashes of kernel, initrd and command line

  lemma EntryInjective(guid: bytes, hash: bytes, hash': bytes)
    requires EntryBytes(guid, hash) == EntryBytes(guid, hash')
    ensures hash == hash'
  {
    hide Le;
    SameCut(guid + Le(50, 2), hash, guid + Le(50, 2), hash');
  }

  lemma TableInjective(hs: Hashes, hs': Hashes)
    requires Digests(hs) && Digests(hs') && TableBytes(hs) == TableBytes(hs')
    ensures hs == hs'
  {
    var c := EntryBytes(BlobVerifier.SEV_CMDLINE_HASH_GUID, hs.cmdline);
    var i := EntryBytes(BlobVerifier.SEV_INITRD_HASH_GUID, hs.initrd);
    var k := EntryBytes(BlobVerifier.SEV_KERNEL_HASH_GUID, hs.kernel);
    var c' := EntryBytes(BlobVerifier.SEV_CMDLINE_HASH_GUID, hs'.cmdline);
    var i' := EntryBytes(BlobVerifier.SEV_INITRD_HASH_GUID, hs'.initrd);
    var k' := EntryBytes(BlobVerifier.SEV_KERNEL_HASH_GUID, hs'.kernel);
    assert |c| == |c'| && |i| == |i'|;
    hide EntryBytes, Le;
    var head := BlobVerifier.SEV_HASH_TABLE_GUID + Le(168, 2);
    SameCut(head + c + i, k, head + c' + i', k');
    SameCut(head + c, i, head + c', i');
    SameCut(head, c, head, c');
    EntryInjective(BlobVerifier.SEV_CMDLINE_HASH_GUID, hs.cmdline, hs'.cmdline);
    EntryInjective(BlobVerifier.SEV_INITRD_HASH_GUID, hs.initrd, hs'.initrd);
    EntryInjective(BlobVerifier.SEV_KERNEL_HASH_GUID, hs.kernel, hs'.kernel);
  }

  lemma PageOfHashes(hs: Hashes, offset: nat)
    requires Digests(hs) && offset + 176 <= 4096
    ensures var page := ConstructPage(hs, offset);
            page.Some? && |page.value| == 4096 && page.value[offset..offset + 168] == TableBytes(hs)
  {
    hide TableBytes, ConstructTable;
    ConstructTableIs(hs);
  }

  /** Two pages in the same sections give equally many updates. */
  lemma {:induction false} SameCount(h: Hash, sections: seq<Desc>, p: bytes, p': bytes)
    requires |p| == |p'| == 4096
    ensures var us, vs := MetadataUpdates(h, sections, Some(p)), MetadataUpdates(h, sections, Some(p'));
            us.Some? == vs.Some? && (us.Some? ==> |us.value| == |vs.value|)
  {
    var n := |sections|;
    if n > 0 {
      SameCount(h, sections[..n - 1], p, p');
      SameSectionCount(h, sections[n - 1], p, p');
      hide SectionUpdates;
    }
  }

  lemma SameSectionCount(h: Hash, d: Desc, p: bytes, p': bytes)
    requires |p| == |p'| == 4096
    ensures var us, vs := SectionUpdates(h, d, Some(p)), SectionUpdates(h, d, Some(p'));
            && us.Some? == vs.Some? && (us.Some? ==> |us.value| == |vs.value|)
            && (us.Some? && us == vs && d.secType == SNP_KERNEL_HASHES ==> h(p) == h(p'))
  {
    if d.secType == SNP_KERNEL_HASHES {
      var us, vs := NormalPages(h, d.gpa, p, 1), NormalPages(h, d.gpa, p', 1);
      assert us[0].contents == h(PageAt(p, 0)) && vs[0].contents == h(PageAt(p', 0));
      assert PageAt(p, 0) == p && PageAt(p', 0) == p';
    }
  }

  lemma {:induction false} MetadataPins(h: Hash, sections: seq<Desc>, p: bytes, p': bytes, k: nat)
    requires |p| == |p'| == 4096 && k < |sections| && sections[k].secType == SNP_KERNEL_HASHES
    requires MetadataUpdates(h, sections, Some(p)).Some?
    requires MetadataUpdates(h, sections, Some(p)) == MetadataUpdates(h, sections, Some(p'))
    ensures h(p) == h(p')
  {
    hide SectionUpdates;
    var n := |sections|;
    var front, last := sections[..n - 1], sections[n - 1];
    SameCount(h, front, p, p');
    SameSectionCount(h, last, p, p');
    SameCut(MetadataUpdates(h, front, Some(p)).value, SectionUpdates(h, last, Some(p)).value,
             MetadataUpdates(h, front, Some(p')).value, SectionUpdates(h, last, Some(p')).value);
    if k < n - 1 {
      MetadataPins(h, front, p, p', k);
    }
  }

  predicate Addressable(sections: seq<Desc>) {
    forall i | 0 <= i < |sections| :: sections[i].gpa < 0x1_0000_0000 && sections[i].size < 0x1_0000_0000
  }

  lemma SectionValid(h: Hash, d: Desc, hashes: Option<bytes>)
    requires d.gpa < 0x1_0000_0000 && d.size < 0x1_0000_0000 && SectionUpdates(h, d, hashes).Some?
    ensures AllValid(SectionUpdates(h, d, hashes).value)
  {
    PowValues();
  }

  lemma {:induction false} MetadataValid(h: Hash, sections: seq<Desc>, hashes: Option<bytes>)
    requires Addressable(sections) && MetadataUpdates(h, sections, hashes).Some?
    ensures AllValid(MetadataUpdates(h, sections, hashes).value)
  {
    var n := |sections|;
    if n > 0 {
      SectionValid(h, sections[n - 1], hashes);
      MetadataValid(h, sections[..n - 1], hashes);
      hide SectionUpdates, ValidUpdate;
    }
  }

  lemma AllUpdatesValid(h: Hash, sections: seq<Desc>, hashes: Option<bytes>, bsp: bytes, ap: bytes, vcpus: nat)
    requires Addressable(sections) && MetadataUpdates(h, sections, hashes).Some?
    ensures AllValid(MetadataUpdates(h, sections, hashes).value + VmsaUpdates(h, bsp, ap, vcpus))
  {
    PowValues();
    MetadataValid(h, sections, hashes);
    hide MetadataUpdates;
    var us := VmsaUpdates(h, bsp, ap, vcpus);
    assert forall i | 0 <= i < |us| :: ValidUpdate(us[i]);
  }

  /** Guests with the same sections and as many processors that have the same digest were launched from firmware of the same
      digest, with the same hashes of kernel, initrd and command line and the same save areas, or two hash pages, two save
      areas or two records collide. */
  lemma LaunchPinsHashes(h: Hash, sections: seq<Desc>, k: nat, hashesAt: int, vcpus: nat, ovmf: bytes, hs: Hashes, bsp: bytes,
                         ap: bytes, ovmf': bytes, hs': Hashes, bsp': bytes, ap': bytes)
    requires |ovmf| == |ovmf'| == 48 && Addressable(sections) && k < |sections| && sections[k].secType == SNP_KERNEL_HASHES
    requires Digests(hs) && Digests(hs') && hashesAt % 4096 + 176 <= 4096
    requires Measured(h, ovmf, sections, hs, hashesAt, bsp, ap, vcpus).Some?
    requires Measured(h, ovmf', sections, hs', hashesAt, bsp', ap', vcpus) == Measured(h, ovmf, sections, hs, hashesAt, bsp, ap, vcpus)
    ensures var p, p' := ConstructPage(hs, hashesAt % 4096), ConstructPage(hs', hashesAt % 4096);
            var us, vs := MetadataUpdates(h, sections, p), MetadataUpdates(h, sections, p');
            && p.Some? && p'.Some? && us.Some? && vs.Some? && |us.value| == |vs.value|
            && var xs, ys := us.value + VmsaUpdates(h, bsp, ap, vcpus), vs.value + VmsaUpdates(h, bsp', ap', vcpus);
            || Collides(h, ChainPair(h, ovmf, Tails(xs), ovmf', Tails(ys)))
            || (&& ovmf == ovmf'
                && (hs == hs' || Collides(h, (p.value, p'.value)))
                && (vcpus > 0 ==> bsp == bsp' || Collides(h, (bsp, bsp')))
                && (vcpus > 1 ==> ap == ap' || Collides(h, (ap, ap'))))
  {
    hide ConstructPage, Launched, MetadataUpdates, ChainPair, Tails, TableBytes, AllValid, Addressable, Digests, VmsaUpdates;
    var offset := hashesAt % 4096;
    PageOfHashes(hs, offset);
    PageOfHashes(hs', offset);
    var p, p' := ConstructPage(hs, offset).value, ConstructPage(hs', offset).value;
    SameCount(h, sections, p, p');
    var us, vs := MetadataUpdates(h, sections, Some(p)).value, MetadataUpdates(h, sections, Some(p')).value;
    var vmsa, vmsa' := VmsaUpdates(h, bsp, ap, vcpus), VmsaUpdates(h, bsp', ap', vcpus);
    AllUpdatesValid(h, sections, Some(p), bsp, ap, vcpus);
    AllUpdatesValid(h, sections, Some(p'), bsp', ap', vcpus);
    DigestDetermines(h, ovmf, us + vmsa, ovmf', vs + vmsa');
    if us + vmsa == vs + vmsa' {
      SameCut(us, vmsa, vs, vmsa');
      VmsaPins(h, bsp, ap, bsp', ap', vcpus);
      MetadataPins(h, sections, p, p', k);
      if p == p' {
        TableInjective(hs, hs');
      }
    }
  }

  lemma VmsaPins(h: Hash, bsp: bytes, ap: bytes, bsp': bytes, ap': bytes, vcpus: nat)
    requires VmsaUpdates(h, bsp, ap, vcpus) == VmsaUpdates(h, bsp', ap', vcpus)
    ensures (vcpus > 0 ==> h(bsp) == h(bsp')) && (vcpus > 1 ==> h(ap) == h(ap'))
  {
    var us, vs := VmsaUpdates(h, bsp, ap, vcpus), VmsaUpdates(h, bsp', ap', vcpus);
    if vcpus > 0 {
      assert us[0].contents == h(bsp) && vs[0].contents == h(bsp');
    }
    if vcpus > 1 {
      assert us[1].contents == h(ap) && vs[1].contents == h(ap');
    }
  }
}
