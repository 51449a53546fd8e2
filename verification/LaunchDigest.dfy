/** The launch digest of an SEV-SNP guest: class `GCTX` and `snp_measure` of measure.js. */
module LaunchDigest {
  import opened Bytes
  import opened Hashing
  import SevHashes

  const VMSA_GPA := 0xFFFFFFFFF000
  const NORMAL: byte := 0x01
  const VMSA: byte := 0x02
  const ZERO: byte := 0x03
  const SECRETS: byte := 0x05
  const CPUID: byte := 0x06

  /** One page: its type, its address and the digest of its contents. */
  datatype Update = Update(pageType: byte, gpa: int, contents: bytes)

  /** The part of a PAGE_INFO structure behind the digest it extends: Table 67 of section 8.17.2 of the SEV-SNP Firmware
      ABI Specification. */
  function Tail(u: Update): bytes {
    u.contents + (Le(0x70, 2) + [u.pageType, 0, 0, 0, 0, 0] + Le(u.gpa, 8))
  }

  function PageInfo(ld: bytes, u: Update): bytes {
    ld + Tail(u)
  }

  function Tails(us: seq<Update>): (r: seq<bytes>)
    ensures |r| == |us| && forall i | 0 <= i < |us| :: r[i] == Tail(us[i])
  {
    seq(|us|, i requires 0 <= i < |us| => Tail(us[i]))
  }

  /** The digest after a list of updates: a chain over their PAGE_INFO structures. */
  function Launched(h: Hash, ld: bytes, us: seq<Update>): bytes {
    Extended(h, ld, Tails(us))
  }

  function PageAt(data: bytes, i: nat): bytes
    requires (i + 1) * 4096 <= |data|
  {
    data[i * 4096..(i + 1) * 4096]
  }

  /** The first `n` pages of `data`. */
  function NormalPages(h: Hash, gpa: int, data: bytes, n: nat): (us: seq<Update>)
    requires n * 4096 <= |data|
    ensures |us| == n && forall i | 0 <= i < n :: us[i] == Update(NORMAL, gpa + i * 4096, h(PageAt(data, i)))
  {
    seq(n, i requires 0 <= i < n => Update(NORMAL, gpa + i * 4096, h(PageAt(data, i))))
  }

  function ZeroPages(gpa: int, n: nat): (us: seq<Update>)
    ensures |us| == n && forall i | 0 <= i < n :: us[i] == Update(ZERO, gpa + i * 4096, Zeros(48))
  {
    seq(n, i requires 0 <= i < n => Update(ZERO, gpa + i * 4096, Zeros(48)))
  }

  // ----- the class

  /** The last 16 bytes of a PAGE_INFO structure, written field by field. */
  method Params(pageType: byte, gpa: int) returns (params: bytes)
    ensures params == Le(0x70, 2) + [pageType, 0, 0, 0, 0, 0] + Le(gpa, 8)
  {
    hide Le;
    var p := new byte[16](_ => 0);
    var _ := Store(p, 0, Le(0x70, 2));
    assert p[..2] == Le(0x70, 2);
    p[2] := pageType;
    p[3] := 0;
    p[4], p[5], p[6] := 0, 0, 0;
    p[7] := 0;
    assert p[..8] == Le(0x70, 2) + [pageType, 0, 0, 0, 0, 0];
    var _ := Store(p, 8, Le(gpa, 8));
    assert p[..] == p[..8] + p[8..];
    params := p[..];
  }

  class GCTX {
    const h: Hash
    var ld: bytes

    constructor (h: Hash, ld: bytes)
      ensures this.h == h && this.ld == ld
    {
      this.h := h;
      this.ld := ld;
    }

    /** Refused, with nothing changed, for contents that are no digest. */
    method UpdatePage(pageType: byte, gpa: int, contents: bytes) returns (ok: bool)
      requires |ld| == 48
      modifies this`ld
      ensures ok <==> |contents| == 48
      ensures |ld| == 48
      ensures ld == if ok then h(PageInfo(old(ld), Update(pageType, gpa, contents))) else old(ld)
    {
      if |contents| != 48 { return false; }
      var params := Params(pageType, gpa);
      hide Le;
      var pageInfo := new byte[0x70](_ => 0);
      var _ := Store(pageInfo, 0, ld);
      assert pageInfo[..48] == ld;
      var _ := Store(pageInfo, 48, contents);
      assert pageInfo[..96] == ld + contents;
      var _ := Store(pageInfo, 96, params);
      assert pageInfo[..] == ld + contents + params;
      Assoc(ld, contents, params);
      ld := h(pageInfo[..]);
      ok := true;
    }

    method UpdateNormalPages(startGpa: int, data: bytes) returns (ok: bool)
      requires |ld| == 48
      modifies this`ld
      ensures ok <==> |data| % 4096 == 0
      ensures |ld| == 48
      ensures ok ==> |data| / 4096 * 4096 == |data| && ld == Launched(h, old(ld), NormalPages(h, startGpa, data, |data| / 4096))
      ensures !ok ==> ld == old(ld)
    {
      if |data| % 4096 != 0 { return false; }
      WholePages(|data|);
      AddNormalPages(startGpa, data, |data| / 4096);
      ok := true;
    }

    /** One turn of the loop of `update_normal_pages`. */
    method AddNormalPage(startGpa: int, data: bytes, offset: nat, ghost n: nat, ghost start: bytes)
      requires |ld| == 48 && offset == n * 4096 && (n + 1) * 4096 <= |data| && AddedNormal(h, start, startGpa, data, n, ld)
      modifies this`ld
      ensures |ld| == 48 && AddedNormal(h, start, startGpa, data, n + 1, ld)
    {
      hide RelSlice, PageAt, PageInfo, AddedNormal;
      PageOf(data, n);
      MoreNormal(h, start, startGpa, data, n, ld);
      var pageData := RelSlice(RelSlice(data, offset, |data|), 0, 4096);
      var _ := UpdatePage(NORMAL, startGpa + offset, h(pageData));
    }

    method AddNormalPages(startGpa: int, data: bytes, ghost pages: nat)
      requires |ld| == 48 && |data| == pages * 4096
      modifies this`ld
      ensures |ld| == 48 && ld == Launched(h, old(ld), NormalPages(h, startGpa, data, pages))
    {
      hide *;
      var offset := 0;
      ghost var n := 0;
      NothingAdded(h, ld, startGpa, data);
      while offset < |data|
        invariant offset == n * 4096 && n <= pages && |ld| == 48
        invariant AddedNormal(h, old(ld), startGpa, data, n, ld)
        decreases pages - n
      {
        AddNormalPage(startGpa, data, offset, n, old(ld));
        offset := offset + 4096;
        n := n + 1;
      }
      assert n == pages;
      WhatNormal(h, old(ld), startGpa, data, n, ld);
    }

    method UpdateZeroPages(gpa: int, lengthBytes: nat) returns (ok: bool)
      requires |ld| == 48
      modifies this`ld
      ensures ok <==> lengthBytes % 4096 == 0
      ensures |ld| == 48
      ensures ld == if ok then Launched(h, old(ld), ZeroPages(gpa, lengthBytes / 4096)) else old(ld)
    {
      if lengthBytes % 4096 != 0 { return false; }
      WholePages(lengthBytes);
      AddZeroPages(gpa, lengthBytes, lengthBytes / 4096);
      ok := true;
    }

    /** The loop of `update_zero_pages`. */
    method AddZeroPages(gpa: int, lengthBytes: nat, ghost pages: nat)
      requires |ld| == 48 && lengthBytes == pages * 4096
      modifies this`ld
      ensures |ld| == 48 && ld == Launched(h, old(ld), ZeroPages(gpa, pages))
    {
      hide *;
      var offset := 0;
      ghost var n := 0;
      NothingAdded(h, ld, gpa, []);
      while offset < lengthBytes
        invariant offset == n * 4096 && n <= pages && |ld| == 48
        invariant AddedZero(h, old(ld), gpa, n, ld)
        decreases pages - n
      {
        MoreZero(h, old(ld), gpa, n, ld);
        var _ := UpdatePage(ZERO, gpa + offset, Zeros(48));
        offset := offset + 4096;
        n := n + 1;
      }
      WhatZero(h, old(ld), gpa, n, ld);
    }

    method UpdateVmsaPage(data: bytes) returns (ok: bool)
      requires |ld| == 48
      modifies this`ld
      ensures ok <==> |data| == 4096
      ensures |ld| == 48
      ensures ld == if ok then h(PageInfo(old(ld), Update(VMSA, VMSA_GPA, h(data)))) else old(ld)
    {
      if |data| != 4096 { return false; }
      ok := UpdatePage(0x02, VMSA_GPA, h(data));
    }
  }

  lemma PageOf(data: bytes, i: nat)
    requires (i + 1) * 4096 <= |data|
    ensures RelSlice(RelSlice(data, i * 4096, |data|), 0, 4096) == PageAt(data, i)
  {
    PieceOfDrop(data, i * 4096, 0, 4096);
    assert data[i * 4096..|data|] == data[i * 4096..];
  }

  lemma WholePages(length: nat)
    requires length % 4096 == 0
    ensures length == length / 4096 * 4096
  {
  }

  /** `ld` is what `start` becomes with the first `n` pages of the data. */
  ghost predicate AddedNormal(h: Hash, start: bytes, gpa: int, data: bytes, n: nat, ld: bytes) {
    n * 4096 <= |data| && ld == Launched(h, start, NormalPages(h, gpa, data, n))
  }

  ghost predicate AddedZero(h: Hash, start: bytes, gpa: int, n: nat, ld: bytes) {
    ld == Launched(h, start, ZeroPages(gpa, n))
  }

  lemma NothingAdded(h: Hash, ld: bytes, gpa: int, data: bytes)
    ensures AddedNormal(h, ld, gpa, data, 0, ld) && AddedZero(h, ld, gpa, 0, ld)
  {
  }

  lemma MoreNormal(h: Hash, start: bytes, gpa: int, data: bytes, n: nat, ld: bytes)
    requires AddedNormal(h, start, gpa, data, n, ld) && (n + 1) * 4096 <= |data|
    ensures AddedNormal(h, start, gpa, data, n + 1, h(PageInfo(ld, Update(NORMAL, gpa + n * 4096, h(PageAt(data, n))))))
  {
    hide Launched, NormalPages, PageInfo;
    NormalPagesMore(h, gpa, data, n, start);
  }

  lemma MoreZero(h: Hash, start: bytes, gpa: int, n: nat, ld: bytes)
    requires AddedZero(h, start, gpa, n, ld)
    ensures AddedZero(h, start, gpa, n + 1, h(PageInfo(ld, Update(ZERO, gpa + n * 4096, Zeros(48)))))
  {
    hide Launched, ZeroPages, PageInfo, Zeros;
    ZeroPagesMore(h, gpa, n, start);
  }

  lemma WhatNormal(h: Hash, start: bytes, gpa: int, data: bytes, n: nat, ld: bytes)
    requires AddedNormal(h, start, gpa, data, n, ld)
    ensures n * 4096 <= |data| && ld == Launched(h, start, NormalPages(h, gpa, data, n))
  {
  }

  lemma WhatZero(h: Hash, start: bytes, gpa: int, n: nat, ld: bytes)
    requires AddedZero(h, start, gpa, n, ld)
    ensures ld == Launched(h, start, ZeroPages(gpa, n))
  {
  }

  lemma LaunchedMore(h: Hash, ld: bytes, us: seq<Update>, u: Update)
    ensures Launched(h, ld, us + [u]) == h(PageInfo(Launched(h, ld, us), u))
  {
    hide Extended, Tail;
    assert Tails(us + [u]) == Tails(us) + [Tail(u)];
    ExtendedLast(h, ld, Tails(us), Tail(u));
  }

  lemma NormalPagesMore(h: Hash, gpa: int, data: bytes, n: nat, ld: bytes)
    requires (n + 1) * 4096 <= |data|
    ensures var u := Update(NORMAL, gpa + n * 4096, h(PageAt(data, n)));
            Launched(h, ld, NormalPages(h, gpa, data, n + 1)) == h(PageInfo(Launched(h, ld, NormalPages(h, gpa, data, n)), u))
  {
    hide Launched, PageInfo, PageAt;
    var u := Update(NORMAL, gpa + n * 4096, h(PageAt(data, n)));
    assert NormalPages(h, gpa, data, n + 1) == NormalPages(h, gpa, data, n) + [u];
    LaunchedMore(h, ld, NormalPages(h, gpa, data, n), u);
  }

  lemma ZeroPagesStep(gpa: int, n: nat)
    ensures ZeroPages(gpa, n + 1) == ZeroPages(gpa, n) + [Update(ZERO, gpa + n * 4096, Zeros(48))]
  {
    hide Zeros;
    forall i | 0 <= i < n ensures ZeroPages(gpa, n + 1)[i] == ZeroPages(gpa, n)[i] {
    }
  }

  lemma ZeroPagesMore(h: Hash, gpa: int, n: nat, ld: bytes)
    ensures var u := Update(ZERO, gpa + n * 4096, Zeros(48));
            Launched(h, ld, ZeroPages(gpa, n + 1)) == h(PageInfo(Launched(h, ld, ZeroPages(gpa, n)), u))
  {
    hide Launched, PageInfo, Zeros, ZeroPages;
    var u := Update(ZERO, gpa + n * 4096, Zeros(48));
    ZeroPagesStep(gpa, n);
    LaunchedMore(h, ld, ZeroPages(gpa, n), u);
  }

  // ----- the digest is a fold

  lemma LaunchedConcat(h: Hash, ld: bytes, us: seq<Update>, vs: seq<Update>)
    ensures Launched(h, ld, us + vs) == Launched(h, Launched(h, ld, us), vs)
  {
    hide Extended, Tail;
    assert Tails(us + vs) == Tails(us) + Tails(vs);
    ExtendedConcat(h, ld, Tails(us), Tails(vs));
  }

  lemma PagesConcat(h: Hash, gpa: int, a: bytes, b: bytes, m: nat, n: nat)
    requires |a| == m * 4096 && n * 4096 <= |b|
    ensures NormalPages(h, gpa, a + b, m + n) == NormalPages(h, gpa, a, m) + NormalPages(h, gpa + |a|, b, n)
  {
    var all, first, second := NormalPages(h, gpa, a + b, m + n), NormalPages(h, gpa, a, m), NormalPages(h, gpa + |a|, b, n);
    hide NormalPages;
    forall i | 0 <= i < m + n ensures all[i] == (first + second)[i] {
      if i < m {
        assert PageAt(a + b, i) == PageAt(a, i);
      } else {
        assert PageAt(a + b, i) == PageAt(b, i - m);
      }
    }
  }

  /** Adding a ++ b, split at a page boundary, is adding a and then b behind it. */
  lemma UpdateSplits(h: Hash, ld: bytes, gpa: int, a: bytes, b: bytes, m: nat, n: nat)
    requires |a| == m * 4096 && |b| == n * 4096
    ensures Launched(h, ld, NormalPages(h, gpa, a + b, m + n))
         == Launched(h, Launched(h, ld, NormalPages(h, gpa, a, m)), NormalPages(h, gpa + |a|, b, n))
  {
    hide Launched, NormalPages;
    PagesConcat(h, gpa, a, b, m, n);
    LaunchedConcat(h, ld, NormalPages(h, gpa, a, m), NormalPages(h, gpa + |a|, b, n));
  }

  // ----- the digest determines the pages

  /** A digest of contents and a 64-bit address. */
  predicate ValidUpdate(u: Update) {
    |u.contents| == 48 && 0 <= u.gpa < Pow256(8)
  }

  predicate AllValid(us: seq<Update>) {
    forall i | 0 <= i < |us| :: ValidUpdate(us[i])
  }

  lemma TailInjective(u: Update, u': Update)
    requires ValidUpdate(u) && ValidUpdate(u') && Tail(u) == Tail(u')
    ensures u == u'
  {
    hide Le, Pow256;
    var t, t' := Le(0x70, 2) + [u.pageType, 0, 0, 0, 0, 0], Le(0x70, 2) + [u'.pageType, 0, 0, 0, 0, 0];
    SameCut(u.contents, t + Le(u.gpa, 8), u'.contents, t' + Le(u'.gpa, 8));
    SameCut(t, Le(u.gpa, 8), t', Le(u'.gpa, 8));
    LeInjective(u.gpa, u'.gpa, 8);
    assert t[2] == u.pageType && t'[2] == u'.pageType;
  }

  /** Different pages, or the same page behind different digests, are hashed as different bytes. */
  lemma PageInfoInjective(ld: bytes, u: Update, ld': bytes, u': Update)
    requires |ld| == |ld'| == 48 && ValidUpdate(u) && ValidUpdate(u')
    requires PageInfo(ld, u) == PageInfo(ld', u')
    ensures ld == ld' && u == u'
  {
    hide Tail, ValidUpdate;
    SameCut(ld, Tail(u), ld', Tail(u'));
    TailInjective(u, u');
  }

  /** Equally many updates that lead to the same digest start from the same digest and are the same pages with the same
      types, addresses and contents, or two records collide. */
  lemma DigestDetermines(h: Hash, ld: bytes, us: seq<Update>, ld': bytes, vs: seq<Update>)
    requires |ld| == |ld'| == 48 && |us| == |vs| && AllValid(us) && AllValid(vs)
    requires Launched(h, ld, us) == Launched(h, ld', vs)
    ensures (ld == ld' && us == vs) || Collides(h, ChainPair(h, ld, Tails(us), ld', Tails(vs)))
  {
    hide Extended, ChainPair, Tail, ValidUpdate;
    EqualChains(h, ld, Tails(us), ld', Tails(vs));
    if Tails(us) == Tails(vs) {
      forall i | 0 <= i < |us| ensures us[i] == vs[i] {
        assert Tails(us)[i] == Tails(vs)[i];
        TailInjective(us[i], vs[i]);
      }
    }
  }

  /** The last page in which two images differ. */
  function PagePair(a: bytes, b: bytes, n: nat): (bytes, bytes)
    requires n * 4096 <= |a| && n * 4096 <= |b|
  {
    if n == 0 then ([], [])
    else if PageAt(a, n - 1) != PageAt(b, n - 1) then (PageAt(a, n - 1), PageAt(b, n - 1))
    else PagePair(a, b, n - 1)
  }

  lemma LastPage(a: bytes, n: nat)
    requires 0 < n && n * 4096 <= |a|
    ensures a[..n * 4096] == a[..(n - 1) * 4096] + PageAt(a, n - 1)
  {
  }

  /** Images whose page updates are the same are the same, or two of their pages collide. */
  lemma {:induction false} PagesDetermine(h: Hash, gpa: int, a: bytes, b: bytes, n: nat)
    requires n * 4096 <= |a| && n * 4096 <= |b| && NormalPages(h, gpa, a, n) == NormalPages(h, gpa, b, n)
    ensures a[..n * 4096] == b[..n * 4096] || Collides(h, PagePair(a, b, n))
  {
    hide NormalPages, PageAt;
    if n > 0 {
      var us, vs := NormalPages(h, gpa, a, n), NormalPages(h, gpa, b, n);
      assert us[n - 1] == vs[n - 1];
      assert NormalPages(h, gpa, a, n - 1) == us[..n - 1] && NormalPages(h, gpa, b, n - 1) == vs[..n - 1];
      PagesDetermine(h, gpa, a, b, n - 1);
      LastPage(a, n);
      LastPage(b, n);
    }
  }
}
