/** The bytes both predictors hash for an image, spelled out page by page: the records of TDH.MEM.PAGE.ADD and TDH.MR.EXTEND
    (Intel TDX Module Base Architecture Specification, "Measurement"). */
module MrtdBytes {
  import opened Bytes
  import opened Tdvf
  import opened Mrtd

  function Ascii(s: string): (b: bytes)
    ensures |b| == |s|
  {
    seq(|s|, i requires 0 <= i < |s| => s[i] as int % 256)
  }

  /** A record of 128 bytes: the name in the first twelve, and the address in bytes 16 to 24. */
  function AddRecord(gpa: nat): bytes {
    Ascii("MEM.PAGE.ADD") + Zeros(4) + Le(gpa, 8) + Zeros(104)
  }

  function ExtendRecord(gpa: nat): bytes {
    Ascii("MR.EXTEND") + Zeros(7) + Le(gpa, 8) + Zeros(104)
  }

  /** The first `n` of the sixteen chunks of a page, each a record and then 256 bytes of the image. */
  function ChunksOf(fw: bytes, gpa: nat, at: nat, n: nat): bytes {
    if n == 0 then []
    else
      ChunksOf(fw, gpa, at, n - 1) + ExtendRecord(gpa + 256 * (n - 1))
      + Slice(fw, at + 256 * (n - 1), at + 256 * (n - 1) + 256)
  }

  /** One page: it is added unless bit 1 of the attributes says that the guest adds it later, and then extended if bit 0 says
      so. */
  function PageOf(fw: bytes, s: Section, page: nat): bytes {
    var gpa, at := s.memoryAddress + 4096 * page, s.dataOffset + 4096 * page;
    match s.attributes % 4
    case 0 => AddRecord(gpa)
    case 1 => AddRecord(gpa) + ChunksOf(fw, gpa, at, 16)
    case 2 => []
    case _ => ChunksOf(fw, gpa, at, 16)
  }

  function PagesOf(fw: bytes, s: Section, pages: nat): bytes {
    if pages == 0 then [] else PagesOf(fw, s, pages - 1) + PageOf(fw, s, pages - 1)
  }

  /** The sections in the order of the table, each page by page. */
  function ImageOf(fw: bytes, sections: seq<Section>): bytes {
    var n := |sections|;
    if n == 0 then []
    else ImageOf(fw, sections[..n - 1]) + PagesOf(fw, sections[n - 1], sections[n - 1].memoryDataSize / 4096)
  }

  lemma NamesSpelled()
    ensures MEM_PAGE_ADD == Ascii("MEM.PAGE.ADD") && MR_EXTEND == Ascii("MR.EXTEND")
  {
  }

  lemma RecordsSpelled(gpa: nat)
    ensures EncodeOp(Add(gpa)) == AddRecord(gpa)
    ensures forall contents: bytes :: EncodeOp(Extend(gpa, contents)) == ExtendRecord(gpa) + contents
  {
    hide Le, Zeros, Ascii;
    NamesSpelled();
  }

  lemma NoStream()
    ensures Stream([]) == []
  {
  }

  lemma {:induction false} StreamJoins(xs: seq<Op>, ys: seq<Op>)
    ensures Stream(xs + ys) == Stream(xs) + Stream(ys)
    decreases |ys|
  {
    hide Stream, EncodeOp;
    if ys == [] {
      NoStream();
      assert xs + ys == xs && Stream(xs) + [] == Stream(xs);
    } else {
      var n := |ys| - 1;
      var front, last := ys[..n], ys[n];
      assert front + [last] == ys && (xs + front) + [last] == xs + ys;
      StreamJoins(xs, front);
      StreamSnoc(front, last);
      StreamSnoc(xs + front, last);
      Assoc(Stream(xs), Stream(front), EncodeOp(last));
    }
  }

  lemma ChunkStep(fw: bytes, s: Section, gpa: nat, page: nat, n: nat)
    ensures ChunkOps(fw, s, gpa, page, 0) == []
    ensures var at := s.dataOffset + 4096 * page + 256 * n;
            ChunkOps(fw, s, gpa, page, n + 1) == ChunkOps(fw, s, gpa, page, n) + [Extend(gpa + 256 * n, Slice(fw, at, at + 256))]
  {
    hide Slice;
  }

  lemma ChunksStep(fw: bytes, gpa: nat, at: nat, n: nat)
    ensures ChunksOf(fw, gpa, at, 0) == []
    ensures ChunksOf(fw, gpa, at, n + 1) ==
      ChunksOf(fw, gpa, at, n) + ExtendRecord(gpa + 256 * n) + Slice(fw, at + 256 * n, at + 256 * n + 256)
  {
    hide Slice, ExtendRecord;
  }

  lemma {:induction false} ChunksSpelled(fw: bytes, s: Section, gpa: nat, page: nat, n: nat)
    ensures Stream(ChunkOps(fw, s, gpa, page, n)) == ChunksOf(fw, gpa, s.dataOffset + 4096 * page, n)
  {
    hide Stream, EncodeOp, ChunkOps, ChunksOf, ExtendRecord, Slice;
    if n == 0 {
      ChunkStep(fw, s, gpa, page, 0);
      ChunksStep(fw, gpa, s.dataOffset + 4096 * page, 0);
      NoStream();
    } else {
      var m := n - 1;
      var at := s.dataOffset + 4096 * page + 256 * m;
      ChunksSpelled(fw, s, gpa, page, m);
      ChunkStep(fw, s, gpa, page, m);
      ChunksStep(fw, gpa, s.dataOffset + 4096 * page, m);
      StreamSnoc(ChunkOps(fw, s, gpa, page, m), Extend(gpa + 256 * m, Slice(fw, at, at + 256)));
      RecordsSpelled(gpa + 256 * m);
      Assoc(Stream(ChunkOps(fw, s, gpa, page, m)), ExtendRecord(gpa + 256 * m), Slice(fw, at, at + 256));
    }
  }

  lemma OneAdd(gpa: nat)
    ensures Stream([Add(gpa)]) == AddRecord(gpa)
  {
    hide Stream, EncodeOp, AddRecord;
    NoStream();
    StreamSnoc([], Add(gpa));
    RecordsSpelled(gpa);
    assert [] + [Add(gpa)] == [Add(gpa)];
  }

  lemma AttributeBits(s: Section)
    ensures Extends(s) <==> s.attributes % 4 in {1, 3}
    ensures Augmented(s) <==> s.attributes % 4 in {2, 3}
  {
  }

  lemma PageSpelled(fw: bytes, s: Section, page: nat)
    ensures Stream(PageOps(fw, s, s.memoryAddress + 4096 * page, page)) == PageOf(fw, s, page)
  {
    hide Stream, ChunkOps, ChunksOf, AddRecord, Extends, Augmented;
    var gpa := s.memoryAddress + 4096 * page;
    AttributeBits(s);
    NoStream();
    OneAdd(gpa);
    ChunksSpelled(fw, s, gpa, page, 16);
    StreamJoins([Add(gpa)], ChunkOps(fw, s, gpa, page, 16));
    assert [Add(gpa)] + [] == [Add(gpa)];
    assert [] + ChunkOps(fw, s, gpa, page, 16) == ChunkOps(fw, s, gpa, page, 16);
  }

  lemma {:induction false} PagesSpelled(fw: bytes, s: Section, pages: nat)
    ensures Stream(SectionOps(fw, s, pages)) == PagesOf(fw, s, pages)
  {
    hide Stream, PageOps, PageOf;
    if pages == 0 {
      NoStream();
    } else {
      PagesSpelled(fw, s, pages - 1);
      PageSpelled(fw, s, pages - 1);
      StreamJoins(SectionOps(fw, s, pages - 1), PageOps(fw, s, PyAddress(s, pages - 1), pages - 1));
    }
  }

  lemma {:induction false} SectionsSpelled(fw: bytes, sections: seq<Section>)
    ensures Stream(PyOps(fw, sections)) == ImageOf(fw, sections)
  {
    hide Stream, SectionOps, PagesOf;
    var n := |sections|;
    if n == 0 {
      NoStream();
    } else {
      SectionsSpelled(fw, sections[..n - 1]);
      PagesSpelled(fw, sections[n - 1], PyPages(sections[n - 1]));
      StreamJoins(PyOps(fw, sections[..n - 1]), SectionOps(fw, sections[n - 1], PyPages(sections[n - 1])));
    }
  }

  /** What mrtd.py hashes, if no address is too large, and what the browser hashes for sections that mrtd.py accepts. */
  lemma StreamIs(fw: bytes, sections: seq<Section>)
    ensures PyStream(fw, sections).Some? ==> PyStream(fw, sections) == Some(ImageOf(fw, sections))
    ensures AllAligned(sections) && (forall s <- sections :: Sized(s)) && PyStream(fw, sections).Some? ==>
              JsStream(fw, sections) == ImageOf(fw, sections)
  {
    hide Stream, AllPackable, PyOps, JsStream, JsOps, ImageOf, Aligned, Sized;
    SectionsSpelled(fw, sections);
    if AllAligned(sections) && forall s <- sections :: Sized(s) {
      StreamsAgree(fw, sections);
    }
  }
}
