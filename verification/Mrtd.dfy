/** The build-time measurement of a TD's first pages: `compute_mrtd` of mrtd.py and `ovmf_measure_tdx` of measure.js. */
module Mrtd {
  import opened Bytes
  import opened Doubles
  import opened Hashing
  import opened GuidTable
  import opened Tdvf

  const MEM_PAGE_ADD: bytes := [0x4d, 0x45, 0x4d, 0x2e, 0x50, 0x41, 0x47, 0x45, 0x2e, 0x41, 0x44, 0x44]
  const MR_EXTEND: bytes := [0x4d, 0x52, 0x2e, 0x45, 0x58, 0x54, 0x45, 0x4e, 0x44]
  const RECORD_SIZE := 128
  const MR_EXTEND_GRANULARITY := 0x100
  const CHUNKS_PER_PAGE := 16

  datatype Op = Add(gpa: nat) | Extend(gpa: nat, contents: bytes)

  // ----- the operations of a section table

  /** The first `n` chunks of a page at this address. */
  function ChunkOps(fw: bytes, s: Section, gpa: nat, page: nat, n: nat): seq<Op> {
    if n == 0 then []
    else
      var at := MR_EXTEND_GRANULARITY * (n - 1);
      var off := s.dataOffset + PAGE_SIZE * page + at;
      ChunkOps(fw, s, gpa, page, n - 1) + [Extend(gpa + at, Slice(fw, off, off + MR_EXTEND_GRANULARITY))]
  }

  function PageOps(fw: bytes, s: Section, gpa: nat, page: nat): seq<Op> {
    (if Augmented(s) then [] else [Add(gpa)])
    + (if Extends(s) then ChunkOps(fw, s, gpa, page, CHUNKS_PER_PAGE) else [])
  }

  /** The address of a page, and the number measure.js computes for it. */
  function PyAddress(s: Section, page: nat): nat {
    s.memoryAddress + PAGE_SIZE * page
  }

  function JsAddress(s: Section, page: nat): nat {
    Double(s.memoryAddress + PAGE_SIZE * page)
  }

  /** The first `pages` pages of a section. */
  function SectionOps(fw: bytes, s: Section, pages: nat): seq<Op> {
    if pages == 0 then [] else SectionOps(fw, s, pages - 1) + PageOps(fw, s, PyAddress(s, pages - 1), pages - 1)
  }

  function JsSectionOps(fw: bytes, s: Section, pages: nat): seq<Op> {
    if pages == 0 then [] else JsSectionOps(fw, s, pages - 1) + PageOps(fw, s, JsAddress(s, pages - 1), pages - 1)
  }

  /** mrtd.py counts whole pages. */
  function PyPages(s: Section): nat {
    s.memoryDataSize / PAGE_SIZE
  }

  /** The loop of measure.js runs while the page number is below the (fractional) quotient. */
  function JsPages(s: Section): nat {
    (s.memoryDataSize + PAGE_SIZE - 1) / PAGE_SIZE
  }

  function PyOps(fw: bytes, sections: seq<Section>): seq<Op> {
    var n := |sections|;
    if n == 0 then [] else PyOps(fw, sections[..n - 1]) + SectionOps(fw, sections[n - 1], PyPages(sections[n - 1]))
  }

  /** Of sections whose fields are numbers. */
  function NumberOps(fw: bytes, sections: seq<Section>): seq<Op> {
    var n := |sections|;
    if n == 0 then [] else NumberOps(fw, sections[..n - 1]) + JsSectionOps(fw, sections[n - 1], JsPages(sections[n - 1]))
  }

  function JsOps(fw: bytes, sections: seq<Section>): seq<Op> {
    NumberOps(fw, Numbers(sections))
  }

  // ----- the measured bytes

  function Record(tag: bytes, gpa: nat): (b: bytes)
    requires |tag| <= 16
    ensures |b| == RECORD_SIZE
  {
    tag + Zeros(16 - |tag|) + Le(gpa, 8) + Zeros(104)
  }

  function EncodeOp(op: Op): bytes {
    match op
    case Add(gpa) => Record(MEM_PAGE_ADD, gpa)
    case Extend(gpa, contents) => Record(MR_EXTEND, gpa) + contents
  }

  function Stream(ops: seq<Op>): bytes {
    var n := |ops|;
    if n == 0 then [] else Stream(ops[..n - 1]) + EncodeOp(ops[n - 1])
  }

  predicate Packable(op: Op) {
    op.gpa < Pow256(8)
  }

  predicate AllPackable(ops: seq<Op>) {
    forall i | 0 <= i < |ops| :: Packable(ops[i])
  }

  /** `struct.pack` raises on an address of more than 64 bits. */
  function PyStream(fw: bytes, sections: seq<Section>): Option<bytes> {
    if AllPackable(PyOps(fw, sections)) then Some(Stream(PyOps(fw, sections))) else None
  }

  /** `setBigUint64` cuts it. */
  function JsStream(fw: bytes, sections: seq<Section>): bytes {
    Stream(JsOps(fw, sections))
  }

  // ----- the nested loops

  lemma RecordWritten(tag: bytes, gpa: nat)
    requires |tag| <= 16
    ensures Put(Zeros(RECORD_SIZE), 0, tag).Some?
    ensures Put(Put(Zeros(RECORD_SIZE), 0, tag).value, 16, Le(gpa, 8)) == Some(Record(tag, gpa))
  {
    hide Le;
    var first := Put(Zeros(RECORD_SIZE), 0, tag).value;
    assert first == tag + Zeros(RECORD_SIZE - |tag|);
    assert first[..16] == tag + Zeros(16 - |tag|) && first[24..] == Zeros(104);
  }

  /** A zeroed record, the operation's name over its start and the address over bytes 16 to 24. */
  method BuildRecord(tag: bytes, gpa: nat) returns (rec: bytes)
    requires |tag| <= 16
    ensures rec == Record(tag, gpa)
  {
    RecordWritten(tag, gpa);
    hide Le, Put, Record;
    var buffer := new byte[128](_ => 0);
    assert buffer[..] == Zeros(RECORD_SIZE);
    var _ := Store(buffer, 0, tag);
    var _ := Store(buffer, 16, Le(gpa, 8));
    rec := buffer[..];
  }

  method PackRecord(tag: bytes, gpa: nat) returns (r: Option<bytes>)
    requires |tag| <= 16
    ensures r == if gpa < Pow256(8) then Some(Record(tag, gpa)) else None
  {
    PowValues();
    if gpa >= 0x1_0000_0000_0000_0000 { return None; }
    var rec := BuildRecord(tag, gpa);
    r := Some(rec);
  }

  lemma StreamSnoc(ops: seq<Op>, op: Op)
    ensures Stream(ops + [op]) == Stream(ops) + EncodeOp(op)
    ensures AllPackable(ops + [op]) <==> AllPackable(ops) && Packable(op)
  {
    hide EncodeOp, Packable;
    assert (ops + [op])[..|ops|] == ops;
    assert AllPackable(ops + [op]) ==> Packable((ops + [op])[|ops|]);
    assert forall i | 0 <= i < |ops| :: (ops + [op])[i] == ops[i];
  }

  lemma PackableConcat(xs: seq<Op>, ys: seq<Op>)
    ensures AllPackable(xs + ys) <==> AllPackable(xs) && AllPackable(ys)
  {
    hide Packable;
    assert forall i | 0 <= i < |xs| :: (xs + ys)[i] == xs[i];
    assert forall i | 0 <= i < |ys| :: (xs + ys)[|xs| + i] == ys[i];
    if AllPackable(xs) && AllPackable(ys) {
      forall i | 0 <= i < |xs + ys| ensures Packable((xs + ys)[i]) {
        if i >= |xs| {
          assert (xs + ys)[i] == ys[i - |xs|];
        }
      }
    }
  }

  lemma EncodedAs(gpa: nat, contents: bytes)
    ensures EncodeOp(Add(gpa)) == Record(MEM_PAGE_ADD, gpa) && (Packable(Add(gpa)) <==> gpa < Pow256(8))
    ensures EncodeOp(Extend(gpa, contents)) == Record(MR_EXTEND, gpa) + contents
    ensures Packable(Extend(gpa, contents)) <==> gpa < Pow256(8)
  {
  }

  lemma {:induction false} ChunksUnpackable(fw: bytes, s: Section, gpa: nat, page: nat, i: nat, n: nat)
    requires i <= n && !AllPackable(ChunkOps(fw, s, gpa, page, i))
    ensures !AllPackable(ChunkOps(fw, s, gpa, page, n))
  {
    if i < n {
      ChunksUnpackable(fw, s, gpa, page, i, n - 1);
      hide AllPackable, Slice;
      var ops := ChunkOps(fw, s, gpa, page, n);
      PackableConcat(ChunkOps(fw, s, gpa, page, n - 1), [ops[|ops| - 1]]);
    }
  }

  lemma NoOps()
    ensures AllPackable([]) && Stream([]) == []
  {
  }

  /** The chunks of one page, hashed behind what was hashed before. */
  method MeasureChunks(fw: bytes, s: Section, gpa: nat, page: nat, fed: bytes, ghost ops: seq<Op>) returns (r: Option<bytes>)
    requires fed == Stream(ops)
    ensures var chunks := ChunkOps(fw, s, gpa, page, CHUNKS_PER_PAGE);
            r == if AllPackable(chunks) then Some(Stream(ops + chunks)) else None
  {
    hide Stream, EncodeOp, Record, Slice, Packable, AllPackable;
    NoOps();
    var out := fed;
    assert ops + [] == ops;
    for chunk := 0 to CHUNKS_PER_PAGE
      invariant AllPackable(ChunkOps(fw, s, gpa, page, chunk)) && out == Stream(ops + ChunkOps(fw, s, gpa, page, chunk))
    {
      var caddr := gpa + chunk * MR_EXTEND_GRANULARITY;
      var off := s.dataOffset + page * PAGE_SIZE + chunk * MR_EXTEND_GRANULARITY;
      ghost var chunks, op := ChunkOps(fw, s, gpa, page, chunk), Extend(caddr, Slice(fw, off, off + MR_EXTEND_GRANULARITY));
      assert ChunkOps(fw, s, gpa, page, chunk + 1) == chunks + [op];
      EncodedAs(caddr, op.contents);
      StreamSnoc(chunks, op);
      Assoc(ops, chunks, [op]);
      StreamSnoc(ops + chunks, op);
      var rec := PackRecord(MR_EXTEND, caddr);
      if rec.None? {
        ChunksUnpackable(fw, s, gpa, page, chunk + 1, CHUNKS_PER_PAGE);
        return None;
      }
      Assoc(out, rec.value, op.contents);
      out := out + rec.value;
      out := out + Slice(fw, off, off + MR_EXTEND_GRANULARITY);
    }
    r := Some(out);
  }

  /** The operations of one page, hashed behind what was hashed before. */
  method MeasurePage(fw: bytes, s: Section, gpa: nat, page: nat, fed: bytes, ghost ops: seq<Op>) returns (r: Option<bytes>)
    requires fed == Stream(ops)
    ensures var added := PageOps(fw, s, gpa, page);
            r == if AllPackable(added) then Some(Stream(ops + added)) else None
  {
    hide Stream, EncodeOp, Record, Packable, AllPackable, ChunkOps;
    NoOps();
    var out := fed;
    ghost var first: seq<Op> := [];
    assert ops + first == ops;
    if !Augmented(s) {
      EncodedAs(gpa, []);
      first := [Add(gpa)];
      StreamSnoc([], Add(gpa));
      StreamSnoc(ops, Add(gpa));
      PackableConcat(first, if Extends(s) then ChunkOps(fw, s, gpa, page, CHUNKS_PER_PAGE) else []);
      assert [] + [Add(gpa)] == [Add(gpa)];
      var rec := PackRecord(MEM_PAGE_ADD, gpa);
      if rec.None? { return None; }
      out := out + rec.value;
    }
    if Extends(s) {
      Assoc(ops, first, ChunkOps(fw, s, gpa, page, CHUNKS_PER_PAGE));
      PackableConcat(first, ChunkOps(fw, s, gpa, page, CHUNKS_PER_PAGE));
      r := MeasureChunks(fw, s, gpa, page, out, ops + first);
    } else {
      assert first + [] == first;
      r := Some(out);
    }
  }

  lemma {:induction false} PagesUnpackable(fw: bytes, s: Section, i: nat, n: nat)
    requires i <= n && !AllPackable(SectionOps(fw, s, i))
    ensures !AllPackable(SectionOps(fw, s, n))
  {
    if i < n {
      PagesUnpackable(fw, s, i, n - 1);
      hide AllPackable, PageOps;
      PackableConcat(SectionOps(fw, s, n - 1), PageOps(fw, s, PyAddress(s, n - 1), n - 1));
    }
  }

  lemma {:induction false} SectionsUnpackable(fw: bytes, sections: seq<Section>, i: nat)
    requires i <= |sections| && !AllPackable(PyOps(fw, sections[..i]))
    ensures !AllPackable(PyOps(fw, sections))
    decreases |sections|
  {
    var n := |sections|;
    if i == n {
      assert sections[..n] == sections;
    } else {
      assert sections[..n - 1][..i] == sections[..i];
      SectionsUnpackable(fw, sections[..n - 1], i);
      hide AllPackable, SectionOps;
      PackableConcat(PyOps(fw, sections[..n - 1]), SectionOps(fw, sections[n - 1], PyPages(sections[n - 1])));
    }
  }

  /** What mrtd.py feeds to its hash object. */
  method ComputeMrtd(fw: bytes, sections: seq<Section>) returns (r: Option<bytes>)
    ensures r == PyStream(fw, sections)
  {
    hide Stream, AllPackable, PageOps;
    NoOps();
    var h: bytes := [];
    assert sections[..0] == [];
    for i := 0 to |sections|
      invariant AllPackable(PyOps(fw, sections[..i])) && h == Stream(PyOps(fw, sections[..i]))
    {
      var s := sections[i];
      ghost var before := PyOps(fw, sections[..i]);
      assert sections[..i + 1][..i] == sections[..i];
      assert before + [] == before;
      for page := 0 to s.memoryDataSize / PAGE_SIZE
        invariant AllPackable(SectionOps(fw, s, page)) && h == Stream(before + SectionOps(fw, s, page))
      {
        var gpa := s.memoryAddress + page * PAGE_SIZE;
        assert gpa == PyAddress(s, page);
        PackableConcat(SectionOps(fw, s, page), PageOps(fw, s, gpa, page));
        Assoc(before, SectionOps(fw, s, page), PageOps(fw, s, gpa, page));
        var more := MeasurePage(fw, s, gpa, page, h, before + SectionOps(fw, s, page));
        if more.None? {
          PagesUnpackable(fw, s, page + 1, PyPages(s));
          PackableConcat(before, SectionOps(fw, s, PyPages(s)));
          SectionsUnpackable(fw, sections, i + 1);
          return None;
        }
        h := more.value;
      }
      PackableConcat(before, SectionOps(fw, s, PyPages(s)));
    }
    assert sections[..|sections|] == sections;
    r := Some(h);
  }

  /** The chunks `ovmf_measure_tdx` collects for one page. */
  method CollectPage(fw: bytes, s: Section, gpa: nat, page: nat, collected: seq<bytes>, ghost ops: seq<Op>)
      returns (chunks: seq<bytes>)
    requires Concat(collected) == Stream(ops)
    ensures Concat(chunks) == Stream(ops + PageOps(fw, s, gpa, page))
  {
    hide Stream, EncodeOp, Record, Slice, Concat;
    chunks := collected;
    ghost var first: seq<Op> := [];
    assert ops + first == ops;
    if !Augmented(s) {
      EncodedAs(gpa, []);
      StreamSnoc(ops, Add(gpa));
      first := [Add(gpa)];
      var rec := BuildRecord(MEM_PAGE_ADD, gpa);
      ConcatLast(chunks, rec);
      chunks := chunks + [rec];
    }
    assert ops + first + [] == ops + first;
    if Extends(s) {
      for chunk := 0 to 16
        invariant Concat(chunks) == Stream(ops + first + ChunkOps(fw, s, gpa, page, chunk))
      {
        var caddr := gpa + chunk * 256;
        var rec := BuildRecord(MR_EXTEND, caddr);
        var off := s.dataOffset + page * 4096 + chunk * 256;
        var data := Slice(fw, off, off + 256);
        ghost var before := ChunkOps(fw, s, gpa, page, chunk);
        EncodedAs(caddr, data);
        Assoc(ops + first, before, [Extend(caddr, data)]);
        StreamSnoc(ops + first + before, Extend(caddr, data));
        ConcatLast(chunks, rec);
        ConcatLast(chunks + [rec], data);
        Assoc(Concat(chunks), rec, data);
        chunks := chunks + [rec];
        chunks := chunks + [data];
      }
      Assoc(ops, first, ChunkOps(fw, s, gpa, page, CHUNKS_PER_PAGE));
    } else {
      assert first + [] == first;
    }
  }

  /** The chunks `ovmf_measure_tdx` collects for sections whose fields are numbers, joined. */
  method CollectStream(fw: bytes, sections: seq<Section>) returns (stream: bytes)
    ensures stream == Stream(NumberOps(fw, sections))
  {
    hide Stream, PageOps, Concat, Double;
    NoOps();
    var chunks: seq<bytes> := [];
    assert sections[..0] == [];
    assert Concat([]) == [] by { NothingCollected(); }
    for i := 0 to |sections|
      invariant Concat(chunks) == Stream(NumberOps(fw, sections[..i]))
    {
      var s := sections[i];
      ghost var before := NumberOps(fw, sections[..i]);
      assert sections[..i + 1][..i] == sections[..i];
      assert before + [] == before;
      var page := 0;
      while page * 4096 < s.memoryDataSize
        invariant page <= JsPages(s) && Concat(chunks) == Stream(before + JsSectionOps(fw, s, page))
        decreases JsPages(s) - page
      {
        var gpa := Double(s.memoryAddress + page * 4096);
        assert gpa == JsAddress(s, page);
        Assoc(before, JsSectionOps(fw, s, page), PageOps(fw, s, gpa, page));
        chunks := CollectPage(fw, s, gpa, page, chunks, before + JsSectionOps(fw, s, page));
        page := page + 1;
      }
    }
    assert sections[..|sections|] == sections;
    stream := Join(chunks);
  }

  /** The stream `ovmf_measure_tdx` hashes. */
  method OvmfMeasureTdx(fw: bytes) returns (stream: Option<bytes>)
    ensures stream == if ParseJs(fw).Some? then Some(JsStream(fw, ParseJs(fw).value)) else None
  {
    hide ParseJs, Stream, NumberOps, Numbers;
    var sections := ParseSectionsJs(fw);
    if sections.None? { return None; }
    var collected := CollectStream(fw, sections.value);
    stream := Some(collected);
  }

  /** What mrtd.py hashes for an image. */
  method MrtdMain(fw: bytes) returns (r: Option<bytes>)
    ensures r == if ParseMrtd(fw).Some? then PyStream(fw, ParseMrtd(fw).value) else None
  {
    hide ParseMrtd, PyStream;
    var sections := ParseSectionsMrtd(fw);
    if sections.None? { return None; }
    r := ComputeMrtd(fw, sections.value);
  }

  lemma NothingCollected()
    ensures Concat([]) == []
  {
  }

  // ----- the stream can be read back

  function DecodeOps(b: bytes): Option<seq<Op>> {
    if b == [] then Some([])
    else if |b| < RECORD_SIZE then None
    else if b[..|MEM_PAGE_ADD|] == MEM_PAGE_ADD then
      var rest :- DecodeOps(b[RECORD_SIZE..]);
      Some([Add(UnLe(b[16..24]))] + rest)
    else if b[..|MR_EXTEND|] == MR_EXTEND && |b| >= RECORD_SIZE + MR_EXTEND_GRANULARITY then
      var rest :- DecodeOps(b[RECORD_SIZE + MR_EXTEND_GRANULARITY..]);
      Some([Extend(UnLe(b[16..24]), b[RECORD_SIZE..RECORD_SIZE + MR_EXTEND_GRANULARITY])] + rest)
    else None
  }

  /** A 64-bit address, and whole chunks. */
  predicate WellFormed(op: Op) {
    Packable(op) && (op.Extend? ==> |op.contents| == MR_EXTEND_GRANULARITY)
  }

  lemma RecordFields(tag: bytes, gpa: nat)
    requires |tag| <= 16 && gpa < Pow256(8)
    ensures Record(tag, gpa)[..|tag|] == tag && UnLe(Record(tag, gpa)[16..24]) == gpa
  {
    UnLeLe(gpa, 8);
    hide Le, UnLe, Pow256;
    assert Record(tag, gpa) == (tag + Zeros(16 - |tag|)) + Le(gpa, 8) + Zeros(104);
  }

  lemma {:induction false} StreamFromFront(ops: seq<Op>)
    requires ops != []
    ensures Stream(ops) == EncodeOp(ops[0]) + Stream(ops[1..])
  {
    hide EncodeOp;
    var n := |ops|;
    var front := ops[..n - 1];
    if n == 1 {
      assert Stream(front) == [] && Stream(ops[1..]) == [];
    } else {
      StreamFromFront(front);
      assert ops[1..][..n - 2] == front[1..];
      Assoc(EncodeOp(ops[0]), Stream(front[1..]), EncodeOp(ops[n - 1]));
    }
  }

  lemma DecodeOne(op: Op, rest: bytes)
    requires WellFormed(op) && DecodeOps(rest).Some?
    ensures DecodeOps(EncodeOp(op) + rest) == Some([op] + DecodeOps(rest).value)
  {
    hide Record;
    var b := EncodeOp(op) + rest;
    var tag := if op.Add? then MEM_PAGE_ADD else MR_EXTEND;
    var rec := Record(tag, op.gpa);
    RecordFields(tag, op.gpa);
    assert b[..RECORD_SIZE] == rec;
    assert b[..|tag|] == rec[..|tag|] && b[16..24] == rec[16..24];
    if op.Add? {
      assert b[RECORD_SIZE..] == rest;
    } else {
      assert b[RECORD_SIZE..RECORD_SIZE + MR_EXTEND_GRANULARITY] == op.contents;
      assert b[RECORD_SIZE + MR_EXTEND_GRANULARITY..] == rest;
      assert b[..12][..9] == MR_EXTEND;
      assert MEM_PAGE_ADD[1] != MR_EXTEND[1] && b[..12][1] == b[..9][1];
    }
  }

  /** A decoder recovers the exact sequence of operations, addresses and contents. */
  lemma {:induction false} DecodeStream(ops: seq<Op>)
    requires forall i | 0 <= i < |ops| :: WellFormed(ops[i])
    ensures DecodeOps(Stream(ops)) == Some(ops)
  {
    hide WellFormed, EncodeOp, DecodeOps;
    if ops == [] {
      NoOps();
      DecodeNothing();
    } else {
      StreamFromFront(ops);
      DecodeStream(ops[1..]);
      DecodeOne(ops[0], Stream(ops[1..]));
      assert ops == [ops[0]] + ops[1..];
    }
  }

  lemma DecodeNothing()
    ensures DecodeOps([]) == Some([])
  {
  }

  // ----- what the measurement determines

  /** Every section the Python parser accepted produces whole chunks. */
  predicate Measurable(fw: bytes, sections: seq<Section>) {
    AllAligned(sections) && AllInside(sections, fw)
  }

  lemma {:induction false} ChunksWhole(fw: bytes, s: Section, gpa: nat, page: nat, n: nat)
    requires s.dataOffset + PAGE_SIZE * page + MR_EXTEND_GRANULARITY * n <= |fw|
    ensures forall op <- ChunkOps(fw, s, gpa, page, n) :: op.Extend? && |op.contents| == MR_EXTEND_GRANULARITY
  {
    if n > 0 {
      ChunksWhole(fw, s, gpa, page, n - 1);
    }
  }

  lemma {:induction false} SectionWhole(fw: bytes, s: Section, pages: nat)
    requires Extends(s) ==> s.dataOffset + PAGE_SIZE * pages <= |fw|
    ensures forall op <- SectionOps(fw, s, pages) :: op.Extend? ==> |op.contents| == MR_EXTEND_GRANULARITY
  {
    if pages > 0 {
      SectionWhole(fw, s, pages - 1);
      hide ChunkOps;
      if Extends(s) {
        ChunksWhole(fw, s, PyAddress(s, pages - 1), pages - 1, CHUNKS_PER_PAGE);
      }
    }
  }

  lemma {:induction false} AllWhole(fw: bytes, sections: seq<Section>)
    requires Measurable(fw, sections)
    ensures forall op <- PyOps(fw, sections) :: op.Extend? ==> |op.contents| == MR_EXTEND_GRANULARITY
  {
    var n := |sections|;
    if n > 0 {
      var s := sections[n - 1];
      assert s in sections && forall t <- sections[..n - 1] :: t in sections;
      WholePages(s);
      AllWhole(fw, sections[..n - 1]);
      hide SectionOps;
      SectionWhole(fw, s, PyPages(s));
    }
  }

  lemma WholePages(s: Section)
    requires Aligned(s)
    ensures PyPages(s) == JsPages(s) && 0x1000 * PyPages(s) == s.memoryDataSize
  {
    assert s.memoryDataSize == 0x1000 * (s.memoryDataSize / 0x1000);
  }

  /** The address of a page of an aligned section is a double. */
  lemma AddressExact(s: Section, page: nat)
    requires Aligned(s) && Sized(s) && page < PyPages(s)
    ensures JsAddress(s, page) == PyAddress(s, page)
  {
    hide Double;
    WholePages(s);
    assert s.memoryAddress + 0x1000 * page == 0x1000 * (s.memoryAddress / 0x1000 + page);
    PagesAreDoubles(s.memoryAddress + 0x1000 * page);
  }

  lemma {:induction false} SectionExact(fw: bytes, s: Section, pages: nat)
    requires Aligned(s) && Sized(s) && pages <= PyPages(s)
    ensures JsSectionOps(fw, s, pages) == SectionOps(fw, s, pages)
  {
    hide PageOps, JsAddress, PyAddress, Aligned, Sized, PyPages;
    if pages > 0 {
      SectionExact(fw, s, pages - 1);
      AddressExact(s, pages - 1);
    }
  }

  lemma {:induction false} OpsExact(fw: bytes, sections: seq<Section>)
    requires AllAligned(sections) && forall s <- sections :: Sized(s)
    ensures NumberOps(fw, sections) == PyOps(fw, sections)
  {
    hide SectionOps, JsSectionOps, Aligned, Sized, PyPages, JsPages;
    var n := |sections|;
    if n > 0 {
      assert sections[n - 1] in sections && forall t <- sections[..n - 1] :: t in sections;
      OpsExact(fw, sections[..n - 1]);
      WholePages(sections[n - 1]);
      SectionExact(fw, sections[n - 1], PyPages(sections[n - 1]));
    }
  }

  /** For sections that mrtd.py accepts, whose fields have 64 bits, the browser hashes the same stream whenever mrtd.py gets
      through, none of its numbers rounded, and mrtd.py fails exactly for an address of more than 64 bits. */
  lemma StreamsAgree(fw: bytes, sections: seq<Section>)
    requires AllAligned(sections) && forall s <- sections :: Sized(s)
    ensures PyStream(fw, sections) == if AllPackable(JsOps(fw, sections)) then Some(JsStream(fw, sections)) else None
  {
    hide Stream, AllPackable, Aligned, Sized, Numbers, NumberOps, PyOps;
    AlignedNumbers(sections);
    OpsExact(fw, sections);
  }

  /** From the image on: where the browser measures a well-formed image, mrtd.py hashes the same stream or refuses, and it
      refuses exactly for a misaligned section, measured contents beyond the image, or an address of more than 64 bits. */
  lemma MeasurementsAgree(front: bytes, entries: seq<Entry>, tail: bytes, k: nat)
    requires |tail| == BYTES_AFTER_TABLE_FOOTER && |Table(entries)| + ENTRY_HEADER < 0x1_0000 && |front| >= 18
    requires OnlyAt(entries, k) && ParseJs(Image(front, entries, tail)).Some?
    ensures var fw := Image(front, entries, tail);
            var sections := ParseJs(fw).value;
            && ParseMrtd(fw) == (if Measurable(fw, sections) then Some(sections) else None)
            && (Measurable(fw, sections) ==>
                  PyStream(fw, sections) == if AllPackable(JsOps(fw, sections)) then Some(JsStream(fw, sections)) else None)
  {
    hide Image, Table, OnlyAt, AllAligned, AllInside, JsAt, RtmrAt, MrtdAt, MetaOffsetJs, MetaOffsetMrtd;
    hide PyStream, JsStream, JsOps, AllPackable, Sized;
    var fw := Image(front, entries, tail);
    ParsedSized(fw);
    MrtdWalk(front, entries, tail, k);
    JsWalk(front, entries, tail, k);
    ParsersAgree(fw, |fw| - MetaOffsetJs(fw).value);
    if Measurable(fw, ParseJs(fw).value) {
      StreamsAgree(fw, ParseJs(fw).value);
    }
  }

  /** Equal measurements mean equal sequences of operations, or the two streams collide. */
  lemma MrtdDetermines(h: Hash, fw: bytes, sections: seq<Section>, fw': bytes, sections': seq<Section>)
    requires Measurable(fw, sections) && Measurable(fw', sections')
    requires PyStream(fw, sections).Some? && PyStream(fw', sections').Some?
    requires h(PyStream(fw, sections).value) == h(PyStream(fw', sections').value)
    ensures || PyOps(fw, sections) == PyOps(fw', sections')
            || Collides(h, (PyStream(fw, sections).value, PyStream(fw', sections').value))
  {
    hide Stream, Measurable;
    AllWhole(fw, sections);
    AllWhole(fw', sections');
    if Stream(PyOps(fw, sections)) == Stream(PyOps(fw', sections')) {
      DecodeStream(PyOps(fw, sections));
      DecodeStream(PyOps(fw', sections'));
    }
  }

  /** The chunks of a list of operations one after another. */
  function Contents(ops: seq<Op>): bytes {
    var n := |ops|;
    if n == 0 then [] else Contents(ops[..n - 1]) + (if ops[n - 1].Extend? then ops[n - 1].contents else [])
  }

  lemma {:induction false} ContentsConcat(xs: seq<Op>, ys: seq<Op>)
    ensures Contents(xs + ys) == Contents(xs) + Contents(ys)
  {
    if ys == [] {
      assert xs + ys == xs;
    } else {
      var n := |ys|;
      assert (xs + ys)[..|xs| + n - 1] == xs + ys[..n - 1];
      ContentsConcat(xs, ys[..n - 1]);
    }
  }

  lemma ContentsSnoc(ops: seq<Op>, op: Op)
    ensures Contents(ops + [op]) == Contents(ops) + (if op.Extend? then op.contents else [])
  {
    assert (ops + [op])[..|ops|] == ops;
  }

  lemma {:induction false} ChunkContents(fw: bytes, s: Section, gpa: nat, page: nat, n: nat)
    requires s.dataOffset + PAGE_SIZE * page + MR_EXTEND_GRANULARITY * n <= |fw|
    ensures var at := s.dataOffset + PAGE_SIZE * page;
            Contents(ChunkOps(fw, s, gpa, page, n)) == fw[at..at + MR_EXTEND_GRANULARITY * n]
  {
    if n > 0 {
      var at := s.dataOffset + PAGE_SIZE * page;
      var mid := at + MR_EXTEND_GRANULARITY * (n - 1);
      ChunkContents(fw, s, gpa, page, n - 1);
      hide Contents;
      Split2(fw, at, mid, mid + MR_EXTEND_GRANULARITY);
      var caddr := gpa + MR_EXTEND_GRANULARITY * (n - 1);
      ContentsSnoc(ChunkOps(fw, s, gpa, page, n - 1), Extend(caddr, Slice(fw, mid, mid + MR_EXTEND_GRANULARITY)));
    }
  }

  /** The contents extended for an extending section are exactly its bytes of the image, in order. */
  lemma {:induction false} SectionContents(fw: bytes, s: Section, pages: nat)
    requires s.dataOffset + PAGE_SIZE * pages <= |fw|
    ensures Contents(SectionOps(fw, s, pages)) ==
      if Extends(s) then fw[s.dataOffset..s.dataOffset + PAGE_SIZE * pages] else []
  {
    hide SectionOps, PageOps, Contents, Extends;
    NoSection(fw, s);
    if pages > 0 {
      SectionContents(fw, s, pages - 1);
      var gpa := PyAddress(s, pages - 1);
      PageContents(fw, s, gpa, pages - 1);
      SectionStep(fw, s, pages);
      ContentsConcat(SectionOps(fw, s, pages - 1), PageOps(fw, s, gpa, pages - 1));
      if Extends(s) {
        var lo, mid := s.dataOffset, s.dataOffset + PAGE_SIZE * (pages - 1);
        Split2(fw, lo, mid, mid + PAGE_SIZE);
      }
    }
  }

  lemma NoSection(fw: bytes, s: Section)
    ensures SectionOps(fw, s, 0) == [] && Contents([]) == []
    ensures Addresses([], true) == [] && Addresses([], false) == []
  {
  }

  lemma PageContents(fw: bytes, s: Section, gpa: nat, page: nat)
    requires s.dataOffset + PAGE_SIZE * (page + 1) <= |fw|
    ensures var at := s.dataOffset + PAGE_SIZE * page;
            Contents(PageOps(fw, s, gpa, page)) == if Extends(s) then fw[at..at + PAGE_SIZE] else []
  {
    hide ChunkOps;
    var first := if Augmented(s) then [] else [Add(gpa)];
    ContentsConcat(first, if Extends(s) then ChunkOps(fw, s, gpa, page, CHUNKS_PER_PAGE) else []);
    if Extends(s) {
      ChunkContents(fw, s, gpa, page, CHUNKS_PER_PAGE);
    }
  }

  /** A measured section of an accepted image: all of its declared memory comes from its bytes of the image. */
  lemma MeasuredContents(fw: bytes, s: Section)
    requires Aligned(s) && Inside(s, fw) && Extends(s)
    ensures Contents(SectionOps(fw, s, PyPages(s))) == fw[s.dataOffset..s.dataOffset + s.memoryDataSize]
  {
    assert PAGE_SIZE * PyPages(s) == s.memoryDataSize;
    SectionContents(fw, s, PyPages(s));
  }

  // ----- the addresses an operation sequence names

  function Addresses(ops: seq<Op>, added: bool): seq<nat> {
    var n := |ops|;
    if n == 0 then [] else Addresses(ops[..n - 1], added) + (if ops[n - 1].Add? == added then [ops[n - 1].gpa] else [])
  }

  /** `n` addresses from `base` on, `step` apart. */
  function Grid(base: nat, step: nat, n: nat): seq<nat> {
    seq(n, i requires 0 <= i < n => base + step * i)
  }

  lemma {:induction false} AddressesConcat(xs: seq<Op>, ys: seq<Op>, added: bool)
    ensures Addresses(xs + ys, added) == Addresses(xs, added) + Addresses(ys, added)
  {
    if ys == [] {
      assert xs + ys == xs;
    } else {
      var n := |ys|;
      assert (xs + ys)[..|xs| + n - 1] == xs + ys[..n - 1];
      AddressesConcat(xs, ys[..n - 1], added);
    }
  }

  lemma GridConcat(base: nat, step: nat, m: nat, n: nat)
    ensures Grid(base, step, m) + Grid(base + step * m, step, n) == Grid(base, step, m + n)
  {
    forall i | 0 <= i < n ensures base + step * m + step * i == base + step * (m + i) {
    }
  }

  lemma GridOne(base: nat, step: nat)
    ensures Grid(base, step, 1) == [base] && Grid(base, step, 0) == []
  {
  }

  lemma AddressesOne(op: Op, added: bool)
    ensures Addresses([op], added) == if op.Add? == added then [op.gpa] else []
  {
    assert [op][..0] == [];
  }

  lemma ChunkStep(fw: bytes, s: Section, gpa: nat, page: nat, n: nat) returns (op: Op)
    requires n > 0
    ensures op.Extend? && op.gpa == gpa + MR_EXTEND_GRANULARITY * (n - 1)
    ensures ChunkOps(fw, s, gpa, page, n) == ChunkOps(fw, s, gpa, page, n - 1) + [op]
  {
    hide Slice;
    var at := MR_EXTEND_GRANULARITY * (n - 1);
    var off := s.dataOffset + PAGE_SIZE * page + at;
    op := Extend(gpa + at, Slice(fw, off, off + MR_EXTEND_GRANULARITY));
  }

  lemma SectionStep(fw: bytes, s: Section, pages: nat)
    requires pages > 0
    ensures SectionOps(fw, s, pages) ==
      SectionOps(fw, s, pages - 1) + PageOps(fw, s, PyAddress(s, pages - 1), pages - 1)
  {
  }

  lemma NoChunks(fw: bytes, s: Section, gpa: nat, page: nat)
    ensures ChunkOps(fw, s, gpa, page, 0) == []
  {
  }

  lemma GridMore(base: nat, step: nat, n: nat)
    ensures Grid(base, step, n) + [base + step * n] == Grid(base, step, n + 1)
  {
    hide Grid;
    GridConcat(base, step, n, 1);
    GridOne(base + step * n, step);
  }

  lemma {:induction false} ChunkAddresses(fw: bytes, s: Section, gpa: nat, page: nat, n: nat)
    ensures Addresses(ChunkOps(fw, s, gpa, page, n), true) == []
    ensures Addresses(ChunkOps(fw, s, gpa, page, n), false) == Grid(gpa, 0x100, n)
  {
    hide ChunkOps, Addresses, Grid;
    if n == 0 {
      NoChunks(fw, s, gpa, page);
      NoSection(fw, s);
      GridOne(gpa, 0x100);
    } else {
      ChunkAddresses(fw, s, gpa, page, n - 1);
      var op := ChunkStep(fw, s, gpa, page, n);
      AddressesConcat(ChunkOps(fw, s, gpa, page, n - 1), [op], true);
      AddressesConcat(ChunkOps(fw, s, gpa, page, n - 1), [op], false);
      AddressesOne(op, true);
      AddressesOne(op, false);
      GridMore(gpa, 0x100, n - 1);
    }
  }

  lemma PageAddresses(fw: bytes, s: Section, gpa: nat, page: nat)
    ensures Addresses(PageOps(fw, s, gpa, page), true) == (if Augmented(s) then [] else [gpa])
    ensures Addresses(PageOps(fw, s, gpa, page), false) == (if Extends(s) then Grid(gpa, 0x100, 16) else [])
  {
    hide ChunkOps, Augmented, Extends, Addresses, Grid;
    NoSection(fw, s);
    var first := if Augmented(s) then [] else [Add(gpa)];
    var chunks := if Extends(s) then ChunkOps(fw, s, gpa, page, CHUNKS_PER_PAGE) else [];
    AddressesConcat(first, chunks, true);
    AddressesConcat(first, chunks, false);
    AddressesOne(Add(gpa), true);
    AddressesOne(Add(gpa), false);
    ChunkAddresses(fw, s, gpa, page, 16);
  }

  lemma GridPage(base: nat, pages: nat)
    ensures Grid(base, 0x1000, pages) + [base + 0x1000 * pages] == Grid(base, 0x1000, pages + 1)
    ensures Grid(base, 0x100, 16 * pages) + Grid(base + 0x1000 * pages, 0x100, 16) == Grid(base, 0x100, 16 * (pages + 1))
  {
    hide Grid;
    GridMore(base, 0x1000, pages);
    GridConcat(base, 0x100, 16 * pages, 16);
  }

  /** A section adds every one of its pages, unless they are augmented later, and extends every 256 bytes of them when
      it is measured, always in ascending order. */
  lemma {:induction false} SectionAddresses(fw: bytes, s: Section, pages: nat)
    ensures Addresses(SectionOps(fw, s, pages), true)
         == if Augmented(s) then [] else Grid(s.memoryAddress, 0x1000, pages)
    ensures Addresses(SectionOps(fw, s, pages), false)
         == if Extends(s) then Grid(s.memoryAddress, 0x100, 16 * pages) else []
  {
    hide SectionOps, PageOps, Augmented, Extends, Addresses, Grid;
    if pages == 0 {
      NoSection(fw, s);
      GridOne(s.memoryAddress, 0x1000);
      GridOne(s.memoryAddress, 0x100);
    } else {
      var gpa := s.memoryAddress + 0x1000 * (pages - 1);
      SectionStep(fw, s, pages);
      SectionAddresses(fw, s, pages - 1);
      PageAddresses(fw, s, gpa, pages - 1);
      AddressesConcat(SectionOps(fw, s, pages - 1), PageOps(fw, s, gpa, pages - 1), true);
      AddressesConcat(SectionOps(fw, s, pages - 1), PageOps(fw, s, gpa, pages - 1), false);
      GridPage(s.memoryAddress, pages - 1);
    }
  }
}
