/** The TDVF metadata: its descriptor and section table, as three parsers read them (mrtd.py, rtmr0.py, measure.js). */
module Tdvf {
  import opened Bytes
  import opened Doubles
  import opened GuidTable

  const PAGE_SIZE := 0x1000
  const TD_CFV := 1
  const TD_HOB := 2
  const TEMP_MEM := 3
  const TDVF_TAG: bytes := [0x54, 0x44, 0x56, 0x46]

  datatype Section = Section(
    dataOffset: nat, rawDataSize: nat, memoryAddress: nat, memoryDataSize: nat, secType: nat, attributes: nat)

  /** ATTRIBUTE_MR_EXTEND and ATTRIBUTE_PAGE_AUG. */
  predicate Extends(s: Section) {
    s.attributes % 2 == 1
  }

  predicate Augmented(s: Section) {
    (s.attributes / 2) % 2 == 1
  }

  /** What both Python parsers insist on. */
  predicate Aligned(s: Section) {
    s.memoryAddress % PAGE_SIZE == 0 && s.memoryDataSize % PAGE_SIZE == 0 && s.rawDataSize <= s.memoryDataSize
  }

  /** What mrtd.py insists on besides: measured contents lie inside the image. */
  predicate Inside(s: Section, fw: bytes) {
    Extends(s) ==> s.dataOffset + s.memoryDataSize <= |fw|
  }

  // ----- rtmr0.py: slices never fail, a short one is a smaller number

  function PyInt(b: bytes, at: int, w: nat): nat {
    UnLe(RelSlice(b, at, at + w))
  }

  function PySection(fw: bytes, at: int): Section {
    Section(PyInt(fw, at, 4), PyInt(fw, at + 4, 4), PyInt(fw, at + 8, 8),
            PyInt(fw, at + 16, 8), PyInt(fw, at + 24, 4), PyInt(fw, at + 28, 4))
  }

  function RtmrSections(fw: bytes, meta: int, count: nat, i: nat): Option<seq<Section>>
    requires i <= count
    decreases count - i
  {
    if i == count then Some([])
    else
      var s := PySection(fw, meta + 16 + 32 * i);
      if !Aligned(s) then None
      else
        var rest :- RtmrSections(fw, meta, count, i + 1);
        Some([s] + rest)
  }

  function ParseRtmr(fw: bytes): Option<seq<Section>> {
    var offset :- MetaOffsetRtmr(fw);
    RtmrAt(fw, |fw| - offset)
  }

  function RtmrAt(fw: bytes, meta: int): Option<seq<Section>> {
    var desc := RelSlice(fw, meta, meta + 16);
    if Slice(desc, 0, 4) != TDVF_TAG || PyInt(desc, 8, 4) != 1 then None
    else RtmrSections(fw, meta, PyInt(desc, 12, 4), 0)
  }

  // ----- mrtd.py: `unpack_from` takes a negative offset from the end and fails when the fields do not fit

  function MrtdSection(fw: bytes, base: int): Option<Section> {
    var at := if base < 0 then |fw| + base else base;
    GetSection(fw, at)
  }

  function MrtdSections(fw: bytes, meta: int, count: nat, i: nat): Option<seq<Section>>
    requires i <= count
    decreases count - i
  {
    if i == count then Some([])
    else
      var s :- MrtdSection(fw, meta + 16 + 32 * i);
      if !Aligned(s) || !Inside(s, fw) then None
      else
        var rest :- MrtdSections(fw, meta, count, i + 1);
        Some([s] + rest)
  }

  function ParseMrtd(fw: bytes): Option<seq<Section>> {
    var offset :- MetaOffsetMrtd(fw);
    MrtdAt(fw, |fw| - offset)
  }

  function MrtdAt(fw: bytes, meta: int): Option<seq<Section>> {
    var desc := RelSlice(fw, meta, meta + 16);
    if Slice(desc, 0, 4) != TDVF_TAG then None
    else
      var version :- Get(desc, 8, 4);
      var count :- Get(desc, 12, 4);
      if version != 1 then None else MrtdSections(fw, meta, count, 0)
  }

  // ----- measure.js: a getter throws outside the image; nothing else is checked, and 64-bit fields become numbers

  function GetSection(fw: bytes, at: int): Option<Section> {
    var dataOffset :- Get(fw, at, 4);
    var rawDataSize :- Get(fw, at + 4, 4);
    var memoryAddress :- Get(fw, at + 8, 8);
    var memoryDataSize :- Get(fw, at + 16, 8);
    var secType :- Get(fw, at + 24, 4);
    var attributes :- Get(fw, at + 28, 4);
    Some(Section(dataOffset, rawDataSize, memoryAddress, memoryDataSize, secType, attributes))
  }

  /** A section whose 64-bit fields were made numbers. */
  function Number(s: Section): Section {
    s.(memoryAddress := Double(s.memoryAddress), memoryDataSize := Double(s.memoryDataSize))
  }

  function Numbers(sections: seq<Section>): (r: seq<Section>)
    ensures |r| == |sections|
  {
    seq(|sections|, i requires 0 <= i < |sections| => Number(sections[i]))
  }

  /** The section table as the getters read it. */
  function JsSections(fw: bytes, meta: int, count: nat, i: nat): Option<seq<Section>>
    requires i <= count
    decreases count - i
  {
    if i == count then Some([])
    else
      var s :- GetSection(fw, meta + 16 + 32 * i);
      var rest :- JsSections(fw, meta, count, i + 1);
      Some([s] + rest)
  }

  function ParseJs(fw: bytes): Option<seq<Section>> {
    var offset :- MetaOffsetJs(fw);
    JsAt(fw, |fw| - offset)
  }

  function JsAt(fw: bytes, meta: int): Option<seq<Section>> {
    var tag :- Get(fw, meta, 4);
    var version :- Get(fw, meta + 8, 4);
    if tag != 0x46564454 || version != 1 then None
    else
      var count :- Get(fw, meta + 12, 4);
      JsSections(fw, meta, count, 0)
  }

  // ----- the three agree

  predicate AllAligned(sections: seq<Section>) {
    forall s <- sections :: Aligned(s)
  }

  predicate AllInside(sections: seq<Section>, fw: bytes) {
    forall s <- sections :: Inside(s, fw)
  }

  lemma PyIntInside(fw: bytes, at: int, w: nat)
    requires Get(fw, at, w).Some?
    ensures Some(PyInt(fw, at, w)) == Get(fw, at, w)
  {
  }

  lemma PySectionInside(fw: bytes, at: int)
    requires GetSection(fw, at).Some?
    ensures 0 <= at && at + 32 <= |fw| && GetSection(fw, at) == Some(PySection(fw, at))
  {
    hide PyInt;
    PyIntInside(fw, at, 4);
    PyIntInside(fw, at + 4, 4);
    PyIntInside(fw, at + 8, 8);
    PyIntInside(fw, at + 16, 8);
    PyIntInside(fw, at + 24, 4);
    PyIntInside(fw, at + 28, 4);
  }

  lemma {:induction false} SectionsAgree(fw: bytes, meta: int, count: nat, i: nat)
    requires i <= count && JsSections(fw, meta, count, i).Some?
    ensures var sections := JsSections(fw, meta, count, i).value;
            && RtmrSections(fw, meta, count, i) == (if AllAligned(sections) then Some(sections) else None)
            && MrtdSections(fw, meta, count, i)
               == (if AllAligned(sections) && AllInside(sections, fw) then Some(sections) else None)
    decreases count - i
  {
    hide PySection, GetSection, Aligned, Inside;
    if i < count {
      PySectionInside(fw, meta + 16 + 32 * i);
      SectionsAgree(fw, meta, count, i + 1);
      var s := PySection(fw, meta + 16 + 32 * i);
      var rest := JsSections(fw, meta, count, i + 1).value;
      var sections := JsSections(fw, meta, count, i).value;
      assert sections == [s] + rest;
      assert AllAligned(sections) <==> Aligned(s) && AllAligned(rest);
      assert AllInside(sections, fw) <==> Inside(s, fw) && AllInside(rest, fw);
    }
  }

  lemma TagIs(b: bytes)
    requires |b| == 4
    ensures b == TDVF_TAG <==> UnLe(b) == 0x46564454
  {
    LeUnLe(b);
    assert 0x46564454 / 256 == 0x465644 && 0x465644 / 256 == 0x4656 && 0x4656 / 256 == 0x46;
    assert Le(0x46, 1) == [0x46] + Le(0, 0) == [0x46];
    assert Le(0x4656, 2) == [0x56] + Le(0x46, 1);
    assert Le(0x465644, 3) == [0x44] + Le(0x4656, 2);
    assert Le(0x46564454, 4) == [0x54] + Le(0x465644, 3) == TDVF_TAG;
    UnLeTag();
  }

  lemma UnLeTag()
    ensures UnLe(TDVF_TAG) == 0x46564454
  {
    var t := TDVF_TAG;
    assert t[1..] == [0x44, 0x56, 0x46] && t[1..][1..] == [0x56, 0x46] && t[1..][1..][1..] == [0x46];
    assert t[1..][1..][1..][1..] == [];
    assert UnLe(t[1..][1..][1..]) == 0x46 && UnLe(t[1..][1..]) == 0x4656 && UnLe(t[1..]) == 0x465644;
  }

  /** Where the browser reads a section table, the Python tools read the same table or refuse it, and they refuse
      it exactly for the misalignments and sizes they check. */
  lemma ParsersAgree(fw: bytes, meta: int)
    requires JsAt(fw, meta).Some?
    ensures var sections := JsAt(fw, meta).value;
            && RtmrAt(fw, meta) == (if AllAligned(sections) then Some(sections) else None)
            && MrtdAt(fw, meta) == (if AllAligned(sections) && AllInside(sections, fw) then Some(sections) else None)
  {
    hide JsSections, RtmrSections, MrtdSections, UnLe;
    var desc := fw[meta..meta + 16];
    TagIs(fw[meta..meta + 4]);
    PieceOfPiece(fw, meta, meta + 16, 0, 4);
    PieceOfPiece(fw, meta, meta + 16, 8, 12);
    PieceOfPiece(fw, meta, meta + 16, 12, 16);
    SectionsAgree(fw, meta, Get(fw, meta + 12, 4).value, 0);
  }

  // ----- numbers

  predicate Sized(s: Section) {
    s.memoryAddress < 0x1_0000_0000_0000_0000 && s.memoryDataSize < 0x1_0000_0000_0000_0000
  }

  lemma SectionSized(fw: bytes, at: int)
    requires GetSection(fw, at).Some?
    ensures Sized(GetSection(fw, at).value)
  {
    PowValues();
  }

  lemma {:induction false} SectionsSized(fw: bytes, meta: int, count: nat, i: nat)
    requires i <= count && JsSections(fw, meta, count, i).Some?
    ensures forall s <- JsSections(fw, meta, count, i).value :: Sized(s)
    decreases count - i
  {
    hide GetSection, Sized;
    if i < count {
      SectionSized(fw, meta + 16 + 32 * i);
      SectionsSized(fw, meta, count, i + 1);
    }
  }

  lemma ParsedSized(fw: bytes)
    requires ParseJs(fw).Some?
    ensures forall s <- ParseJs(fw).value :: Sized(s)
  {
    hide JsSections, MetaOffsetJs, Sized;
    var meta := |fw| - MetaOffsetJs(fw).value;
    SectionsSized(fw, meta, Get(fw, meta + 12, 4).value, 0);
  }

  /** Sections the Python parsers accept have the same numbers in the browser. */
  lemma AlignedNumbers(sections: seq<Section>)
    requires AllAligned(sections) && forall s <- sections :: Sized(s)
    ensures Numbers(sections) == sections
  {
    hide Double;
    forall i | 0 <= i < |sections| ensures Numbers(sections)[i] == sections[i] {
      assert sections[i] in sections;
      PagesAreDoubles(sections[i].memoryAddress);
      PagesAreDoubles(sections[i].memoryDataSize);
    }
  }

  // ----- the loops

  method RtmrSectionsLoop(fw: bytes, meta: int, count: nat) returns (r: Option<seq<Section>>)
    ensures r == RtmrSections(fw, meta, count, 0)
  {
    hide PySection, Aligned;
    var sections: seq<Section> := [];
    for i := 0 to count
      invariant RtmrSections(fw, meta, count, 0) == Prepend(sections, RtmrSections(fw, meta, count, i))
    {
      var s := PySection(fw, meta + 16 + 32 * i);
      if !Aligned(s) { return None; }
      PrependMore(sections, [s], RtmrSections(fw, meta, count, i + 1));
      sections := sections + [s];
    }
    r := Some(sections);
  }

  method MrtdSectionsLoop(fw: bytes, meta: int, count: nat) returns (r: Option<seq<Section>>)
    ensures r == MrtdSections(fw, meta, count, 0)
  {
    hide MrtdSection, Aligned, Inside;
    var sections: seq<Section> := [];
    for i := 0 to count
      invariant MrtdSections(fw, meta, count, 0) == Prepend(sections, MrtdSections(fw, meta, count, i))
    {
      var s := MrtdSection(fw, meta + 16 + 32 * i);
      if s.None? || !Aligned(s.value) || !Inside(s.value, fw) { return None; }
      PrependMore(sections, [s.value], MrtdSections(fw, meta, count, i + 1));
      sections := sections + [s.value];
    }
    r := Some(sections);
  }

  /** The numbers of the sections collected so far, in front of what the getters still read. */
  function NumbersOf(sections: Option<seq<Section>>): Option<seq<Section>> {
    if sections.Some? then Some(Numbers(sections.value)) else None
  }

  lemma NumbersFirst(s: Section, rest: seq<Section>)
    ensures Numbers([s] + rest) == [Number(s)] + Numbers(rest)
  {
    hide Number;
  }

  method JsSectionsLoop(fw: bytes, meta: int, count: nat) returns (r: Option<seq<Section>>)
    ensures r == NumbersOf(JsSections(fw, meta, count, 0))
  {
    hide GetSection, Number, Numbers;
    var sections: seq<Section> := [];
    for i := 0 to count
      invariant NumbersOf(JsSections(fw, meta, count, 0)) == Prepend(sections, NumbersOf(JsSections(fw, meta, count, i)))
    {
      var s := GetSection(fw, meta + 16 + 32 * i);
      if s.None? { return None; }
      ghost var rest := JsSections(fw, meta, count, i + 1);
      if rest.Some? {
        NumbersFirst(s.value, rest.value);
      }
      PrependMore(sections, [Number(s.value)], NumbersOf(rest));
      sections := sections + [Number(s.value)];
    }
    assert Numbers([]) == [] by { NoNumbers(); }
    r := Some(sections);
  }

  lemma NoNumbers()
    ensures Numbers([]) == []
  {
  }

  // ----- the parsers as the programs they are

  method ParseSectionsRtmr(fw: bytes) returns (r: Option<seq<Section>>)
    ensures r == ParseRtmr(fw)
  {
    hide RtmrSections, MetaOffsetRtmr, PyInt;
    var offset := FindOffsetRtmr(fw);
    if offset.None? { return None; }
    var meta := |fw| - offset.value;
    var desc := RelSlice(fw, meta, meta + 16);
    if Slice(desc, 0, 4) != TDVF_TAG { return None; }
    if PyInt(desc, 8, 4) != 1 { return None; }
    r := RtmrSectionsLoop(fw, meta, PyInt(desc, 12, 4));
  }

  method ParseSectionsMrtd(fw: bytes) returns (r: Option<seq<Section>>)
    ensures r == ParseMrtd(fw)
  {
    hide MrtdSections, MetaOffsetMrtd, Get;
    var offset := FindOffsetMrtd(fw);
    if offset.None? { return None; }
    var meta := |fw| - offset.value;
    var desc := RelSlice(fw, meta, meta + 16);
    if Slice(desc, 0, 4) != TDVF_TAG { return None; }
    var version := Get(desc, 8, 4);
    if version.None? || version.value != 1 { return None; }
    var count := Get(desc, 12, 4);
    if count.None? { return None; }
    r := MrtdSectionsLoop(fw, meta, count.value);
  }

  method ParseSectionsJs(fw: bytes) returns (r: Option<seq<Section>>)
    ensures r == NumbersOf(ParseJs(fw))
  {
    hide JsSections, MetaOffsetJs, Get, Numbers;
    var offset := FindOffsetJs(fw);
    if offset.None? { return None; }
    var meta := |fw| - offset.value;
    var tag := Get(fw, meta, 4);
    if tag != Some(0x46564454) { return None; }
    var version := Get(fw, meta + 8, 4);
    if version != Some(1) { return None; }
    var count := Get(fw, meta + 12, 4);
    if count.None? { return None; }
    r := JsSectionsLoop(fw, meta, count.value);
  }
}
