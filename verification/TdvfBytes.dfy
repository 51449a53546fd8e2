/** The TDVF metadata of an image, read off its bytes ("TDVF metadata", section 4 of the TDX Virtual Firmware Design Guide),
    without the functions that parse it. */
module TdvfBytes {
  import opened Bytes
  import opened Tdvf

  /** 32 bytes at `at` spell the section. */
  predicate SectionSpelled(fw: bytes, at: nat, s: Section) {
    && at + 32 <= |fw|
    && s.dataOffset == Low4(fw, at) && s.rawDataSize == Low4(fw, at + 4)
    && s.memoryAddress == Low8(fw, at + 8) && s.memoryDataSize == Low8(fw, at + 16)
    && s.secType == Low4(fw, at + 24) && s.attributes == Low4(fw, at + 28)
  }

  /** At `at` lies a descriptor: "TDVF", any length, version 1, the number of sections, and then the sections. */
  predicate Described(fw: bytes, at: nat, sections: seq<Section>) {
    && at + 16 <= |fw|
    && fw[at] == 'T' as int && fw[at + 1] == 'D' as int && fw[at + 2] == 'V' as int && fw[at + 3] == 'F' as int
    && Low4(fw, at + 8) == 1 && Low4(fw, at + 12) == |sections|
    && TableSpelled(fw, at + 16, sections)
  }

  predicate TableSpelled(fw: bytes, at: nat, sections: seq<Section>) {
    forall i | 0 <= i < |sections| :: SectionSpelled(fw, at + 32 * i, sections[i])
  }

  lemma SectionRead(fw: bytes, at: int)
    ensures GetSection(fw, at).Some? <==> 0 <= at && at + 32 <= |fw|
    ensures GetSection(fw, at).Some? ==> SectionSpelled(fw, at, GetSection(fw, at).value)
  {
    hide Get, Low4, Low8;
    GetIs(fw, at);
    GetIs(fw, at + 4);
    GetIs(fw, at + 8);
    GetIs(fw, at + 16);
    GetIs(fw, at + 24);
    GetIs(fw, at + 28);
  }

  lemma OneSection(fw: bytes, at: nat, s: Section, t: Section)
    requires SectionSpelled(fw, at, s) && SectionSpelled(fw, at, t)
    ensures s == t
  {
    hide Low4, Low8;
  }

  lemma {:induction false} TableRead(fw: bytes, meta: nat, sections: seq<Section>, i: nat)
    requires i <= |sections| && TableSpelled(fw, meta + 16, sections)
    ensures JsSections(fw, meta, |sections|, i) == Some(sections[i..])
    decreases |sections| - i
  {
    hide GetSection, SectionSpelled;
    if i < |sections| {
      var at := meta + 16 + 32 * i;
      assert SectionSpelled(fw, at, sections[i]);
      SectionInside(fw, at, sections[i]);
      SectionRead(fw, at);
      OneSection(fw, at, sections[i], GetSection(fw, at).value);
      TableRead(fw, meta, sections, i + 1);
      assert sections[i..] == [sections[i]] + sections[i + 1..];
    } else {
      assert sections[i..] == [];
    }
  }

  lemma SectionInside(fw: bytes, at: nat, s: Section)
    requires SectionSpelled(fw, at, s)
    ensures at + 32 <= |fw|
  {
  }

  lemma {:induction false} TableSaid(fw: bytes, meta: nat, count: nat, i: nat)
    requires i <= count && JsSections(fw, meta, count, i).Some?
    ensures var sections := JsSections(fw, meta, count, i).value;
            |sections| == count - i && TableSpelled(fw, meta + 16 + 32 * i, sections)
    decreases count - i
  {
    hide GetSection, SectionSpelled;
    if i < count {
      var at := meta + 16 + 32 * i;
      SectionRead(fw, at);
      TableSaid(fw, meta, count, i + 1);
      var rest := JsSections(fw, meta, count, i + 1).value;
      var sections := JsSections(fw, meta, count, i).value;
      forall j | 0 <= j < |sections| ensures SectionSpelled(fw, at + 32 * j, sections[j]) {
        if j > 0 {
          assert SectionSpelled(fw, (at + 32) + 32 * (j - 1), rest[j - 1]);
        }
      }
    }
  }

  lemma TagRead(fw: bytes, at: int)
    ensures Get(fw, at, 4) == Some(0x46564454) <==>
      && 0 <= at && at + 4 <= |fw|
      && fw[at] == 0x54 && fw[at + 1] == 0x44 && fw[at + 2] == 0x56 && fw[at + 3] == 0x46
  {
    hide Get;
    GetIs(fw, at);
  }

  /** The browser reads exactly what the bytes at the metadata offset spell, and throws when they spell no descriptor. */
  lemma BrowserReads(fw: bytes, at: int, sections: seq<Section>)
    ensures JsAt(fw, at) == Some(sections) <==> at >= 0 && Described(fw, at, sections)
  {
    hide Get, JsSections, TableSpelled, Low4;
    TagRead(fw, at);
    GetIs(fw, at + 8);
    GetIs(fw, at + 12);
    if at >= 0 && Described(fw, at, sections) {
      TableRead(fw, at, sections, 0);
      assert sections[0..] == sections;
    }
    if JsAt(fw, at) == Some(sections) {
      TableSaid(fw, at, Get(fw, at + 12, 4).value, 0);
    }
  }

  /** rtmr0.py accepts a descriptor exactly when every section starts and ends at a page boundary and has no more contents than
      memory; mrtd.py also wants the memory of measured sections, those with an odd attribute value, inside the image. */
  lemma PythonReads(fw: bytes, at: nat, sections: seq<Section>)
    requires Described(fw, at, sections)
    ensures var aligned := forall s <- sections ::
                s.memoryAddress % 0x1000 == 0 && s.memoryDataSize % 0x1000 == 0 && s.rawDataSize <= s.memoryDataSize;
            var inside := forall s <- sections :: s.attributes % 2 == 1 ==> s.dataOffset + s.memoryDataSize <= |fw|;
            && RtmrAt(fw, at) == (if aligned then Some(sections) else None)
            && MrtdAt(fw, at) == (if aligned && inside then Some(sections) else None)
  {
    hide Described, RtmrAt, MrtdAt, JsAt;
    BrowserReads(fw, at, sections);
    ParsersAgree(fw, at);
  }
}
