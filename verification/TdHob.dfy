/** The hand-off block list a TD starts from: built by `measure_td_hob` of rtmr0.py and `tdx_measure` of measure.js. */
module TdHob {
  import opened Bytes
  import opened Doubles
  import opened Sorting
  import opened Tdvf
  import opened Acceptor

  const DEFAULT_HOB_BASE := 0x809000
  const SPLIT_FROM := 0xB0000000
  const TWO_GIB := 0x8000_0000
  const FOUR_GIB := 0x1_0000_0000
  const ACCEPTED_MEMORY: byte := 0x00
  const UNACCEPTED_MEMORY: byte := 0x07

  datatype Resource = Resource(rtype: byte, start: int, length: int) {
    predicate Has(p: int) {
      start <= p < start + length
    }
  }

  // ----- what the sections accept, and where the list goes

  predicate AcceptsMemory(s: Section) {
    s.secType == TD_HOB || s.secType == TEMP_MEM
  }

  function TakenBy(sections: seq<Section>): seq<(int, int)> {
    var n := |sections|;
    if n == 0 then []
    else
      var s := sections[n - 1];
      TakenBy(sections[..n - 1])
      + (if AcceptsMemory(s) then [(s.memoryAddress as int, s.memoryAddress + s.memoryDataSize)] else [])
  }

  function HobBase(sections: seq<Section>): nat {
    var n := |sections|;
    if n == 0 then DEFAULT_HOB_BASE
    else if sections[n - 1].secType == TD_HOB then sections[n - 1].memoryAddress
    else HobBase(sections[..n - 1])
  }

  // ----- the resources

  function RangeResource(r: Range): Resource {
    Resource(if r.accepted then ACCEPTED_MEMORY else UNACCEPTED_MEMORY, r.start, r.end - r.start)
  }

  function Front(ranges: seq<Range>): seq<Resource> {
    var n := |ranges|;
    if n == 0 then [] else Front(ranges[..n - 1]) + [RangeResource(ranges[n - 1])]
  }

  /** The last range is always reported unaccepted; a large memory continues above 4 GiB. */
  function Tail(last: Range, memory: nat): seq<Resource> {
    if memory >= SPLIT_FROM then
      [Resource(UNACCEPTED_MEMORY, last.start, TWO_GIB - last.start), Resource(UNACCEPTED_MEMORY, FOUR_GIB, last.end - TWO_GIB)]
    else
      [Resource(UNACCEPTED_MEMORY, last.start, last.end - last.start)]
  }

  function Resources(ranges: seq<Range>, memory: nat): seq<Resource>
    requires ranges != []
  {
    Front(ranges[..|ranges| - 1]) + Tail(ranges[|ranges| - 1], memory)
  }

  // ----- the bytes

  function Handoff(end: int): (b: bytes)
    ensures |b| == 56
  {
    [1, 0] + Le(56, 2) + Zeros(4) + Le(9, 4) + Zeros(4) + Zeros(32) + Le(end, 8)
  }

  function ResourceHob(r: Resource): (b: bytes)
    ensures |b| == 48
  {
    [3, 0] + Le(48, 2) + Zeros(4) + Zeros(16) + [r.rtype] + Zeros(3) + Le(7, 4) + Le(r.start, 8) + Le(r.length, 8)
  }

  function ResourceHobs(resources: seq<Resource>): (b: bytes)
    ensures |b| == 48 * |resources|
  {
    var n := |resources|;
    if n == 0 then [] else ResourceHobs(resources[..n - 1]) + ResourceHob(resources[n - 1])
  }

  function ListEnd(base: nat, resources: seq<Resource>): nat {
    base + 56 + 48 * |resources| + 8
  }

  function HobList(base: nat, resources: seq<Resource>): bytes {
    Handoff(ListEnd(base, resources)) + ResourceHobs(resources)
  }

  predicate U64(n: int) {
    0 <= n < 0x1_0000_0000_0000_0000
  }

  predicate Encodable(resources: seq<Resource>) {
    forall r <- resources :: U64(r.start) && U64(r.length)
  }

  function MemoryOf(sections: seq<Section>, memory: nat): seq<Resource> {
    RangesNonEmpty(memory, TakenBy(sections));
    Resources(AcceptAll(memory, TakenBy(sections)), memory)
  }

  /** rtmr0.py: `to_bytes` raises on what does not fit 64 bits. */
  function PyHob(sections: seq<Section>, memory: nat): Option<bytes> {
    var resources := MemoryOf(sections, memory);
    var base := HobBase(sections);
    if Encodable(resources) && U64(ListEnd(base, resources)) then Some(HobList(base, resources)) else None
  }

  // ----- the same with the numbers of measure.js

  /** The ends of accepted intervals are rounded sums. */
  function RoundEnds(taken: seq<(int, int)>): (r: seq<(int, int)>)
    ensures |r| == |taken|
  {
    seq(|taken|, i requires 0 <= i < |taken| => (taken[i].0, Double(taken[i].1)))
  }

  /** The lengths of resources are rounded differences. */
  function RoundLengths(resources: seq<Resource>): (r: seq<Resource>)
    ensures |r| == |resources|
  {
    seq(|resources|, i requires 0 <= i < |resources| => RoundLength(resources[i]))
  }

  function RoundLength(r: Resource): Resource {
    r.(length := Double(r.length))
  }

  /** The end of the list takes two rounded sums. */
  function JsEnd(base: nat, length: nat): nat {
    Double(Double(base + length) + 8)
  }

  function JsMemoryOf(sections: seq<Section>, memory: nat): seq<Resource> {
    var taken := RoundEnds(TakenBy(sections));
    RangesNonEmpty(memory, taken);
    RoundLengths(Resources(AcceptAll(memory, taken), memory))
  }

  /** What measure.js builds of sections and a memory size that are numbers; a BigInt of any size is cut to 64 bits. */
  function NumbersHob(sections: seq<Section>, memory: nat): bytes {
    var resources := JsMemoryOf(sections, memory);
    Handoff(JsEnd(HobBase(sections), 56 + 48 * |resources|)) + ResourceHobs(resources)
  }

  /** What it builds of a section table and a memory size. */
  function JsHob(sections: seq<Section>, memory: nat): bytes {
    NumbersHob(Numbers(sections), Double(memory))
  }

  lemma RangesNonEmpty(memory: nat, taken: seq<(int, int)>)
    ensures AcceptAll(memory, taken) != []
  {
    var n := |taken|;
    if n > 0 {
      RangesNonEmpty(memory, taken[..n - 1]);
      var (start, end) := taken[n - 1];
      if start < end {
        SortKeeps(SplitAll(AcceptAll(memory, taken[..n - 1]), start, end) + [Range(true, start, end)], START);
        assert Range(true, start, end) in multiset(AcceptAll(memory, taken));
      }
    }
  }

  // ----- the two builders

  lemma TakenByStep(sections: seq<Section>, i: nat)
    requires i < |sections|
    ensures TakenBy(sections[..i + 1]) == TakenBy(sections[..i])
      + (var s := sections[i];
         if AcceptsMemory(s) then [(s.memoryAddress as int, s.memoryAddress + s.memoryDataSize)] else [])
    ensures HobBase(sections[..i + 1]) == if sections[i].secType == TD_HOB then sections[i].memoryAddress else HobBase(sections[..i])
  {
    assert sections[..i + 1][..i] == sections[..i];
  }

  lemma AcceptAllStep(memory: nat, taken: seq<(int, int)>, start: int, end: int)
    ensures AcceptAll(memory, taken + [(start, end)]) == Accept(AcceptAll(memory, taken), start, end)
  {
    assert (taken + [(start, end)])[..|taken|] == taken;
  }

  lemma HobsStep(ranges: seq<Range>, i: nat)
    requires i < |ranges|
    ensures ResourceHobs(Front(ranges[..i + 1])) == ResourceHobs(Front(ranges[..i])) + ResourceHob(RangeResource(ranges[i]))
    ensures |Front(ranges[..i])| == i && |Front(ranges[..i + 1])| == i + 1
    ensures Front(ranges[..i + 1]) == Front(ranges[..i]) + [RangeResource(ranges[i])]
  {
    hide ResourceHob, RangeResource;
    assert ranges[..i + 1][..i] == ranges[..i];
    FrontLength(ranges[..i]);
    var front := Front(ranges[..i]);
    assert (front + [RangeResource(ranges[i])])[..i] == front;
  }

  lemma {:induction false} FrontLength(ranges: seq<Range>)
    ensures |Front(ranges)| == |ranges|
  {
    if ranges != [] {
      FrontLength(ranges[..|ranges| - 1]);
    }
  }

  lemma HobsTail(front: seq<Resource>, last: Range, memory: nat)
    ensures ResourceHobs(front + Tail(last, memory)) ==
      if memory >= SPLIT_FROM then
        ResourceHobs(front) + ResourceHob(Tail(last, memory)[0]) + ResourceHob(Tail(last, memory)[1])
      else ResourceHobs(front) + ResourceHob(Tail(last, memory)[0])
  {
    hide ResourceHob;
    var tail := Tail(last, memory);
    assert (front + [tail[0]])[..|front|] == front;
    if memory >= SPLIT_FROM {
      assert (front + tail)[..|front| + 1] == front + [tail[0]];
    } else {
      assert front + tail == front + [tail[0]];
    }
  }

  method AddMemoryResourceHob(hob: bytes, rtype: byte, start: int, length: int) returns (r: Option<bytes>)
    ensures r == if U64(start) && U64(length) then Some(hob + ResourceHob(Resource(rtype, start, length))) else None
  {
    hide Le, Zeros;
    var block: bytes := [0x03, 0x00];
    block := block + Le(48, 2);
    block := block + Zeros(4);
    block := block + Zeros(16);
    block := block + [rtype];
    block := block + Zeros(3);
    block := block + Le(7, 4);
    if !U64(start) { return None; }
    block := block + Le(start, 8);
    if !U64(length) { return None; }
    block := block + Le(length, 8);
    assert block == ResourceHob(Resource(rtype, start, length));
    r := Some(hob + block);
  }

  lemma ResourceHobIs(rtype: byte, start: int, length: int)
    ensures [3, 0] + Le(48, 2) + [0, 0, 0, 0] + Zeros(16) + ([rtype, 0, 0, 0] + Le(7, 4) + Le(start, 8) + Le(length, 8))
         == ResourceHob(Resource(rtype, start, length))
  {
    hide Le, Zeros;
    FewZeros(rtype);
    var head := [3, 0] + Le(48, 2) + Zeros(4) + Zeros(16);
    Assoc(head, [rtype] + Zeros(3) + Le(7, 4) + Le(start, 8), Le(length, 8));
    Assoc(head, [rtype] + Zeros(3) + Le(7, 4), Le(start, 8));
    Assoc(head, [rtype] + Zeros(3), Le(7, 4));
    Assoc(head, [rtype], Zeros(3));
  }

  lemma FewZeros(first: byte)
    ensures [0, 0, 0, 0] == Zeros(4) && [first, 0, 0, 0] == [first] + Zeros(3)
  {
  }

  method AddHob(hob: bytes, rtype: byte, start: int, length: int) returns (r: bytes)
    ensures r == hob + ResourceHob(Resource(rtype, start, length))
  {
    hide Le, Zeros, ResourceHob;
    var block: bytes := [0x03, 0x00] + Le(48, 2) + [0, 0, 0, 0];
    block := block + Zeros(16);
    block := block + ([rtype, 0, 0, 0] + Le(7, 4) + Le(start, 8) + Le(length, 8));
    ResourceHobIs(rtype, start, length);
    r := hob + block;
  }

  /** The end of the list is written over its placeholder once the length is known. */
  lemma Patched(end: int, rest: bytes)
    ensures var b := Handoff(0) + rest; b[..48] + Le(end, 8) + b[56..] == Handoff(end) + rest
  {
    hide Le, Zeros;
    var head := [1, 0] + Le(56, 2) + Zeros(4) + Le(9, 4) + Zeros(4) + Zeros(32);
    assert Handoff(0) == head + Le(0, 8) && Handoff(end) == head + Le(end, 8);
    var b := Handoff(0) + rest;
    assert b[..48] == head && b[56..] == rest;
  }

  lemma NothingTaken(memory: nat)
    ensures AcceptAll(memory, TakenBy([])) == [Range(false, 0, memory)] && HobBase([]) == DEFAULT_HOB_BASE
  {
  }

  lemma EncodableConcat(x: seq<Resource>, y: seq<Resource>)
    ensures Encodable(x + y) <==> Encodable(x) && Encodable(y)
  {
    assert forall r :: r in x + y <==> r in x || r in y;
  }

  lemma EncodableOne(r: Resource)
    ensures Encodable([r]) <==> U64(r.start) && U64(r.length)
  {
    assert r in [r];
  }

  lemma NothingInFront(ranges: seq<Range>)
    ensures ResourceHobs(Front(ranges[..0])) == [] && Encodable(Front(ranges[..0]))
  {
  }

  /** The first ranges as they stand, each a resource behind `hob`. */
  method AddRanges(hob: bytes, ranges: seq<Range>) returns (r: Option<bytes>)
    ensures r == if Encodable(Front(ranges)) then Some(hob + ResourceHobs(Front(ranges))) else None
  {
    hide ResourceHob, Front, ResourceHobs, Encodable, U64;
    var out := hob;
    NothingInFront(ranges);
    assert hob + [] == hob;
    for i := 0 to |ranges|
      invariant out == hob + ResourceHobs(Front(ranges[..i])) && Encodable(Front(ranges[..i]))
    {
      HobsStep(ranges, i);
      EncodableConcat(Front(ranges[..i]), [RangeResource(ranges[i])]);
      EncodableOne(RangeResource(ranges[i]));
      var next := AddMemoryResourceHob(out, if ranges[i].accepted then 0x00 else 0x07, ranges[i].start, ranges[i].end - ranges[i].start);
      if next.None? {
        NotEncodable(ranges, i + 1);
        return None;
      }
      Assoc(hob, ResourceHobs(Front(ranges[..i])), ResourceHob(RangeResource(ranges[i])));
      out := next.value;
    }
    assert ranges[..|ranges|] == ranges;
    r := Some(out);
  }

  lemma {:induction false} NotEncodable(ranges: seq<Range>, i: nat)
    requires i <= |ranges| && !Encodable(Front(ranges[..i]))
    ensures !Encodable(Front(ranges))
    decreases |ranges| - i
  {
    hide Front, ResourceHobs, Encodable, ResourceHob;
    if i == |ranges| {
      assert ranges[..i] == ranges;
    } else {
      HobsStep(ranges, i);
      EncodableConcat(Front(ranges[..i]), [RangeResource(ranges[i])]);
      NotEncodable(ranges, i + 1);
    }
  }

  lemma EncodableTail(front: seq<Resource>, last: Range, memory: nat)
    ensures Encodable(front + Tail(last, memory)) <==>
      && Encodable(front)
      && (if memory >= SPLIT_FROM then U64(last.start) && U64(TWO_GIB - last.start) && U64(last.end - TWO_GIB)
          else U64(last.start) && U64(last.end - last.start))
  {
    var tail := Tail(last, memory);
    EncodableConcat(front, tail);
    EncodableOne(tail[0]);
    if memory >= SPLIT_FROM {
      EncodableConcat([tail[0]], [tail[1]]);
      EncodableOne(tail[1]);
      assert tail == [tail[0]] + [tail[1]];
    } else {
      assert tail == [tail[0]];
    }
  }

  /** The last range, and the end of the list over its placeholder: what both builders finish with. */
  lemma Finished(base: nat, ranges: seq<Range>, memory: nat, hob: bytes)
    requires ranges != []
    requires hob == Handoff(0) + ResourceHobs(Front(ranges[..|ranges| - 1]) + Tail(ranges[|ranges| - 1], memory))
    ensures var end := ListEnd(base, Resources(ranges, memory));
            && end == base + |hob| + 8
            && hob[..48] + Le(end, 8) + hob[56..] == HobList(base, Resources(ranges, memory))
  {
    hide Handoff, ResourceHobs, Le, Front, Tail;
    var resources := Resources(ranges, memory);
    Patched(ListEnd(base, resources), ResourceHobs(resources));
  }

  /** The same for the browser, whose sums are rounded. */
  lemma JsFinished(base: nat, resources: seq<Resource>, hob: bytes)
    requires hob == Handoff(0) + ResourceHobs(resources)
    ensures var end := JsEnd(base, |hob|);
            && |hob| == 56 + 48 * |resources|
            && hob[..48] + Le(end, 8) + hob[56..] == Handoff(JsEnd(base, 56 + 48 * |resources|)) + ResourceHobs(resources)
  {
    hide Handoff, ResourceHobs, Le, JsEnd;
    Patched(JsEnd(base, |hob|), ResourceHobs(resources));
  }

  lemma FourGiBFits()
    ensures U64(0x1_0000_0000)
  {
  }

  method MeasureTdHob(sections: seq<Section>, memory: nat) returns (r: Option<bytes>)
    ensures r == PyHob(sections, memory)
  {
    hide Le, Zeros, Accept, ResourceHob, RangeResource, AcceptAll, Front, TakenBy, Handoff, ResourceHobs, Double;
    hide Encodable, U64;
    var acceptor := new MemoryAcceptor(0, memory);
    var base := DEFAULT_HOB_BASE;
    NothingTaken(memory);
    assert sections[..0] == [];
    for i := 0 to |sections|
      invariant acceptor.ranges == AcceptAll(memory, TakenBy(sections[..i])) && base == HobBase(sections[..i])
    {
      var s := sections[i];
      TakenByStep(sections, i);
      AcceptAllStep(memory, TakenBy(sections[..i]), s.memoryAddress, s.memoryAddress + s.memoryDataSize);
      assert TakenBy(sections[..i]) + [] == TakenBy(sections[..i]);
      if s.secType == TD_HOB || s.secType == TEMP_MEM {
        acceptor.AcceptRange(s.memoryAddress, s.memoryAddress + s.memoryDataSize);
      }
      if s.secType == TD_HOB {
        base := s.memoryAddress;
      }
    }
    assert sections[..|sections|] == sections;
    RangesNonEmpty(memory, TakenBy(sections));
    var n := |acceptor.ranges| - 1;
    var last, ranges := acceptor.ranges[n], acceptor.ranges[..n];
    EncodableTail(Front(ranges), last, memory);
    FourGiBFits();
    HobsTail(Front(ranges), last, memory);
    var hob := HandoffPlaceholder();
    var listed := AddRanges(hob, ranges);
    if listed.None? { return None; }
    hob := listed.value;
    if memory >= SPLIT_FROM {
      var one := AddMemoryResourceHob(hob, 0x07, last.start, 0x80000000 - last.start);
      if one.None? { return None; }
      var two := AddMemoryResourceHob(one.value, 0x07, 0x100000000, last.end - 0x80000000);
      if two.None? { return None; }
      hob := two.value;
    } else {
      var one := AddMemoryResourceHob(hob, 0x07, last.start, last.end - last.start);
      if one.None? { return None; }
      hob := one.value;
    }
    assert hob == Handoff(0) + ResourceHobs(Front(ranges) + Tail(last, memory));
    Finished(base, acceptor.ranges, memory, hob);
    var end := base + |hob| + 8;
    if !U64(end) { return None; }
    r := Some(hob[..48] + Le(end, 8) + hob[56..]);
  }

  method HandoffPlaceholder() returns (hob: bytes)
    ensures hob == Handoff(0)
  {
    assert Le(0, 8) == Zeros(8) by {
      assert Le(0, 1) == [0] + Le(0, 0) && Le(0, 2) == [0] + Le(0, 1) && Le(0, 3) == [0] + Le(0, 2) && Le(0, 4) == [0] + Le(0, 3);
      assert Le(0, 5) == [0] + Le(0, 4) && Le(0, 6) == [0] + Le(0, 5) && Le(0, 7) == [0] + Le(0, 6) && Le(0, 8) == [0] + Le(0, 7);
    }
    hide Le;
    hob := [0x01, 0x00];
    hob := hob + Le(56, 2) + Zeros(4) + Le(9, 4) + Zeros(4);
    hob := hob + Zeros(8) + Zeros(8) + Zeros(8) + Zeros(8);
    hob := hob + Zeros(8);
    assert hob == Handoff(0);
  }

  /** The ranges and the address the first loop of `tdx_measure` ends with. */
  method TrackAcceptance(sections: seq<Section>, memory: nat) returns (ranges: seq<Range>, hobBase: nat)
    ensures ranges == AcceptAll(memory, RoundEnds(TakenBy(sections))) && hobBase == HobBase(sections)
  {
    hide AcceptAll, TakenBy, HobBase, SplitAll, Sort, Double, RoundEnds;
    ranges := [Range(false, 0, memory)];
    hobBase := DEFAULT_HOB_BASE;
    NothingTaken(memory);
    assert sections[..0] == [];
    assert RoundEnds(TakenBy([])) == [] by { NothingRounded(); }
    for i := 0 to |sections|
      invariant ranges == AcceptAll(memory, RoundEnds(TakenBy(sections[..i]))) && hobBase == HobBase(sections[..i])
    {
      var section := sections[i];
      TakenByStep(sections, i);
      ghost var taken := TakenBy(sections[..i]);
      assert taken + [] == taken;
      if section.secType == 2 { hobBase := section.memoryAddress; }
      if section.secType == 2 || section.secType == 3 {
        var sAddr, eAddr := section.memoryAddress, Double(section.memoryAddress + section.memoryDataSize);
        RoundedStep(taken, sAddr, section.memoryAddress + section.memoryDataSize);
        AcceptAllStep(memory, RoundEnds(taken), sAddr, eAddr);
        if sAddr >= eAddr { continue; }
        ranges := SplitAll(ranges, sAddr, eAddr);
        ranges := ranges + [Range(true, sAddr, eAddr)];
        ranges := Sort(ranges, START);
      }
    }
    assert sections[..|sections|] == sections;
  }

  lemma NothingRounded()
    ensures RoundEnds(TakenBy([])) == []
  {
  }

  lemma RoundedStep(taken: seq<(int, int)>, start: int, end: int)
    ensures RoundEnds(taken + [(start, end)]) == RoundEnds(taken) + [(start, Double(end))]
  {
    hide Double;
  }

  lemma LengthsConcat(x: seq<Resource>, y: seq<Resource>)
    ensures RoundLengths(x + y) == RoundLengths(x) + RoundLengths(y)
  {
    hide RoundLength;
  }

  lemma LengthsOne(r: Resource)
    ensures RoundLengths([r]) == [RoundLength(r)] && RoundLengths([]) == []
  {
    hide RoundLength;
  }

  lemma HobsSnoc(resources: seq<Resource>, r: Resource)
    ensures ResourceHobs(resources + [r]) == ResourceHobs(resources) + ResourceHob(r)
  {
    hide ResourceHob;
    assert (resources + [r])[..|resources|] == resources;
  }

  /** One more block, with a rounded length. */
  method AddRoundedHob(hob: bytes, rtype: byte, start: int, length: int, ghost before: seq<Resource>, ghost r: Resource)
      returns (more: bytes)
    requires hob == Handoff(0) + ResourceHobs(RoundLengths(before)) && r == Resource(rtype, start, length)
    ensures more == Handoff(0) + ResourceHobs(RoundLengths(before + [r]))
  {
    hide Handoff, ResourceHob, ResourceHobs, RoundLengths, Double;
    LengthsConcat(before, [r]);
    LengthsOne(r);
    HobsSnoc(RoundLengths(before), RoundLength(r));
    more := AddHob(hob, rtype, start, Double(length));
    Assoc(Handoff(0), ResourceHobs(RoundLengths(before)), ResourceHob(RoundLength(r)));
  }

  method TdxMeasureHob(sections: seq<Section>, memory: nat) returns (hob: bytes)
    ensures hob == NumbersHob(sections, memory)
  {
    hide Le, Zeros, ResourceHob, RangeResource, AcceptAll, Front, TakenBy, Handoff, ResourceHobs, HobBase, Double, Tail;
    hide RoundLengths, RoundEnds, JsEnd;
    var ranges, hobBase := TrackAcceptance(sections, memory);
    RangesNonEmpty(memory, RoundEnds(TakenBy(sections)));
    ghost var all := ranges;
    hob := HandoffPlaceholder();
    var last := ranges[|ranges| - 1];
    ranges := ranges[..|ranges| - 1];
    NoRanges();
    for i := 0 to |ranges|
      invariant hob == Handoff(0) + ResourceHobs(RoundLengths(Front(ranges[..i])))
    {
      var r := ranges[i];
      HobsStep(ranges, i);
      ResourceOf(r);
      hob := AddRoundedHob(hob, if r.accepted then 0x00 else 0x07, r.start, r.end - r.start,
                           Front(ranges[..i]), RangeResource(r));
    }
    assert ranges[..|ranges|] == ranges;
    TailIs(Front(ranges), last, memory);
    ghost var front := Front(ranges);
    if memory >= 0xB0000000 {
      ghost var low := Resource(0x07, last.start, 0x80000000 - last.start);
      hob := AddRoundedHob(hob, 0x07, last.start, 0x80000000 - last.start, front, low);
      hob := AddRoundedHob(hob, 0x07, 0x100000000, last.end - 0x80000000, front + [low],
                           Resource(0x07, 0x100000000, last.end - 0x80000000));
    } else {
      hob := AddRoundedHob(hob, 0x07, last.start, last.end - last.start, front,
                           Resource(0x07, last.start, last.end - last.start));
    }
    assert hob == Handoff(0) + ResourceHobs(JsMemoryOf(sections, memory));
    JsFinished(hobBase, JsMemoryOf(sections, memory), hob);
    EndIs(hobBase, |hob|);
    var endHobBytes := Le(Double(Double(hobBase + |hob|) + 8), 8);
    hob := hob[..48] + endHobBytes + hob[56..];
  }

  lemma EndIs(base: nat, length: nat)
    ensures JsEnd(base, length) == Double(Double(base + length) + 8)
  {
  }

  /** The list behind the last range. */
  lemma TailIs(front: seq<Resource>, last: Range, memory: nat)
    ensures front + Tail(last, memory) ==
      if memory >= SPLIT_FROM then
        front + [Resource(UNACCEPTED_MEMORY, last.start, TWO_GIB - last.start)]
        + [Resource(UNACCEPTED_MEMORY, FOUR_GIB, last.end - TWO_GIB)]
      else front + [Resource(UNACCEPTED_MEMORY, last.start, last.end - last.start)]
  {
  }

  lemma NoRanges()
    ensures forall ranges: seq<Range> :: ranges[..0] == []
    ensures Front([]) == [] && RoundLengths([]) == [] && Handoff(0) + ResourceHobs(RoundLengths(Front([]))) == Handoff(0)
  {
    hide Handoff;
    assert Handoff(0) + [] == Handoff(0);
  }

  lemma ResourceOf(r: Range)
    ensures RangeResource(r) == Resource(if r.accepted then 0x00 else 0x07, r.start, r.end - r.start)
  {
  }
}
